/** The Euclidean norm as its square determines it: triangle inequality, scaling, and balls under averaging. */
module Euclid {
  import opened Sums

  type Vec = seq<real>

  function Sub(a: Vec, b: Vec): (r: Vec)
    requires |a| == |b|
    ensures |r| == |a|
    ensures forall k | 0 <= k < |r| :: r[k] == a[k] - b[k]
  {
    seq(|a|, k requires 0 <= k < |a| => a[k] - b[k])
  }

  function Dot(a: Vec, b: Vec): real
    requires |a| == |b|
  {
    if a == [] then 0.0 else Scaled(a[0], b[0]) + Dot(a[1..], b[1..])
  }

  /** `norm` is the L2 norm: nonnegative, with the sum of squares as its square. */
  ghost predicate IsL2(norm: Vec -> real) {
    forall v: Vec :: norm(v) >= 0.0 && Scaled(norm(v), norm(v)) == Dot(v, v)
  }

  // --- Products of numbers ---

  lemma Negated(x: real, y: real)
    requires y == -x
    ensures Scaled(y, y) == Scaled(x, x)
  {
  }

  lemma PositiveProduct(x: real, y: real)
    requires x > 0.0 && y > 0.0
    ensures Scaled(x, y) > 0.0
  {
  }

  lemma Square(x: real)
    ensures Scaled(x, x) >= 0.0
    ensures x == 0.0 || Scaled(x, x) > 0.0
  {
    if x > 0.0 {
      PositiveProduct(x, x);
    } else if x < 0.0 {
      PositiveProduct(-x, -x);
      Negated(x, -x);
    }
  }

  lemma Widen(x: real, y: real, z: real)
    requires x <= y && z >= 0.0
    ensures Scaled(x, z) <= Scaled(y, z)
  {
  }

  lemma SquareOfSum(x: real, y: real)
    ensures Scaled(x + y, x + y) == Scaled(x, x) + 2.0 * Scaled(x, y) + Scaled(y, y)
  {
  }

  lemma SquareOfProduct(x: real, y: real)
    ensures Scaled(Scaled(x, y), Scaled(x, y)) == Scaled(Scaled(x, x), Scaled(y, y))
  {
  }

  lemma Reorder(a: real, b: real, p: real, q: real)
    ensures Scaled(Scaled(p, b), Scaled(a, q)) == Scaled(Scaled(a, b), Scaled(p, q))
  {
  }

  lemma SumAndDifference(m: real, n: real)
    ensures Scaled(m + n, m + n) == Scaled(m - n, m - n) + 4.0 * Scaled(m, n)
  {
  }

  lemma Twice(s: real)
    ensures Scaled(2.0 * s, 2.0 * s) == 4.0 * Scaled(s, s)
  {
  }

  lemma ProductOfSums(p: real, a: real, q: real, b: real)
    ensures Scaled(p + a, q + b) == Scaled(p, q) + Scaled(p, b) + Scaled(a, q) + Scaled(a, b)
  {
  }

  lemma OneMore(m: real, x: real)
    ensures Scaled(m + 1.0, x) == Scaled(m, x) + x
  {
  }

  lemma ScaleStep(m: real, x: real, d: real)
    ensures Scaled(Scaled(m, x), Scaled(m, x)) + Scaled(Scaled(m, m), d) == Scaled(Scaled(m, m), Scaled(x, x) + d)
  {
  }

  lemma ScaledDifference(m: real, s: real, c: real)
    requires m > 0.0
    ensures s - Scaled(m, c) == Scaled(m, s / m - c)
  {
  }

  lemma Cancel(m: real, x: real, y: real)
    requires m > 0.0 && Scaled(m, x) <= Scaled(m, y)
    ensures x <= y
  {
  }

  lemma Factored(x: real, y: real)
    ensures Scaled(x, x) - Scaled(y, y) == Scaled(x - y, x + y)
  {
  }

  lemma StrictSquare(x: real, y: real)
    requires x > y >= 0.0
    ensures Scaled(x, x) > Scaled(y, y)
  {
    PositiveProduct(x - y, x + y);
    Factored(x, y);
  }

  /** Squares compare like their roots. */
  lemma RootMonotone(x: real, y: real)
    requires y >= 0.0 && Scaled(x, x) <= Scaled(y, y)
    ensures x <= y
  {
    if x > y { StrictSquare(x, y); }
  }

  lemma RootUnique(x: real, y: real)
    requires x >= 0.0 && y >= 0.0 && Scaled(x, x) == Scaled(y, y)
    ensures x == y
  {
    RootMonotone(x, y);
    RootMonotone(y, x);
  }

  // --- Inner products ---

  lemma {:induction false} DotSelf(a: Vec)
    ensures Dot(a, a) >= 0.0
    ensures Dot(a, a) == 0.0 ==> forall k | 0 <= k < |a| :: a[k] == 0.0
  {
    if a == [] {
    } else {
      DotSelf(a[1..]);
      Square(a[0]);
      assert forall k | 0 < k < |a| :: a[k] == a[1..][k - 1];
    }
  }

  lemma {:induction false} DotZero(a: Vec)
    requires forall k | 0 <= k < |a| :: a[k] == 0.0
    ensures Dot(a, a) == 0.0
  {
    if a == [] {
    } else {
      DotZero(a[1..]);
    }
  }

  lemma {:induction false} DotPlus(a: Vec, b: Vec)
    requires |a| == |b|
    ensures Dot(Plus(a, b), Plus(a, b)) == Dot(a, a) + 2.0 * Dot(a, b) + Dot(b, b)
  {
    if a == [] {
    } else {
      DotPlus(a[1..], b[1..]);
      assert Plus(a, b)[1..] == Plus(a[1..], b[1..]);
      SquareOfSum(a[0], b[0]);
    }
  }

  lemma {:induction false} DotNegated(a: Vec, b: Vec)
    requires |a| == |b| && forall k | 0 <= k < |a| :: b[k] == -a[k]
    ensures Dot(a, a) == Dot(b, b)
  {
    if a == [] {
    } else {
      DotNegated(a[1..], b[1..]);
      Negated(a[0], b[0]);
    }
  }

  lemma {:induction false} DotScaled(a: Vec, b: Vec, m: real)
    requires |a| == |b| && forall k | 0 <= k < |a| :: b[k] == Scaled(m, a[k])
    ensures Dot(b, b) == Scaled(Scaled(m, m), Dot(a, a))
  {
    if a == [] {
    } else {
      DotScaled(a[1..], b[1..], m);
      ScaleStep(m, a[0], Dot(a[1..], a[1..]));
    }
  }

  lemma Commute(x: real, y: real)
    ensures Scaled(x, y) == Scaled(y, x)
  {
  }

  /** With c^2 = pq and s^2 <= ab, twice cs is at most pb + aq. */
  lemma CrossTerm(c: real, s: real, p: real, q: real, a: real, b: real)
    requires p >= 0.0 && q >= 0.0 && a >= 0.0 && b >= 0.0
    requires Scaled(c, c) == Scaled(p, q) && Scaled(s, s) <= Scaled(a, b)
    ensures 2.0 * Scaled(c, s) <= Scaled(p, b) + Scaled(a, q)
  {
    var m, n, t := Scaled(p, b), Scaled(a, q), Scaled(c, s);
    NonNegative(p, b);
    NonNegative(a, q);
    assert Scaled(t, t) <= Scaled(m, n) by {
      SquareOfProduct(c, s);
      NonNegative(p, q);
      Widen(Scaled(s, s), Scaled(a, b), Scaled(p, q));
      Reorder(a, b, p, q);
      Commute(Scaled(p, q), Scaled(s, s));
    }
    Twice(t);
    SumAndDifference(m, n);
    Square(m - n);
    RootMonotone(2.0 * t, m + n);
  }

  lemma CauchyStep(x: real, y: real, a: real, b: real, s: real)
    requires a >= 0.0 && b >= 0.0 && Scaled(s, s) <= Scaled(a, b)
    ensures Scaled(Scaled(x, y) + s, Scaled(x, y) + s) <= Scaled(Scaled(x, x) + a, Scaled(y, y) + b)
  {
    var p, q, c := Scaled(x, x), Scaled(y, y), Scaled(x, y);
    Square(x);
    Square(y);
    SquareOfProduct(x, y);
    CrossTerm(c, s, p, q, a, b);
    SquareOfSum(c, s);
    ProductOfSums(p, a, q, b);
  }

  lemma {:induction false} CauchySchwarz(a: Vec, b: Vec)
    requires |a| == |b|
    ensures Scaled(Dot(a, b), Dot(a, b)) <= Scaled(Dot(a, a), Dot(b, b))
  {
    if a == [] {
    } else {
      CauchySchwarz(a[1..], b[1..]);
      DotSelf(a[1..]);
      DotSelf(b[1..]);
      CauchyStep(a[0], b[0], Dot(a[1..], a[1..]), Dot(b[1..], b[1..]), Dot(a[1..], b[1..]));
    }
  }

  // --- The norm ---

  lemma TriangleStep(x: real, y: real, z: real, d: real)
    requires x >= 0.0 && y >= 0.0 && z >= 0.0
    requires Scaled(d, d) <= Scaled(Scaled(x, x), Scaled(y, y))
    requires Scaled(z, z) == Scaled(x, x) + 2.0 * d + Scaled(y, y)
    ensures z <= x + y
  {
    SquareOfProduct(x, y);
    NonNegative(x, y);
    RootMonotone(d, Scaled(x, y));
    SquareOfSum(x, y);
    RootMonotone(z, x + y);
  }

  lemma TriangleInequality(norm: Vec -> real, a: Vec, b: Vec)
    requires IsL2(norm) && |a| == |b|
    ensures norm(Plus(a, b)) <= norm(a) + norm(b)
  {
    CauchySchwarz(a, b);
    DotPlus(a, b);
    TriangleStep(norm(a), norm(b), norm(Plus(a, b)), Dot(a, b));
  }

  lemma DistanceSymmetric(norm: Vec -> real, a: Vec, b: Vec)
    requires IsL2(norm) && |a| == |b|
    ensures norm(Sub(a, b)) == norm(Sub(b, a))
  {
    DotNegated(Sub(a, b), Sub(b, a));
    RootUnique(norm(Sub(a, b)), norm(Sub(b, a)));
  }

  lemma DistanceTriangle(norm: Vec -> real, a: Vec, b: Vec, c: Vec)
    requires IsL2(norm) && |a| == |b| == |c|
    ensures norm(Sub(a, c)) <= norm(Sub(a, b)) + norm(Sub(b, c))
  {
    assert Plus(Sub(a, b), Sub(b, c)) == Sub(a, c);
    TriangleInequality(norm, Sub(a, b), Sub(b, c));
  }

  lemma ZeroDistance(norm: Vec -> real, a: Vec, b: Vec)
    requires IsL2(norm) && |a| == |b| && norm(Sub(a, b)) == 0.0
    ensures a == b
  {
    DotSelf(Sub(a, b));
    forall k | 0 <= k < |a| ensures a[k] == b[k] {
      assert Sub(a, b)[k] == 0.0;
    }
  }

  lemma ZeroNorm(norm: Vec -> real, a: Vec)
    requires IsL2(norm) && forall k | 0 <= k < |a| :: a[k] == 0.0
    ensures norm(a) == 0.0
  {
    DotZero(a);
    Square(norm(a));
  }

  // --- Averaging stays inside a ball ---

  /** Column `k` of a list of vectors of one length. */
  function Col(vs: seq<Vec>, k: nat): (r: seq<real>)
    requires forall i | 0 <= i < |vs| :: k < |vs[i]|
    ensures |r| == |vs|
  {
    seq(|vs|, i requires 0 <= i < |vs| => vs[i][k])
  }

  predicate Uniform(vs: seq<Vec>, n: nat) {
    forall i | 0 <= i < |vs| :: |vs[i]| == n
  }

  function SumVec(vs: seq<Vec>, n: nat): (r: Vec)
    requires Uniform(vs, n)
    ensures |r| == n
  {
    seq(n, k requires 0 <= k < n => Sum(Col(vs, k)))
  }

  function MeanVec(vs: seq<Vec>, n: nat): (r: Vec)
    requires Uniform(vs, n) && |vs| > 0
    ensures |r| == n
  {
    seq(n, k requires 0 <= k < n => Mean(Col(vs, k)))
  }

  function TimesVec(m: nat, v: Vec): (r: Vec)
    ensures |r| == |v|
  {
    seq(|v|, k requires 0 <= k < |v| => Scaled(m as real, v[k]))
  }

  lemma OffsetStep(vs: seq<Vec>, n: nat, center: Vec)
    requires Uniform(vs, n) && |center| == n && |vs| > 0
    ensures Sub(SumVec(vs, n), TimesVec(|vs|, center))
         == Plus(Sub(vs[0], center), Sub(SumVec(vs[1..], n), TimesVec(|vs[1..]|, center)))
  {
    var rest := vs[1..];
    var m := |rest| as real;
    assert |vs| as real == m + 1.0;
    var l, r := TimesVec(|vs|, center), TimesVec(|rest|, center);
    forall k | 0 <= k < n
      ensures SumVec(vs, n)[k] == vs[0][k] + SumVec(rest, n)[k]
      ensures l[k] == r[k] + center[k]
    {
      assert Col(vs, k)[1..] == Col(rest, k);
      OneMore(m, center[k]);
    }
  }

  lemma {:induction false} SumStaysClose(norm: Vec -> real, vs: seq<Vec>, n: nat, center: Vec, bound: real)
    requires IsL2(norm) && Uniform(vs, n) && |center| == n
    requires forall i | 0 <= i < |vs| :: norm(Sub(vs[i], center)) <= bound
    ensures norm(Sub(SumVec(vs, n), TimesVec(|vs|, center))) <= Scaled(|vs| as real, bound)
  {
    if vs == [] {
      ZeroNorm(norm, Sub(SumVec(vs, n), TimesVec(|vs|, center)));
    } else {
      var rest := vs[1..];
      SumStaysClose(norm, rest, n, center, bound);
      OffsetStep(vs, n, center);
      TriangleInequality(norm, Sub(vs[0], center), Sub(SumVec(rest, n), TimesVec(|rest|, center)));
      OneMore(|rest| as real, bound);
    }
  }

  lemma MeanOffset(vs: seq<Vec>, n: nat, center: Vec)
    requires Uniform(vs, n) && |center| == n && |vs| > 0
    ensures forall k | 0 <= k < n ::
        Sub(SumVec(vs, n), TimesVec(|vs|, center))[k] == Scaled(|vs| as real, Sub(MeanVec(vs, n), center)[k])
  {
    forall k | 0 <= k < n
      ensures Sub(SumVec(vs, n), TimesVec(|vs|, center))[k] == Scaled(|vs| as real, Sub(MeanVec(vs, n), center)[k])
    {
      ScaledDifference(|vs| as real, Sum(Col(vs, k)), center[k]);
    }
  }

  lemma BallStep(m: real, x: real, y: real, bound: real)
    requires m > 0.0 && x >= 0.0 && y >= 0.0
    requires Scaled(y, y) == Scaled(Scaled(m, m), Scaled(x, x)) && y <= Scaled(m, bound)
    ensures x <= bound
  {
    NonNegative(m, x);
    SquareOfProduct(m, x);
    RootUnique(Scaled(m, x), y);
    Cancel(m, x, bound);
  }

  /** The mean of vectors that all lie within `bound` of a center lies within `bound` of it. */
  lemma MeanStaysClose(norm: Vec -> real, vs: seq<Vec>, n: nat, center: Vec, bound: real)
    requires IsL2(norm) && Uniform(vs, n) && |center| == n && |vs| > 0
    requires forall i | 0 <= i < |vs| :: norm(Sub(vs[i], center)) <= bound
    ensures norm(Sub(MeanVec(vs, n), center)) <= bound
  {
    var small, large := Sub(MeanVec(vs, n), center), Sub(SumVec(vs, n), TimesVec(|vs|, center));
    var m := |vs| as real;
    assert Dot(large, large) == Scaled(Scaled(m, m), Dot(small, small)) by {
      MeanOffset(vs, n, center);
      DotScaled(small, large, m);
    }
    assert norm(large) <= Scaled(m, bound) by { SumStaysClose(norm, vs, n, center, bound); }
    BallStep(m, norm(small), norm(large), bound);
  }
}
