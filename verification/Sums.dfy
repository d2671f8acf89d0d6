/** Sums, means and counts over sequences: the arithmetic every aggregation rule shares. */
module Sums {

  function Sum(s: seq<real>): real {
    if s == [] then 0.0 else s[0] + Sum(s[1..])
  }

  function Mean(s: seq<real>): real
    requires |s| > 0
  {
    Sum(s) / |s| as real
  }

  /** Multiplication under a name, to keep the solver from multiplying out. */
  function Scaled(k: real, x: real): real {
    k * x
  }

  lemma NonNegative(x: real, y: real)
    requires x >= 0.0 && y >= 0.0
    ensures Scaled(x, y) >= 0.0
  {
  }

  lemma Distribute(k: real, x: real, y: real)
    ensures Scaled(k, x + y) == Scaled(k, x) + Scaled(k, y)
  {
  }

  lemma {:induction false} SumConcat(a: seq<real>, b: seq<real>)
    ensures Sum(a + b) == Sum(a) + Sum(b)
  {
    if a == [] {
      assert a + b == b;
    } else {
      assert (a + b)[1..] == a[1..] + b;
      SumConcat(a[1..], b);
    }
  }

  lemma {:induction false} SumBounds(s: seq<real>, lo: real, hi: real)
    requires forall i | 0 <= i < |s| :: lo <= s[i] <= hi
    ensures |s| as real * lo <= Sum(s) <= |s| as real * hi
  {
    if s == [] {
    } else {
      SumBounds(s[1..], lo, hi);
      var m := |s[1..]| as real;
      assert |s| as real == m + 1.0;
      assert (m + 1.0) * lo == m * lo + lo && (m + 1.0) * hi == m * hi + hi;
    }
  }

  lemma DivBounds(x: real, n: real, lo: real, hi: real)
    requires n > 0.0 && n * lo <= x <= n * hi
    ensures lo <= x / n <= hi
  {
    assert (x - n * lo) / n == x / n - lo;
    assert (n * hi - x) / n == hi - x / n;
  }

  lemma MeanBounds(s: seq<real>, lo: real, hi: real)
    requires |s| > 0
    requires forall i | 0 <= i < |s| :: lo <= s[i] <= hi
    ensures lo <= Mean(s) <= hi
  {
    SumBounds(s, lo, hi);
    var n := |s| as real;
    DivBounds(Sum(s), n, lo, hi);
  }

  lemma {:induction false} SumConstant(s: seq<real>, v: real)
    requires forall i | 0 <= i < |s| :: s[i] == v
    ensures Sum(s) == |s| as real * v
  {
    SumBounds(s, v, v);
  }

  lemma MeanConstant(s: seq<real>, v: real)
    requires |s| > 0
    requires forall i | 0 <= i < |s| :: s[i] == v
    ensures Mean(s) == v
  {
    MeanBounds(s, v, v);
  }

  lemma {:induction false} SumRemove(s: seq<real>, i: nat)
    requires i < |s|
    ensures Sum(s) == s[i] + Sum(s[..i] + s[i + 1..])
  {
    SumConcat(s[..i], s[i..]);
    SumConcat(s[..i], s[i + 1..]);
    assert s == s[..i] + s[i..];
    assert s[i..][1..] == s[i + 1..];
  }

  lemma RemoveAt<T>(s: seq<T>, i: nat)
    requires i < |s|
    ensures multiset(s) == multiset(s[..i] + s[i + 1..]) + multiset{s[i]}
  {
    assert s == s[..i] + [s[i]] + s[i + 1..];
  }

  /** A sum does not depend on the order of its terms. */
  lemma {:induction false} SumPermutation(a: seq<real>, b: seq<real>)
    requires multiset(a) == multiset(b)
    ensures Sum(a) == Sum(b)
    decreases |a|
  {
    if a == [] {
      assert |multiset(b)| == 0;
    } else {
      assert a[0] in multiset(b);
      var i :| 0 <= i < |b| && b[i] == a[0];
      var b' := b[..i] + b[i + 1..];
      RemoveAt(b, i);
      RemoveAt(a, 0);
      assert a[..0] + a[1..] == a[1..];
      assert multiset(a[1..]) == multiset(a) - multiset{a[0]};
      SumPermutation(a[1..], b');
      SumRemove(b, i);
    }
  }

  lemma MeanPermutation(a: seq<real>, b: seq<real>)
    requires multiset(a) == multiset(b) && |a| > 0
    ensures |a| == |b| && Mean(a) == Mean(b)
  {
    assert |a| == |multiset(a)| == |multiset(b)| == |b|;
    SumPermutation(a, b);
  }

  function Map<S, T>(f: S -> T, s: seq<S>): (r: seq<T>)
    ensures |r| == |s|
    ensures forall i | 0 <= i < |s| :: r[i] == f(s[i])
  {
    seq(|s|, i requires 0 <= i < |s| => f(s[i]))
  }

  lemma MapRemove<S, T>(f: S -> T, s: seq<S>, i: nat)
    requires i < |s|
    ensures multiset(Map(f, s)) == multiset(Map(f, s[..i] + s[i + 1..])) + multiset{f(s[i])}
  {
    var fs := Map(f, s);
    RemoveAt(fs, i);
    assert fs[..i] + fs[i + 1..] == Map(f, s[..i] + s[i + 1..]);
  }

  lemma SameWithout<T>(a: seq<T>, b: seq<T>) returns (i: nat)
    requires multiset(a) == multiset(b) && |a| > 0
    ensures i < |b| && b[i] == a[0]
    ensures multiset(a[..0] + a[1..]) == multiset(b[..i] + b[i + 1..])
  {
    assert a[0] in multiset(b);
    i :| 0 <= i < |b| && b[i] == a[0];
    RemoveAt(b, i);
    RemoveAt(a, 0);
    assert multiset(a[..0] + a[1..]) == multiset(a) - multiset{a[0]};
    assert multiset(b[..i] + b[i + 1..]) == multiset(b) - multiset{b[i]};
  }

  lemma {:induction false} MapPermutation<S, T>(f: S -> T, a: seq<S>, b: seq<S>)
    requires multiset(a) == multiset(b)
    ensures multiset(Map(f, a)) == multiset(Map(f, b))
    decreases |a|
  {
    assert |a| == |multiset(a)| == |multiset(b)| == |b|;
    if a != [] {
      var i := SameWithout(a, b);
      MapPermutation(f, a[..0] + a[1..], b[..i] + b[i + 1..]);
      MapRemove(f, a, 0);
      MapRemove(f, b, i);
    }
  }

  /** How many elements of `s` satisfy `p`. */
  function Count<T>(s: seq<T>, p: T -> bool): nat {
    if s == [] then 0 else (if p(s[0]) then 1 else 0) + Count(s[1..], p)
  }

  lemma {:induction false} CountConcat<T>(a: seq<T>, b: seq<T>, p: T -> bool)
    ensures Count(a + b, p) == Count(a, p) + Count(b, p)
  {
    if a == [] {
      assert a + b == b;
    } else {
      assert (a + b)[1..] == a[1..] + b;
      CountConcat(a[1..], b, p);
    }
  }

  lemma {:induction false} CountAll<T>(s: seq<T>, p: T -> bool)
    ensures Count(s, p) <= |s|
    ensures (forall i | 0 <= i < |s| :: p(s[i])) ==> Count(s, p) == |s|
    ensures (forall i | 0 <= i < |s| :: !p(s[i])) ==> Count(s, p) == 0
  {
    if s == [] {
    } else {
      CountAll(s[1..], p);
    }
  }

  lemma CountRemove<T>(s: seq<T>, i: nat, p: T -> bool)
    requires i < |s|
    ensures Count(s, p) == (if p(s[i]) then 1 else 0) + Count(s[..i] + s[i + 1..], p)
  {
    CountConcat(s[..i], s[i..], p);
    CountConcat(s[..i], s[i + 1..], p);
    assert s == s[..i] + s[i..];
    assert s[i..][1..] == s[i + 1..];
  }

  lemma {:induction false} CountPermutation<T>(a: seq<T>, b: seq<T>, p: T -> bool)
    requires multiset(a) == multiset(b)
    ensures Count(a, p) == Count(b, p)
    decreases |a|
  {
    if a == [] {
      assert |multiset(b)| == 0;
    } else {
      assert a[0] in multiset(b);
      var i :| 0 <= i < |b| && b[i] == a[0];
      var b' := b[..i] + b[i + 1..];
      RemoveAt(b, i);
      RemoveAt(a, 0);
      assert a[..0] + a[1..] == a[1..];
      assert multiset(a[1..]) == multiset(a) - multiset{a[0]};
      CountPermutation(a[1..], b', p);
      CountRemove(b, i, p);
    }
  }

  /** The number of positions outside which `p` fails is an upper bound of the count. */
  lemma {:induction false} CountWithin<T>(s: seq<T>, p: T -> bool, positions: set<nat>)
    requires forall i: nat | i < |s| && p(s[i]) :: i in positions
    ensures Count(s, p) <= |positions|
    decreases |s|
  {
    if s == [] {
    } else {
      var n := |s| - 1;
      assert s == s[..n] + [s[n]];
      CountConcat(s[..n], [s[n]], p);
      assert [s[n]][1..] == [];
      if p(s[n]) {
        CountWithin(s[..n], p, positions - {n});
        assert |positions| == |positions - {n}| + 1;
      } else {
        CountWithin(s[..n], p, positions);
      }
    }
  }

  lemma {:induction false} CountImplies<S, T>(a: seq<S>, b: seq<T>, p: S -> bool, q: T -> bool)
    requires |a| == |b| && forall i | 0 <= i < |a| :: p(a[i]) ==> q(b[i])
    ensures Count(a, p) <= Count(b, q)
  {
    if a == [] {
    } else {
      CountImplies(a[1..], b[1..], p, q);
    }
  }

  /** Division rounded up: how many blocks of `b` cover `a` elements. */
  function CeilDiv(a: nat, b: nat): nat
    requires b > 0
    decreases a
  {
    if a == 0 then 0 else if a <= b then 1 else 1 + CeilDiv(a - b, b)
  }

  lemma AtLeastOnce(t: int, n: int)
    requires t >= 1 && n > 0
    ensures t * n >= n
  {
  }

  lemma DivModUnique(a: int, n: int, q: int, r: int)
    requires n > 0 && a == q * n + r && 0 <= r < n
    ensures a / n == q && a % n == r
  {
    var q', r' := a / n, a % n;
    assert (q' - q) * n == r - r';
    if q' - q >= 1 { AtLeastOnce(q' - q, n); }
    if q - q' >= 1 { AtLeastOnce(q - q', n); }
  }

  lemma DivModSub(i: nat, k: nat)
    requires 0 < k <= i
    ensures i / k == (i - k) / k + 1 && i % k == (i - k) % k
  {
    var q, r := (i - k) / k, (i - k) % k;
    assert i - k == q * k + r;
    assert (q + 1) * k == q * k + k;
    DivModUnique(i, k, q + 1, r);
  }

  lemma BlockStep(c: nat, k: nat)
    requires c > 0
    ensures (c - 1) * k + k == c * k
  {
  }

  /** The two ways the sources write it: `(a + k - 1) / k`, and the last of `a` places lying in the last block. */
  lemma {:induction false} CeilDivDivides(a: nat, k: nat)
    requires k > 0
    ensures CeilDiv(a, k) == (a + k - 1) / k
    ensures a > 0 ==> CeilDiv(a, k) == (a - 1) / k + 1
    decreases a
  {
    if a == 0 {
      DivModUnique(k - 1, k, 0, k - 1);
    } else if a <= k {
      DivModUnique(a + k - 1, k, 1, a - 1);
      DivModUnique(a - 1, k, 0, a - 1);
    } else {
      CeilDivDivides(a - k, k);
      DivModSub(a + k - 1, k);
      DivModSub(a - 1, k);
    }
  }

  lemma LastBlock(a: nat, k: nat)
    requires k > 0 && a > 0
    ensures CeilDiv(a, k) == (a - 1) / k + 1
  {
    CeilDivDivides(a, k);
  }

  /** `slice.chunks(k)`, and the grouping of the i-th element under `i // k`. */
  function Chunks<T>(s: seq<T>, k: nat): seq<seq<T>>
    requires k > 0
    decreases |s|
  {
    if s == [] then [] else if |s| <= k then [s] else [s[..k]] + Chunks(s[k..], k)
  }

  lemma {:induction false} ChunkCount<T>(s: seq<T>, k: nat)
    requires k > 0
    ensures |Chunks(s, k)| == CeilDiv(|s|, k)
    ensures forall c | 0 <= c < |Chunks(s, k)| :: 1 <= |Chunks(s, k)[c]| <= k
    decreases |s|
  {
    if |s| <= k {
    } else {
      ChunkCount(s[k..], k);
    }
  }

  function Plus(a: seq<real>, b: seq<real>): (r: seq<real>)
    requires |a| == |b|
    ensures |r| == |a|
    ensures forall k | 0 <= k < |r| :: r[k] == a[k] + b[k]
  {
    seq(|a|, k requires 0 <= k < |a| => a[k] + b[k])
  }

  /** The indices below `n`. */
  ghost function Range(n: nat): (r: set<nat>)
    ensures |r| == n
    ensures forall v: nat :: v in r <==> v < n
  {
    if n == 0 then {} else Range(n - 1) + {n - 1}
  }

  /** And the same as a list. */
  function Identity(n: nat): (r: seq<nat>)
    ensures |r| == n && forall i | 0 <= i < n :: r[i] == i
  {
    seq(n, i => i)
  }
}
