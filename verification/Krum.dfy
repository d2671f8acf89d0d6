/** Krum: scoring every gradient by its nearest neighbours, and why an outsider cannot win from far away. */
module Krum {
  import opened Sums
  import opened Sorting
  import opened Vrf
  import opened Euclid
  import opened OrderStatistics

  type Norm = Vec -> real

  // --- Scores ---

  function Distance(norm: Norm, flats: seq<Vec>, i: nat, j: nat): real
    requires i < |flats| && j < |flats| && Uniform(flats, |flats[0]|)
  {
    if i == j then 0.0
    else if i < j then norm(Sub(flats[i], flats[j]))
    else norm(Sub(flats[j], flats[i]))
  }

  lemma DistanceIsNorm(norm: Norm, flats: seq<Vec>, i: nat, j: nat)
    requires i < |flats| && j < |flats| && Uniform(flats, |flats[0]|) && IsL2(norm)
    ensures Distance(norm, flats, i, j) == norm(Sub(flats[i], flats[j])) >= 0.0
  {
    if i == j {
      ZeroNorm(norm, Sub(flats[i], flats[j]));
    } else {
      DistanceSymmetric(norm, flats[i], flats[j]);
    }
  }

  /** All indices below `n` but `i`. */
  function Others(n: nat, i: nat): (r: seq<nat>)
    requires i < n
    ensures |r| == n - 1
    ensures Distinct(r)
    ensures forall k | 0 <= k < n - 1 :: r[k] < n && r[k] != i
  {
    seq(n - 1, k => if k < i then k else k + 1)
  }

  function DistancesFrom(norm: Norm, flats: seq<Vec>, i: nat): (r: seq<real>)
    requires i < |flats| && Uniform(flats, |flats[0]|)
    ensures |r| == |flats| - 1
  {
    seq(|flats| - 1, k requires 0 <= k < |flats| - 1 => Distance(norm, flats, i, Others(|flats|, i)[k]))
  }

  /** The sum of the distances to the n - f - 2 nearest neighbours. */
  function Score(norm: Norm, flats: seq<Vec>, f: nat, i: nat): real
    requires i < |flats| && Uniform(flats, |flats[0]|) && |flats| >= 2 * f + 3
  {
    SortLength(DistancesFrom(norm, flats, i));
    Sum(Sort(RealLe, DistancesFrom(norm, flats, i))[..|flats| - f - 2])
  }

  predicate ScoreLe(a: (real, nat), b: (real, nat)) {
    a.0 < b.0 || (a.0 == b.0 && a.1 <= b.1)
  }

  lemma ScoreLeOrder()
    ensures TotalOrder(ScoreLe)
  {
  }

  function Second(p: (real, nat)): nat { p.1 }

  function Scores(norm: Norm, flats: seq<Vec>, f: nat): (r: seq<(real, nat)>)
    requires |flats| >= 2 * f + 3 && Uniform(flats, |flats[0]|)
    ensures |r| == |flats|
  {
    seq(|flats|, i requires 0 <= i < |flats| => (Score(norm, flats, f, i), i))
  }

  /** All indices, best score first. */
  function Ranking(norm: Norm, flats: seq<Vec>, f: nat): (r: seq<nat>)
    requires |flats| >= 2 * f + 3 && Uniform(flats, |flats[0]|)
    ensures |r| == |flats|
  {
    SortPermutes(ScoreLe, Scores(norm, flats, f));
    Map(Second, Sort(ScoreLe, Scores(norm, flats, f)))
  }

  function FirstOf<T>(s: seq<T>, m: nat): seq<T> {
    if m <= |s| then s[..m] else s
  }

  function Choice(norm: Norm, flats: seq<Vec>, f: nat, m: nat): seq<nat>
    requires |flats| >= 2 * f + 3 && Uniform(flats, |flats[0]|)
  {
    FirstOf(Ranking(norm, flats, f), m)
  }

  /** Ranking the indices loses none. */
  lemma RankingPermutes(norm: Norm, flats: seq<Vec>, f: nat)
    requires |flats| >= 2 * f + 3 && Uniform(flats, |flats[0]|)
    ensures IsPermutation(Ranking(norm, flats, f), |flats|)
  {
    var scores, indices, r := Scores(norm, flats, f), Identity(|flats|), Ranking(norm, flats, f);
    SortPermutes(ScoreLe, scores);
    MapPermutation(Second, Sort(ScoreLe, scores), scores);
    assert Map(Second, scores) == indices;
    DistinctMultiset(indices);
    MultisetDistinct(r);
    forall a | 0 <= a < |r| ensures r[a] < |flats| {
      assert r[a] in multiset(r);
      assert r[a] in indices;
    }
  }

  /** Earlier indices score no worse, and among equal scores the smaller index comes first. */
  lemma RankingSorts(norm: Norm, flats: seq<Vec>, f: nat, a: nat, b: nat)
    requires |flats| >= 2 * f + 3 && Uniform(flats, |flats[0]|) && a <= b < |flats|
    ensures var r := Ranking(norm, flats, f);
      && r[a] < |flats| && r[b] < |flats| && Score(norm, flats, f, r[a]) <= Score(norm, flats, f, r[b])
      && (Score(norm, flats, f, r[a]) == Score(norm, flats, f, r[b]) ==> r[a] <= r[b])
  {
    var scores := Scores(norm, flats, f);
    var sorted := Sort(ScoreLe, scores);
    SortPermutes(ScoreLe, scores);
    ScoreLeOrder();
    SortSorts(ScoreLe, scores);
    assert sorted[a] in multiset(sorted) && sorted[b] in multiset(sorted);
    assert sorted[a] in scores && sorted[b] in scores;
    assert a < b ==> ScoreLe(sorted[a], sorted[b]);
  }

  lemma RankingFacts(norm: Norm, flats: seq<Vec>, f: nat)
    requires |flats| >= 2 * f + 3 && Uniform(flats, |flats[0]|)
    ensures var r := Ranking(norm, flats, f);
      && IsPermutation(r, |flats|)
      && forall a, b | 0 <= a <= b < |r| :: Score(norm, flats, f, r[a]) <= Score(norm, flats, f, r[b])
  {
    RankingPermutes(norm, flats, f);
    forall a, b | 0 <= a <= b < |flats|
      ensures Score(norm, flats, f, Ranking(norm, flats, f)[a]) <= Score(norm, flats, f, Ranking(norm, flats, f)[b])
    {
      RankingSorts(norm, flats, f, a, b);
    }
  }

  // --- Counting adversaries ---

  function InSet(s: set<nat>): nat -> bool {
    i => i in s
  }

  lemma {:induction false} CountSame<T>(s: seq<T>, p: T -> bool, q: T -> bool)
    requires forall i | 0 <= i < |s| :: p(s[i]) == q(s[i])
    ensures Count(s, p) == Count(s, q)
  {
    if s == [] {
    } else {
      CountSame(s[1..], p, q);
    }
  }

  lemma {:induction false} CountDistinctIn(s: seq<nat>, bad: set<nat>)
    requires Distinct(s)
    ensures Count(s, InSet(bad)) <= |bad|
    decreases |s|
  {
    if s == [] {
    } else if s[0] in bad {
      CountDistinctIn(s[1..], bad - {s[0]});
      CountSame(s[1..], InSet(bad), InSet(bad - {s[0]}));
    } else {
      CountDistinctIn(s[1..], bad);
    }
  }

  // --- Bounds on scores ---

  lemma {:induction false} SumAtMost(s: seq<real>, bound: real)
    requires forall i | 0 <= i < |s| :: s[i] <= bound
    ensures Sum(s) <= Scaled(|s| as real, bound)
  {
    if s == [] {
    } else {
      SumAtMost(s[1..], bound);
      OneMore(|s[1..]| as real, bound);
    }
  }

  lemma {:induction false} SumAtLeast(s: seq<real>, bound: real)
    requires forall i | 0 <= i < |s| :: bound <= s[i]
    ensures Scaled(|s| as real, bound) <= Sum(s)
  {
    if s == [] {
    } else {
      SumAtLeast(s[1..], bound);
      OneMore(|s[1..]| as real, bound);
    }
  }

  /** The honest gradients lie within `d` of one another. */
  ghost predicate HonestDiameter(norm: Norm, flats: seq<Vec>, bad: set<nat>, d: real)
    requires |flats| > 0 ==> Uniform(flats, |flats[0]|)
  {
    forall i: nat, j: nat | i < |flats| && j < |flats| && i !in bad && j !in bad :: Distance(norm, flats, i, j) <= d
  }

  /** An honest gradient has all its counted neighbours within the honest diameter. */
  lemma HonestScore(norm: Norm, flats: seq<Vec>, f: nat, bad: set<nat>, d: real, i: nat)
    requires |flats| >= 2 * f + 3 && Uniform(flats, |flats[0]|) && |bad| <= f
    requires HonestDiameter(norm, flats, bad, d) && i < |flats| && i !in bad
    ensures Score(norm, flats, f, i) <= Scaled((|flats| - f - 2) as real, d)
  {
    var n := |flats|;
    var col, others := DistancesFrom(norm, flats, i), Others(n, i);
    CountImplies(col, others, Greater(d), InSet(bad));
    CountDistinctIn(others, bad);
    SortLength(col);
    var near := Sort(RealLe, col)[..n - f - 2];
    forall j | 0 <= j < |near| ensures near[j] <= d { UpperStatistic(col, d, f, j); }
    SumAtMost(near, d);
  }

  lemma {:induction false} Nearest(g: nat -> real, bad: set<nat>, n: nat) returns (h: nat)
    requires exists x: nat :: x < n && x !in bad
    ensures h < n && h !in bad
    ensures forall x: nat | x < n && x !in bad :: g(h) <= g(x)
    decreases n
  {
    if exists x: nat :: x < n - 1 && x !in bad {
      h := Nearest(g, bad, n - 1);
      if n - 1 !in bad && g(n - 1) < g(h) {
        h := n - 1;
      }
    } else {
      h := n - 1;
    }
  }

  function DistanceFrom(norm: Norm, flats: seq<Vec>, i: nat): nat -> real
    requires i < |flats| && Uniform(flats, |flats[0]|)
  {
    (j: nat) => if j < |flats| then Distance(norm, flats, i, j) else 0.0
  }

  lemma PrefixSum(s: seq<real>, l: nat, c: nat, bound: real)
    requires c <= l <= |s|
    requires forall j | 0 <= j < c :: 0.0 <= s[j]
    requires forall j | c <= j < l :: bound <= s[j]
    ensures Scaled((l - c) as real, bound) <= Sum(s[..l])
  {
    SumNonNegative(s[..c]);
    SumAtLeast(s[c..l], bound);
    SumConcat(s[..c], s[c..l]);
    assert s[..l] == s[..c] + s[c..l];
  }

  lemma AllNonNegative(norm: Norm, flats: seq<Vec>, i: nat)
    requires i < |flats| && Uniform(flats, |flats[0]|) && IsL2(norm)
    ensures |Sort(RealLe, DistancesFrom(norm, flats, i))| == |flats| - 1
    ensures forall j | 0 <= j < |flats| - 1 :: 0.0 <= Sort(RealLe, DistancesFrom(norm, flats, i))[j]
  {
    var col := DistancesFrom(norm, flats, i);
    SortLength(col);
    SortMembers(RealLe, col);
    forall j | 0 <= j < |col| ensures 0.0 <= Sort(RealLe, col)[j] {
      assert Sort(RealLe, col)[j] in Sort(RealLe, col);
      var k :| 0 <= k < |col| && col[k] == Sort(RealLe, col)[j];
      DistanceIsNorm(norm, flats, i, Others(|flats|, i)[k]);
    }
  }

  lemma SetSplit<T>(a: set<T>, b: set<T>)
    ensures |a| == |a - b| + |a * b|
  {
    assert a == (a - b) + (a * b);
  }

  lemma SubsetCard<T>(a: set<T>, b: set<T>)
    requires a <= b
    ensures |a| <= |b|
  {
    assert b == a + (b - a);
  }

  lemma HonestMany(n: nat, bad: set<nat>)
    ensures |Range(n) - bad| >= n - |bad|
  {
    SetSplit(Range(n), bad);
    SubsetCard(Range(n) * bad, bad);
  }

  lemma HonestExists(n: nat, bad: set<nat>)
    requires |bad| < n
    ensures exists x: nat :: x < n && x !in bad
  {
    HonestMany(n, bad);
    var x :| x in Range(n) - bad;
  }

  /** Nearer to an adversary than its nearest honest gradient are only the other adversaries. */
  lemma FewNearer(norm: Norm, flats: seq<Vec>, bad: set<nat>, i: nat, h: nat)
    requires |flats| > 0 && Uniform(flats, |flats[0]|) && i < |flats| && i in bad && h < |flats| && h !in bad
    requires forall j: nat | j < |flats| && j !in bad :: DistanceFrom(norm, flats, i)(h) <= DistanceFrom(norm, flats, i)(j)
    ensures Count(DistancesFrom(norm, flats, i), Less(DistanceFrom(norm, flats, i)(h))) <= |bad| - 1
  {
    var others := Others(|flats|, i);
    CountImplies(DistancesFrom(norm, flats, i), others, Less(DistanceFrom(norm, flats, i)(h)), InSet(bad - {i}));
    CountDistinctIn(others, bad - {i});
    assert |bad - {i}| == |bad| - 1;
  }

  /** An adversary's counted neighbours include n - 2f - 1 honest gradients, so its score is at least
      that many times its distance to the nearest honest one. */
  lemma AdversaryScore(norm: Norm, flats: seq<Vec>, f: nat, bad: set<nat>, i: nat) returns (h: nat)
    requires |flats| >= 2 * f + 3 && Uniform(flats, |flats[0]|) && |bad| <= f && IsL2(norm)
    requires i < |flats| && i in bad
    ensures h < |flats| && h !in bad
    ensures Scaled((|flats| - 2 * f - 1) as real, Distance(norm, flats, i, h)) <= Score(norm, flats, f, i)
  {
    var n := |flats|;
    var col := DistancesFrom(norm, flats, i);
    HonestExists(n, bad);
    h := Nearest(DistanceFrom(norm, flats, i), bad, n);
    var delta := DistanceFrom(norm, flats, i)(h);
    FewNearer(norm, flats, bad, i, h);
    SortLength(col);
    var s := Sort(RealLe, col);
    AllNonNegative(norm, flats, i);
    var l := n - f - 2;
    forall j | f - 1 <= j < l ensures delta <= s[j] { LowerStatistic(col, delta, f - 1, j); }
    PrefixSum(s, l, f - 1, delta);
  }

  /** With an adversary among the first m places, some good index is left for the later ones. */
  lemma LeftOut(r: seq<nat>, n: nat, m: nat, bad: set<nat>, i: nat) returns (a: nat, b: nat)
    requires IsPermutation(r, n) && m + |bad| <= n && i in bad && i in r[..m]
    ensures a < m <= b < n && r[a] == i && r[b] !in bad
  {
    var chosenSet := Elements(r[..m]);
    DistinctSetSize(r[..m]);
    HonestMany(n, bad);
    if Range(n) - bad <= chosenSet - {i} {
      SubsetCard(Range(n) - bad, chosenSet - {i});
      assert false;
    }
    var h :| h in Range(n) - bad && h !in chosenSet - {i};
    PermutationOnto(r, n);
    a :| 0 <= a < m && r[..m][a] == i;
    b := IndexOf(r, h);
    assert forall x | 0 <= x < m :: r[x] in r[..m];
  }

  /** If an adversary is among m <= n - f chosen ones, some honest gradient was passed over for it. */
  lemma PassedOver(norm: Norm, flats: seq<Vec>, f: nat, m: nat, bad: set<nat>, i: nat) returns (h: nat)
    requires |flats| >= 2 * f + 3 && Uniform(flats, |flats[0]|) && |bad| <= f
    requires m <= |flats| - f && i in bad && i in Choice(norm, flats, f, m)
    ensures i < |flats| && h < |flats| && h !in bad
    ensures Score(norm, flats, f, i) <= Score(norm, flats, f, h)
  {
    RankingFacts(norm, flats, f);
    var r := Ranking(norm, flats, f);
    var a, b := LeftOut(r, |flats|, m, bad, i);
    h := r[b];
  }

  /** How far from every honest gradient a chosen one can be. */
  function Radius(n: nat, f: nat, d: real): real
    requires n >= 2 * f + 3
  {
    Scaled((n - f - 2) as real, d) / (n - 2 * f - 1) as real
  }

  lemma DivideThrough(a: real, x: real, y: real)
    requires a > 0.0 && Scaled(a, x) <= y
    ensures x <= y / a
  {
    assert (a * x) / a == x;
    assert y / a - x == (y - a * x) / a;
  }

  /** Every gradient Krum selects is honest, or within the radius of some honest gradient. */
  lemma KrumBound(norm: Norm, flats: seq<Vec>, f: nat, m: nat, bad: set<nat>, d: real, i: nat)
    requires |flats| >= 2 * f + 3 && Uniform(flats, |flats[0]|) && IsL2(norm)
    requires |bad| <= f && m <= |flats| - f && HonestDiameter(norm, flats, bad, d)
    requires i in Choice(norm, flats, f, m)
    ensures i < |flats|
    ensures i !in bad || exists h: nat ::
        h < |flats| && h !in bad && Distance(norm, flats, i, h) <= Radius(|flats|, f, d)
  {
    RankingFacts(norm, flats, f);
    if i in bad {
      var over := PassedOver(norm, flats, f, m, bad, i);
      HonestScore(norm, flats, f, bad, d, over);
      var h := AdversaryScore(norm, flats, f, bad, i);
      DivideThrough((|flats| - 2 * f - 1) as real, Distance(norm, flats, i, h), Scaled((|flats| - f - 2) as real, d));
    }
  }

  lemma RadiusNonNegative(n: nat, f: nat, d: real)
    requires n >= 2 * f + 3 && d >= 0.0
    ensures Radius(n, f, d) >= 0.0
    ensures d == 0.0 ==> Radius(n, f, d) == 0.0
  {
    NonNegative((n - f - 2) as real, d);
    assert Scaled((n - f - 2) as real, 0.0) == 0.0;
  }

  /** So everything selected lies within diameter plus radius of every honest gradient. */
  lemma SelectedClose(norm: Norm, flats: seq<Vec>, f: nat, m: nat, bad: set<nat>, d: real, i: nat, h: nat)
    requires |flats| >= 2 * f + 3 && Uniform(flats, |flats[0]|) && IsL2(norm)
    requires |bad| <= f && m <= |flats| - f && HonestDiameter(norm, flats, bad, d)
    requires i in Choice(norm, flats, f, m) && h < |flats| && h !in bad
    ensures i < |flats| && norm(Sub(flats[i], flats[h])) <= d + Radius(|flats|, f, d)
  {
    KrumBound(norm, flats, f, m, bad, d, i);
    DistanceIsNorm(norm, flats, h, h);
    RadiusNonNegative(|flats|, f, d);
    DistanceIsNorm(norm, flats, i, h);
    if i in bad {
      var g: nat :| g < |flats| && g !in bad && Distance(norm, flats, i, g) <= Radius(|flats|, f, d);
      DistanceIsNorm(norm, flats, i, g);
      DistanceIsNorm(norm, flats, g, h);
      DistanceTriangle(norm, flats[i], flats[g], flats[h]);
    }
  }

  // --- The loops ---

  /** `_pairwise_distances`: the upper triangle computed, the lower one copied. */
  method PairwiseDistances(norm: Norm, flats: seq<Vec>) returns (distances: array2<real>)
    requires |flats| > 0 && Uniform(flats, |flats[0]|)
    ensures fresh(distances) && distances.Length0 == |flats| && distances.Length1 == |flats|
    ensures forall i, j | 0 <= i < |flats| && 0 <= j < |flats| :: distances[i, j] == Distance(norm, flats, i, j)
  {
    var n := |flats|;
    distances := new real[n, n]((i, j) => 0.0);
    for i := 0 to n
      invariant forall a, b | 0 <= a < n && 0 <= b < n ::
          distances[a, b] == if a < i || b < i then Distance(norm, flats, a, b) else 0.0
    {
      for j := i + 1 to n
        invariant forall a, b | 0 <= a < n && 0 <= b < n ::
            distances[a, b] == if a < i || b < i || (a == i && b < j) || (b == i && a < j)
                               then Distance(norm, flats, a, b) else 0.0
      {
        var d := norm(Sub(flats[i], flats[j]));
        distances[i, j] := d;
        distances[j, i] := d;
      }
    }
  }

  /** `_krum_select` on flat gradients, past its fall-back: scores in a loop, then a sort. */
  method Select(norm: Norm, flats: seq<Vec>, f: nat, m: nat) returns (chosen: seq<nat>)
    requires |flats| >= 2 * f + 3 && Uniform(flats, |flats[0]|)
    ensures chosen == Choice(norm, flats, f, m)
  {
    var n := |flats|;
    var distances := PairwiseDistances(norm, flats);
    var neighbours := n - f - 2;
    var scores: seq<(real, nat)> := [];
    for i := 0 to n
      invariant forall a, b | 0 <= a < n && 0 <= b < n :: distances[a, b] == Distance(norm, flats, a, b)
      invariant |scores| == i
      invariant forall a | 0 <= a < i :: scores[a] == (Score(norm, flats, f, a), a)
    {
      var others := Others(n, i);
      var row := seq(n - 1, k requires 0 <= k < n - 1 reads distances => distances[i, others[k]]);
      assert row == DistancesFrom(norm, flats, i);
      var dists := Sort(RealLe, row);
      SortLength(row);
      scores := scores + [(Sum(dists[..neighbours]), i)];
    }
    assert scores == Scores(norm, flats, f);
    chosen := FirstOf(Map(Second, Sort(ScoreLe, scores)), m);
  }
}
