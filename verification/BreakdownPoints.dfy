/** How many adversaries Bulyan and the coordinate-wise rules withstand: the exact number, with the gradients on which one
    more gets through. */
module BreakdownPoints {
  import opened Sums
  import opened Sorting
  import opened Vrf
  import opened Gradients
  import opened Euclid
  import opened OrderStatistics
  import opened Krum
  import opened Byzantine

  // --- Adversaries together, everybody else apart ---

  function Peak(n: nat, c: nat, v: real): (r: Vec)
    ensures |r| == n
  {
    seq(n, x => if x == c then v else 0.0)
  }

  /** The first `b` of `n` peers send the same peak at coordinate 0, each other peer one at a coordinate of its own. */
  function CrowdVec(n: nat, b: nat, v: real, i: nat): (r: Vec)
    ensures |r| == n
  {
    if i < b then Peak(n, 0, v) else Peak(n, i, 1.0)
  }

  function Vecs(n: nat, b: nat, v: real): (r: seq<Vec>)
    ensures |r| == n && Uniform(r, n)
    ensures forall i | 0 <= i < n :: r[i] == CrowdVec(n, b, v, i)
  {
    seq(n, i requires 0 <= i < n => CrowdVec(n, b, v, i))
  }

  // --- All distances are zero or the same ---

  lemma {:induction false} DotOne(a: Vec, c: nat)
    requires c < |a| && forall k | 0 <= k < |a| && k != c :: a[k] == 0.0
    ensures Dot(a, a) == Scaled(a[c], a[c])
  {
    if c == 0 {
      DotZero(a[1..]);
    } else {
      DotOne(a[1..], c - 1);
    }
  }

  lemma {:induction false} DotTwo(a: Vec, c: nat, d: nat)
    requires c < d < |a| && forall k | 0 <= k < |a| && k != c && k != d :: a[k] == 0.0
    ensures Dot(a, a) == Scaled(a[c], a[c]) + Scaled(a[d], a[d])
  {
    if c == 0 {
      DotOne(a[1..], d - 1);
    } else {
      DotTwo(a[1..], c - 1, d - 1);
    }
  }

  lemma PeaksApart(n: nat, c: nat, d: nat, u: real, v: real)
    requires c < n && d < n && c != d && u in {1.0, -1.0} && v in {1.0, -1.0}
    ensures Dot(Sub(Peak(n, c, u), Peak(n, d, v)), Sub(Peak(n, c, u), Peak(n, d, v))) == 2.0
  {
    var s := Sub(Peak(n, c, u), Peak(n, d, v));
    if c < d { DotTwo(s, c, d); } else { DotTwo(s, d, c); }
    assert s[c] in {1.0, -1.0} && s[d] in {1.0, -1.0};
  }

  predicate Same(b: nat, i: nat, j: nat) {
    i == j || (i < b && j < b)
  }

  lemma CrowdDistance(norm: Norm, n: nat, b: nat, v: real, i: nat, j: nat)
    requires IsL2(norm) && 0 < b < n && v in {1.0, -1.0} && i < n && j < n
    ensures var d := Distance(norm, Vecs(n, b, v), i, j);
      d >= 0.0 && if Same(b, i, j) then d == 0.0 else Scaled(d, d) == 2.0
  {
    var vecs := Vecs(n, b, v);
    DistanceIsNorm(norm, vecs, i, j);
    if Same(b, i, j) {
      ZeroNorm(norm, Sub(vecs[i], vecs[j]));
    } else {
      PeaksApart(n, if i < b then 0 else i, if j < b then 0 else j, if i < b then v else 1.0, if j < b then v else 1.0);
    }
  }

  /** The distance between any two peers that are apart. */
  function Apart(norm: Norm, n: nat, b: nat, v: real): real
    requires 0 < b < n
  {
    Distance(norm, Vecs(n, b, v), 0, b)
  }

  lemma DistanceIsApart(norm: Norm, n: nat, b: nat, v: real, i: nat, j: nat)
    requires IsL2(norm) && 0 < b < n && v in {1.0, -1.0} && i < n && j < n
    ensures Distance(norm, Vecs(n, b, v), i, j) == if Same(b, i, j) then 0.0 else Apart(norm, n, b, v)
    ensures Apart(norm, n, b, v) >= 0.0
  {
    CrowdDistance(norm, n, b, v, i, j);
    CrowdDistance(norm, n, b, v, 0, b);
    if !Same(b, i, j) { RootUnique(Distance(norm, Vecs(n, b, v), i, j), Apart(norm, n, b, v)); }
  }

  // --- The adversaries score best ---

  lemma DistancesAtMost(norm: Norm, n: nat, b: nat, v: real, i: nat)
    requires IsL2(norm) && 0 < b < n && v in {1.0, -1.0} && i < n
    ensures forall d | d in DistancesFrom(norm, Vecs(n, b, v), i) :: d <= Apart(norm, n, b, v)
    ensures i >= b ==> forall d | d in DistancesFrom(norm, Vecs(n, b, v), i) :: d == Apart(norm, n, b, v)
  {
    var col := DistancesFrom(norm, Vecs(n, b, v), i);
    forall k | 0 <= k < |col|
      ensures col[k] <= Apart(norm, n, b, v) && (i >= b ==> col[k] == Apart(norm, n, b, v))
    {
      DistanceIsApart(norm, n, b, v, i, Others(n, i)[k]);
    }
  }

  lemma NearestAtMost(col: seq<real>, l: nat, bound: real)
    requires l <= |col| && forall d | d in col :: d <= bound
    ensures |Sort(RealLe, col)| == |col| && Sum(Sort(RealLe, col)[..l]) <= Scaled(l as real, bound)
  {
    SortLength(col);
    SortMembers(RealLe, col);
    var near := Sort(RealLe, col)[..l];
    forall j | 0 <= j < |near| ensures near[j] <= bound { assert near[j] in Sort(RealLe, col); }
    SumAtMost(near, bound);
  }

  lemma NearestAtLeast(col: seq<real>, l: nat, bound: real)
    requires l <= |col| && forall d | d in col :: d >= bound
    ensures |Sort(RealLe, col)| == |col| && Sum(Sort(RealLe, col)[..l]) >= Scaled(l as real, bound)
  {
    SortLength(col);
    SortMembers(RealLe, col);
    var near := Sort(RealLe, col)[..l];
    forall j | 0 <= j < |near| ensures near[j] >= bound { assert near[j] in Sort(RealLe, col); }
    SumAtLeast(near, bound);
  }

  lemma ScoreAtMost(norm: Norm, n: nat, b: nat, v: real, f: nat, i: nat)
    requires IsL2(norm) && 0 < b < n && v in {1.0, -1.0} && i < n && n >= 2 * f + 3
    ensures Score(norm, Vecs(n, b, v), f, i) <= Scaled((n - f - 2) as real, Apart(norm, n, b, v))
    ensures i >= b ==> Score(norm, Vecs(n, b, v), f, i) == Scaled((n - f - 2) as real, Apart(norm, n, b, v))
  {
    var col := DistancesFrom(norm, Vecs(n, b, v), i);
    DistancesAtMost(norm, n, b, v, i);
    NearestAtMost(col, n - f - 2, Apart(norm, n, b, v));
    if i >= b { NearestAtLeast(col, n - f - 2, Apart(norm, n, b, v)); }
  }

  /** An honest peer is ranked behind every adversary. */
  lemma HonestBehind(norm: Norm, n: nat, b: nat, v: real, f: nat, p: nat, q: nat)
    requires IsL2(norm) && 0 < b < n && v in {1.0, -1.0} && n >= 2 * f + 3 && p <= q < n
    ensures var r := Ranking(norm, Vecs(n, b, v), f); r[p] >= b ==> r[q] >= b
  {
    var r := Ranking(norm, Vecs(n, b, v), f);
    RankingSorts(norm, Vecs(n, b, v), f, p, q);
    ScoreAtMost(norm, n, b, v, f, r[p]);
    ScoreAtMost(norm, n, b, v, f, r[q]);
  }

  lemma AdversariesFirst(norm: Norm, n: nat, b: nat, v: real, f: nat, p: nat)
    requires IsL2(norm) && 0 < b < n && v in {1.0, -1.0} && n >= 2 * f + 3 && p < b
    ensures Ranking(norm, Vecs(n, b, v), f)[p] < b
  {
    var r := Ranking(norm, Vecs(n, b, v), f);
    if r[p] >= b {
      RankingFacts(norm, Vecs(n, b, v), f);
      PermutationOnto(r, n);
      forall i | i in Range(b) ensures i in Elements(r[..p]) {
        var q := IndexOf(r, i);
        if p <= q { HonestBehind(norm, n, b, v, f, p, q); }
        assert r[..p][q] == i;
      }
      DistinctSetSize(r[..p]);
      SubsetCard(Range(b), Elements(r[..p]));
    }
  }

  // --- As gradients ---

  function Crowd(n: nat, b: nat, v: real): (r: seq<Gradient>)
    ensures |r| == n
    ensures forall i | 0 <= i < n :: r[i] == map["w" := Tensor([n], CrowdVec(n, b, v, i))]
  {
    seq(n, i requires 0 <= i < n => map["w" := Tensor([n], CrowdVec(n, b, v, i))])
  }

  lemma SingleShape(n: nat)
    ensures Numel([n]) == n
  {
    assert [n][1..] == [];
  }

  lemma CrowdFits(n: nat, b: nat, v: real)
    requires n > 0
    ensures AllFit(Crowd(n, b, v)[0], Crowd(n, b, v)) && Stackable(Crowd(n, b, v))
  {
    SingleShape(n);
    assert "w" in Crowd(n, b, v)[0];
    FittingStack(Crowd(n, b, v));
  }

  lemma FlatSingle(g: Gradient, t: Tensor)
    requires g == map["w" := t]
    ensures Flatten(g, ["w"]) == t.data
  {
    var parts := Parts(g, ["w"]);
    assert |parts| == 1 && parts[0] == t.data && parts[1..] == [];
    assert Concat(parts) == t.data + Concat<real>([]);
    assert t.data + [] == t.data;
  }

  lemma CrowdFlats(n: nat, b: nat, v: real)
    requires n > 0 && Stackable(Crowd(n, b, v))
    ensures FlatAll(Crowd(n, b, v)) == Vecs(n, b, v)
  {
    var all := Crowd(n, b, v);
    assert all[0].Keys == {"w"};
    SingleName("w");
    assert Names(all) == ["w"];
    forall i | 0 <= i < n ensures FlatAll(all)[i] == Vecs(n, b, v)[i] {
      FlatSingle(all[i], Tensor([n], CrowdVec(n, b, v, i)));
    }
  }

  /** How many gradients are left to be trimmed. */
  function SurvivorCount(n: nat, f: nat): nat {
    if n <= 2 * f + 2 then n else n - 2 * f
  }

  /** The first `b` peers come first. */
  predicate Lead(members: seq<nat>, b: nat) {
    forall p | 0 <= p < |members| && p < b :: members[p] < b
  }

  /** Among the survivors the adversaries come first. */
  lemma CrowdSelected(norm: Norm, n: nat, b: nat, v: real, f: nat) returns (members: seq<nat>)
    requires IsL2(norm) && 0 < b < n && v in {1.0, -1.0}
    ensures Stackable(Crowd(n, b, v)) && |members| == SurvivorCount(n, f) && Below(members, n)
    ensures Lead(members, b)
    ensures Selected(norm, Crowd(n, b, v), f, AtLeastOne(n - 2 * f)) == Pick(Crowd(n, b, v), members)
  {
    CrowdFits(n, b, v);
    CrowdFlats(n, b, v);
    if n <= 2 * f + 2 {
      members := Identity(n);
    } else {
      members := Choice(norm, Vecs(n, b, v), f, n - 2 * f);
      ChoiceBelow(norm, Vecs(n, b, v), f, n - 2 * f);
      forall p | 0 <= p < |members| && p < b ensures members[p] < b { AdversariesFirst(norm, n, b, v, f, p); }
    }
  }

  // --- How many Bulyan withstands ---

  /** Whatever `a` adversaries among `n` peers send, every coordinate of the result lies within the honest ones. */
  ghost predicate Withstands(norm: Norm, n: nat, f: nat, ratio: real, a: nat)
    requires n > 0
  {
    forall all: seq<Gradient>, bad: set<nat>, name: string, x: nat, lo: real, hi: real
      | |all| == n && AllFit(all[0], all) && |bad| <= a && HonestAt(all, bad, name, x, lo, hi)
      :: Within(Bulyan(norm, all, f, ratio), name, x, lo, hi)
  }

  lemma TrimsEnoughWithstands(norm: Norm, all: seq<Gradient>, f: nat, ratio: real, bad: set<nat>, name: string, x: nat, lo: real, hi: real)
    requires |all| > 0 && AllFit(all[0], all) && HonestAt(all, bad, name, x, lo, hi)
    requires TrimsEnough(SurvivorCount(|all|, f), ratio, |bad|)
    ensures Within(Bulyan(norm, all, f, ratio), name, x, lo, hi)
  {
    FittingStack(all);
    assert Fits(all[0], all[0]);
    if |all| <= 2 * f + 2 {
      TrimmedGradientValid(all, ratio, bad, name, x, lo, hi);
    } else {
      BulyanWithin(norm, all, f, ratio, bad, name, x, lo, hi);
    }
  }

  /** At coordinate 0 the first `b` gradients say `v`, the others zero. */
  ghost predicate SaysAtZero(all: seq<Gradient>, b: nat, v: real) {
    && |all| > 0 && AllFit(all[0], all) && "w" in all[0] && Numel(all[0]["w"].shape) > 0
    && forall i | 0 <= i < |all| :: "w" in all[i] && all[i]["w"].data != [] && all[i]["w"].data[0] == if i < b then v else 0.0
  }

  lemma CrowdSays(n: nat, b: nat, v: real)
    requires 0 < b < n
    ensures SaysAtZero(Crowd(n, b, v), b, v)
  {
    CrowdFits(n, b, v);
    SingleShape(n);
  }

  lemma SaysHonest(all: seq<Gradient>, b: nat, v: real)
    requires SaysAtZero(all, b, v)
    ensures HonestAt(all, Range(b), "w", 0, 0.0, 0.0)
  {
    forall i: nat | i < |all| && i !in Range(b) ensures Column(all, "w", 0)[i] == 0.0 { assert i >= b; }
  }

  /** What the rule makes of coordinate 0 of the survivors. */
  ghost predicate IsResult(g: Gradient, col: seq<real>, b: nat, v: real, trim: nat) {
    && (forall p | 0 <= p < b :: p < |col| && col[p] == v)
    && (forall p | 0 <= p < |col| :: col[p] == v || col[p] == 0.0)
    && "w" in g && g["w"].data != []
    && g["w"].data[0] == if |col| > 2 * trim then TrimmedMean(trim)(col) else LowerMedian()(col)
  }

  /** At coordinate 0 the first `b` gradients say `v`, the others that or zero. */
  ghost predicate MaySayAtZero(picked: seq<Gradient>, b: nat, v: real) {
    && Stackable(picked) && "w" in picked[0] && Numel(picked[0]["w"].shape) > 0
    && (forall p | 0 <= p < |picked| :: "w" in picked[p] && picked[p]["w"].data != [])
    && (forall p | 0 <= p < |picked| :: picked[p]["w"].data[0] == v || (picked[p]["w"].data[0] == 0.0 && p >= b))
  }

  lemma PickedSay(all: seq<Gradient>, b: nat, v: real, members: seq<nat>)
    requires SaysAtZero(all, b, v) && Below(members, |all|) && members != [] && Lead(members, b)
    ensures MaySayAtZero(Pick(all, members), b, v)
  {
    PickFits(all[0], all, members);
    assert Fits(all[0], all[members[0]]);
  }

  lemma ColumnResult(picked: seq<Gradient>, b: nat, v: real, ratio: real) returns (col: seq<real>)
    requires MaySayAtZero(picked, b, v) && b <= |picked|
    ensures |col| == |picked| && IsResult(TrimmedGradient(picked, ratio), col, b, v, TrimCount(|col|, ratio))
  {
    TrimmedAt(picked, ratio, "w", 0);
    col := Column(picked, "w", 0);
  }

  lemma BulyanResult(norm: Norm, all: seq<Gradient>, b: nat, v: real, f: nat, ratio: real, members: seq<nat>) returns (col: seq<real>)
    requires SaysAtZero(all, b, v) && Below(members, |all|) && 0 < b <= |members| && Lead(members, b) && Stackable(all)
    requires Selected(norm, all, f, AtLeastOne(|all| - 2 * f)) == Pick(all, members)
    ensures |col| == |members| && IsResult(Bulyan(norm, all, f, ratio), col, b, v, TrimCount(|col|, ratio))
  {
    PickedSay(all, b, v, members);
    col := ColumnResult(Pick(all, members), b, v, ratio);
  }

  lemma CrowdResult(norm: Norm, n: nat, b: nat, v: real, f: nat, ratio: real) returns (col: seq<real>)
    requires IsL2(norm) && 0 < b < n && v in {1.0, -1.0} && b <= SurvivorCount(n, f)
    ensures |col| == SurvivorCount(n, f) && SaysAtZero(Crowd(n, b, v), b, v)
    ensures IsResult(Bulyan(norm, Crowd(n, b, v), f, ratio), col, b, v, TrimCount(|col|, ratio))
  {
    var members := CrowdSelected(norm, n, b, v, f);
    CrowdSays(n, b, v);
    col := BulyanResult(norm, Crowd(n, b, v), b, v, f, ratio, members);
  }

  /** One adversary more than is trimmed moves the mean. */
  lemma TrimBroken(norm: Norm, n: nat, f: nat, ratio: real)
    requires IsL2(norm) && n > 1 && SurvivorCount(n, f) > 2 * TrimCount(SurvivorCount(n, f), ratio)
    ensures !Withstands(norm, n, f, ratio, TrimCount(SurvivorCount(n, f), ratio) + 1)
  {
    var trim := TrimCount(SurvivorCount(n, f), ratio);
    var b := trim + 1;
    var col := CrowdResult(norm, n, b, 1.0, f, ratio);
    CountPrefix(col, Greater(0.0), b);
    TrimmedMeanPulled(col, trim);
    SaysHonest(Crowd(n, b, 1.0), b, 1.0);
    assert !Within(Bulyan(norm, Crowd(n, b, 1.0), f, ratio), "w", 0, 0.0, 0.0);
  }

  /** Where the median takes over, half of the survivors move it. */
  lemma MedianBroken(norm: Norm, n: nat, f: nat, ratio: real)
    requires IsL2(norm) && n > 1 && SurvivorCount(n, f) <= 2 * TrimCount(SurvivorCount(n, f), ratio)
    ensures !Withstands(norm, n, f, ratio, (SurvivorCount(n, f) + 1) / 2)
  {
    var b := (SurvivorCount(n, f) + 1) / 2;
    var col := CrowdResult(norm, n, b, -1.0, f, ratio);
    CountPrefix(col, Less(0.0), b);
    LowerMedianPulled(col);
    SaysHonest(Crowd(n, b, -1.0), b, -1.0);
    assert !Within(Bulyan(norm, Crowd(n, b, -1.0), f, ratio), "w", 0, 0.0, 0.0);
  }

  lemma FewerWithstood(norm: Norm, n: nat, f: nat, ratio: real, few: nat, many: nat)
    requires n > 0 && few <= many
    ensures Withstands(norm, n, f, ratio, many) ==> Withstands(norm, n, f, ratio, few)
  {
  }

  lemma NotEnoughBroken(norm: Norm, n: nat, f: nat, ratio: real, a: nat)
    requires IsL2(norm) && n > 1 && !TrimsEnough(SurvivorCount(n, f), ratio, a)
    ensures !Withstands(norm, n, f, ratio, a)
  {
    var m := SurvivorCount(n, f);
    if m > 2 * TrimCount(m, ratio) {
      TrimBroken(norm, n, f, ratio);
      FewerWithstood(norm, n, f, ratio, TrimCount(m, ratio) + 1, a);
    } else {
      MedianBroken(norm, n, f, ratio);
      FewerWithstood(norm, n, f, ratio, (m + 1) / 2, a);
    }
  }

  lemma EnoughWithstands(norm: Norm, n: nat, f: nat, ratio: real, a: nat)
    requires n > 1 && TrimsEnough(SurvivorCount(n, f), ratio, a)
    ensures Withstands(norm, n, f, ratio, a)
  {
    forall all: seq<Gradient>, bad: set<nat>, name: string, x: nat, lo: real, hi: real
      | |all| == n && AllFit(all[0], all) && |bad| <= a && HonestAt(all, bad, name, x, lo, hi)
      ensures Within(Bulyan(norm, all, f, ratio), name, x, lo, hi)
    {
      TrimsEnoughWithstands(norm, all, f, ratio, bad, name, x, lo, hi);
    }
  }

  /** Bulyan withstands exactly as many adversaries as are trimmed from each end of what Krum leaves, or a minority of it where
      trimming gives way to the median; how many Krum assumed counts only through what it leaves. */
  lemma BulyanRobustIff(norm: Norm, n: nat, f: nat, ratio: real, a: nat)
    requires IsL2(norm) && n > 1
    ensures Withstands(norm, n, f, ratio, a) <==> TrimsEnough(SurvivorCount(n, f), ratio, a)
  {
    if TrimsEnough(SurvivorCount(n, f), ratio, a) {
      EnoughWithstands(norm, n, f, ratio, a);
    } else {
      NotEnoughBroken(norm, n, f, ratio, a);
    }
  }

  /** The same for `robust_aggregate` as configured. */
  ghost predicate AggregateWithstands(norm: Norm, n: nat, config: Config, a: nat)
    requires n > 1
  {
    forall all: seq<Gradient>, bad: set<nat>, name: string, x: nat, lo: real, hi: real
      | |all| == n && AllFit(all[0], all) && |bad| <= a && HonestAt(all, bad, name, x, lo, hi)
      :: Within(Aggregate(norm, all, config), name, x, lo, hi)
  }

  lemma BulyanConfigRobustIff(norm: Norm, n: nat, config: Config, a: nat)
    requires IsL2(norm) && n > 1 && config.method_ == BULYAN
    ensures AggregateWithstands(norm, n, config, a)
       <==> TrimsEnough(SurvivorCount(n, EffectiveF(n, config)), TrimRatio(config.trimRatio, 0.25), a)
  {
    var f, ratio := EffectiveF(n, config), TrimRatio(config.trimRatio, 0.25);
    BulyanRobustIff(norm, n, f, ratio, a);
    forall all: seq<Gradient> | |all| == n && AllFit(all[0], all)
      ensures Aggregate(norm, all, config) == Bulyan(norm, all, f, ratio)
    {
      BulyanIsAggregate(norm, all, config);
    }
  }

  lemma DefaultTrims(n: nat, f: nat)
    requires n >= 2 * f + 3
    ensures TrimsEnough(SurvivorCount(n, f), TrimRatio(0.0, 0.25), f) <==> f <= 1 || n >= 6 * f
  {
    BulyanDefaultQuarter(n, f);
  }

  /** With enough peers and the default ratio, Bulyan withstands the f adversaries it is configured for exactly for f <= 1 or
      n >= 6f. */
  lemma BulyanDefaultRobustIff(norm: Norm, n: nat, config: Config)
    requires IsL2(norm) && config.method_ == BULYAN && config.trimRatio == 0.0 && n >= 2 * EffectiveF(n, config) + 3
    ensures AggregateWithstands(norm, n, config, EffectiveF(n, config)) <==> EffectiveF(n, config) <= 1 || n >= 6 * EffectiveF(n, config)
  {
    BulyanConfigRobustIff(norm, n, config, EffectiveF(n, config));
    DefaultTrims(n, EffectiveF(n, config));
  }

  /** Seven peers do not withstand two. */
  lemma SevenPeersTwoAdversaries(norm: Norm, config: Config)
    requires IsL2(norm) && config.method_ == BULYAN && config.trimRatio == 0.0 && config.maxByzantine == 2
    ensures !AggregateWithstands(norm, 7, config, 2)
  {
    BulyanDefaultRobustIff(norm, 7, config);
  }

  // --- The rules without a selection ---

  lemma AllSurvive(norm: Norm, all: seq<Gradient>, ratio: real)
    requires |all| > 1 && AllFit(all[0], all) && Stackable(all)
    ensures Bulyan(norm, all, |all|, ratio) == TrimmedGradient(all, ratio)
  {
    assert Selected(norm, all, |all|, AtLeastOne(-|all|)) == all;
  }

  /** Trimmed mean as configured withstands exactly as many as it trims, and a minority where it gives way to the median. */
  lemma TrimmedMeanConfigRobustIff(norm: Norm, n: nat, config: Config, a: nat)
    requires IsL2(norm) && n > 1 && config.method_ == TRIMMED_MEAN
    ensures AggregateWithstands(norm, n, config, a)
       <==> TrimsEnough(n, TrimRatio(config.trimRatio, EffectiveF(n, config) as real / n as real), a)
  {
    var ratio := TrimRatio(config.trimRatio, EffectiveF(n, config) as real / n as real);
    BulyanRobustIff(norm, n, n, ratio, a);
    forall all: seq<Gradient> | |all| == n && AllFit(all[0], all)
      ensures Aggregate(norm, all, config) == Bulyan(norm, all, n, ratio)
    {
      FittingStack(all);
      AllSurvive(norm, all, ratio);
    }
  }

  lemma AllTrimmedIsMedian(n: nat)
    requires n > 0
    ensures n <= 2 * TrimCount(n, 1.0)
  {
    assert n as real * 1.0 == n as real;
  }

  /** The coordinate-wise median withstands exactly a minority. */
  lemma MedianConfigRobustIff(norm: Norm, n: nat, config: Config, a: nat)
    requires IsL2(norm) && n > 1 && config.method_ == MEDIAN
    ensures AggregateWithstands(norm, n, config, a) <==> 2 * a < n
  {
    AllTrimmedIsMedian(n);
    BulyanRobustIff(norm, n, n, 1.0, a);
    forall all: seq<Gradient> | |all| == n && AllFit(all[0], all)
      ensures Aggregate(norm, all, config) == Bulyan(norm, all, n, 1.0)
    {
      FittingStack(all);
      AllSurvive(norm, all, 1.0);
    }
  }
}
