/** What every configured rule returns, coordinate by coordinate, told from the inputs alone. */
module RobustValues {
  import opened Sums
  import opened Sorting
  import opened Vrf
  import opened Gradients
  import opened Euclid
  import opened OrderStatistics
  import opened Krum
  import opened Byzantine

  // --- Which gradients Krum selects ---

  /** The score of gradient `i`: of its distances to all the others, the n - f - 2 least ones added up. */
  lemma ScoreIs(norm: Norm, flats: seq<Vec>, f: nat, i: nat, near: seq<real>, far: seq<real>)
    requires |flats| >= 2 * f + 3 && Uniform(flats, |flats[0]|) && i < |flats|
    requires multiset(DistancesFrom(norm, flats, i)) == multiset(near + far) && |near| == |flats| - f - 2 && AllBelow(near, far)
    ensures Score(norm, flats, f, i) == Sum(near)
  {
    SortSplits(DistancesFrom(norm, flats, i), near, far);
    assert Sort(RealLe, DistancesFrom(norm, flats, i))[..|near|] == Sort(RealLe, near);
    RealSort(near);
    SumPermutation(Sort(RealLe, near), near);
  }

  /** The distances counted are those to every other gradient, once each. */
  lemma DistancesAre(norm: Norm, flats: seq<Vec>, i: nat, j: nat)
    requires i < |flats| && j < |flats| && i != j && Uniform(flats, |flats[0]|) && IsL2(norm)
    ensures var k := if j < i then j else j - 1;
      k < |DistancesFrom(norm, flats, i)| && DistancesFrom(norm, flats, i)[k] == norm(Sub(flats[i], flats[j]))
  {
    DistanceIsNorm(norm, flats, i, j);
  }

  /** Gradient `i` comes before gradient `j`: it scores less, or as much with the smaller index. */
  function Ahead(norm: Norm, flats: seq<Vec>, f: nat): (nat, nat) -> bool
    requires |flats| >= 2 * f + 3 && Uniform(flats, |flats[0]|)
  {
    (i: nat, j: nat) => i < |flats| && j < |flats| &&
      (Score(norm, flats, f, i) < Score(norm, flats, f, j) || (Score(norm, flats, f, i) == Score(norm, flats, f, j) && i < j))
  }

  /** The best ones of `n`, best first: each is ahead of those behind it and of everybody left out. */
  predicate Best(ahead: (nat, nat) -> bool, n: nat, sel: seq<nat>) {
    && |sel| <= n && (forall p | 0 <= p < |sel| :: sel[p] < n)
    && (forall p, q | 0 <= p < q < |sel| :: ahead(sel[p], sel[q]))
    && (forall p, i: nat | 0 <= p < |sel| && i < n && i !in sel :: ahead(sel[p], i))
  }

  lemma BestAhead(ahead: (nat, nat) -> bool, n: nat, sel: seq<nat>, p: nat, i: nat)
    requires Best(ahead, n, sel) && p < |sel| && i < n && i !in sel[..p] && i != sel[p]
    ensures ahead(sel[p], i)
  {
    assert forall q | 0 <= q < p :: sel[..p][q] == sel[q];
    if i in sel { var q :| 0 <= q < |sel| && sel[q] == i; }
  }

  lemma NextIsSame(ahead: (nat, nat) -> bool, n: nat, sel: seq<nat>, r: seq<nat>, m: nat)
    requires IsPermutation(r, n) && Best(ahead, n, sel) && m < |sel| && r[..m] == sel[..m]
    requires forall a, b | 0 <= a < b < n :: ahead(r[a], r[b])
    requires forall i, j | ahead(i, j) :: !ahead(j, i)
    ensures r[m] == sel[m]
  {
    PermutationOnto(r, n);
    var q := IndexOf(r, sel[m]);
    assert forall k | 0 <= k < m :: r[k] == r[..m][k] == sel[k];
    if q > m {
      BestAhead(ahead, n, sel, m, r[m]);
    }
  }

  lemma {:induction false} BestIsFirst(ahead: (nat, nat) -> bool, n: nat, sel: seq<nat>, r: seq<nat>, p: nat)
    requires IsPermutation(r, n) && Best(ahead, n, sel) && p <= |sel|
    requires forall a, b | 0 <= a < b < n :: ahead(r[a], r[b])
    requires forall i, j | ahead(i, j) :: !ahead(j, i)
    ensures r[..p] == sel[..p]
  {
    if p > 0 {
      var m := p - 1;
      BestIsFirst(ahead, n, sel, r, m);
      NextIsSame(ahead, n, sel, r, m);
      assert r[..p] == r[..m] + [r[m]] && sel[..p] == sel[..m] + [sel[m]];
    }
  }

  /** Krum selects exactly them. */
  lemma BestIsChoice(norm: Norm, flats: seq<Vec>, f: nat, sel: seq<nat>)
    requires |flats| >= 2 * f + 3 && Uniform(flats, |flats[0]|) && Best(Ahead(norm, flats, f), |flats|, sel)
    ensures Choice(norm, flats, f, |sel|) == sel
  {
    var r := Ranking(norm, flats, f);
    RankingFacts(norm, flats, f);
    forall a, b | 0 <= a < b < |flats| ensures Ahead(norm, flats, f)(r[a], r[b]) {
      RankingSorts(norm, flats, f, a, b);
    }
    BestIsFirst(Ahead(norm, flats, f), |flats|, sel, r, |sel|);
  }

  // --- The values returned ---

  /** The number of adversaries assumed: as configured, or a fifth of the peers, at least one. */
  predicate IsAssumed(n: nat, config: Config, f: nat) {
    if config.maxByzantine != 0 then f == config.maxByzantine
    else f >= 1 && n < 5 * f + 5 && (f > 1 ==> 5 * f <= n)
  }

  lemma AssumedIs(n: nat, config: Config, f: nat)
    requires IsAssumed(n, config, f)
    ensures EffectiveF(n, config) == f
  {
  }

  /** `t` is the whole part of `n * ratio`, and at least one. */
  predicate IsTrim(n: nat, ratio: real, t: nat) {
    t >= 1 && n as real * ratio < t as real + 1.0 && (t > 1 ==> t as real <= n as real * ratio)
  }

  lemma TrimIs(n: nat, ratio: real, t: nat)
    requires IsTrim(n, ratio, t)
    ensures TrimCount(n, ratio) == t
  {
  }

  predicate IsCoordinate(all: seq<Gradient>, name: string, x: nat) {
    |all| > 1 && AllFit(all[0], all) && name in all[0] && x < Numel(all[0][name].shape)
  }

  /** What the gradients say at a coordinate. */
  ghost predicate Says(all: seq<Gradient>, name: string, x: nat, col: seq<real>) {
    |col| == |all| && forall i | 0 <= i < |all| :: name in all[i] && x < |all[i][name].data| && all[i][name].data[x] == col[i]
  }

  ghost predicate Returns(g: Gradient, name: string, x: nat, v: real) {
    name in g && x < |g[name].data| && g[name].data[x] == v
  }

  /** Some values: the lowest, a middle, and as many highest as lowest. */
  predicate Trims(col: seq<real>, low: seq<real>, mid: seq<real>, high: seq<real>, t: nat) {
    && multiset(col) == multiset(low + mid + high) && |low| == t && |high| == t && mid != []
    && AllBelow(low, mid) && AllBelow(low, high) && AllBelow(mid, high)
  }

  predicate Halves(col: seq<real>, low: seq<real>, middle: real, high: seq<real>) {
    && multiset(col) == multiset(low + [middle] + high) && |low| <= |high| <= |low| + 1
    && AllBelow(low, [middle]) && AllBelow(low, high) && AllBelow([middle], high)
  }

  lemma TrimmedLength(col: seq<real>, low: seq<real>, mid: seq<real>, high: seq<real>, t: nat)
    requires Trims(col, low, mid, high, t)
    ensures |col| > 2 * t
  {
    assert |multiset(col)| == |multiset(low + mid + high)|;
  }

  lemma TrimmedGradientValue(all: seq<Gradient>, ratio: real, t: nat, name: string, x: nat, col: seq<real>,
                             low: seq<real>, mid: seq<real>, high: seq<real>)
    requires Stackable(all) && name in all[0] && x < Numel(all[0][name].shape) && Says(all, name, x, col)
    requires IsTrim(|all|, ratio, t) && Trims(col, low, mid, high, t)
    ensures Returns(TrimmedGradient(all, ratio), name, x, Mean(mid))
  {
    TrimmedAt(all, ratio, name, x);
    TrimIs(|all|, ratio, t);
    assert Column(all, name, x) == col;
    TrimmedLength(col, low, mid, high, t);
    TrimmedMeanIs(col, low, mid, high);
  }

  lemma MedianGradientValue(all: seq<Gradient>, ratio: real, t: nat, name: string, x: nat, col: seq<real>,
                            low: seq<real>, middle: real, high: seq<real>)
    requires Stackable(all) && name in all[0] && x < Numel(all[0][name].shape) && Says(all, name, x, col)
    requires IsTrim(|all|, ratio, t) && |all| <= 2 * t && Halves(col, low, middle, high)
    ensures Returns(TrimmedGradient(all, ratio), name, x, middle)
  {
    TrimmedAt(all, ratio, name, x);
    TrimIs(|all|, ratio, t);
    assert Column(all, name, x) == col;
    LowerMedianIs(col, low, middle, high);
  }

  /** The trimmed mean as configured: of all the values at a coordinate, the `t` lowest and the `t` highest are dropped and the
      others averaged, `t` being the given share of them, or the share of the adversaries assumed. */
  lemma TrimmedMeanValue(norm: Norm, all: seq<Gradient>, config: Config, f: nat, t: nat, name: string, x: nat, col: seq<real>,
                         low: seq<real>, mid: seq<real>, high: seq<real>)
    requires IsCoordinate(all, name, x) && Says(all, name, x, col) && config.method_ == TRIMMED_MEAN
    requires IsAssumed(|all|, config, f) && Trims(col, low, mid, high, t)
    requires IsTrim(|all|, if config.trimRatio != 0.0 then config.trimRatio else f as real / |all| as real, t)
    ensures Returns(Aggregate(norm, all, config), name, x, Mean(mid))
  {
    FittingStack(all);
    AssumedIs(|all|, config, f);
    TrimmedGradientValue(all, TrimRatio(config.trimRatio, f as real / |all| as real), t, name, x, col, low, mid, high);
  }

  /** Where that would drop everything, the lower median is returned. */
  lemma TrimmedMeanFallback(norm: Norm, all: seq<Gradient>, config: Config, f: nat, t: nat, name: string, x: nat, col: seq<real>,
                            low: seq<real>, middle: real, high: seq<real>)
    requires IsCoordinate(all, name, x) && Says(all, name, x, col) && config.method_ == TRIMMED_MEAN
    requires IsAssumed(|all|, config, f) && |all| <= 2 * t && Halves(col, low, middle, high)
    requires IsTrim(|all|, if config.trimRatio != 0.0 then config.trimRatio else f as real / |all| as real, t)
    ensures Returns(Aggregate(norm, all, config), name, x, middle)
  {
    FittingStack(all);
    AssumedIs(|all|, config, f);
    MedianGradientValue(all, TrimRatio(config.trimRatio, f as real / |all| as real), t, name, x, col, low, middle, high);
  }

  /** The median rule and the mean rule. */
  lemma MedianValue(norm: Norm, all: seq<Gradient>, config: Config, name: string, x: nat, col: seq<real>,
                    low: seq<real>, middle: real, high: seq<real>)
    requires IsCoordinate(all, name, x) && Says(all, name, x, col)
    ensures config.method_ == MEDIAN && Halves(col, low, middle, high) ==> Returns(Aggregate(norm, all, config), name, x, middle)
    ensures config.method_ == MEAN ==> Returns(Aggregate(norm, all, config), name, x, Mean(col))
  {
    FittingStack(all);
    assert Column(all, name, x) == col;
    if Halves(col, low, middle, high) { LowerMedianIs(col, low, middle, high); }
  }

  // --- The rules that select ---

  /** With enough peers `sel` lists the `m` best; with too few everybody is kept. */
  predicate IsSelection(norm: Norm, all: seq<Gradient>, f: nat, m: nat, sel: seq<nat>)
    requires Stackable(all) && Uniform(FlatAll(all), |FlatAll(all)[0]|)
  {
    if |all| <= 2 * f + 2 then sel == Identity(|all|)
    else |sel| == (if m <= |all| then m else |all|) && Best(Ahead(norm, FlatAll(all), f), |all|, sel)
  }

  lemma ChoiceCaps(norm: Norm, flats: seq<Vec>, f: nat, m: nat)
    requires |flats| >= 2 * f + 3 && Uniform(flats, |flats[0]|)
    ensures Choice(norm, flats, f, m) == Choice(norm, flats, f, if m <= |flats| then m else |flats|)
  {
    var r := Ranking(norm, flats, f);
    assert r[..|flats|] == r;
  }

  lemma SelectionIs(norm: Norm, all: seq<Gradient>, f: nat, m: nat, sel: seq<nat>)
    requires Stackable(all) && Uniform(FlatAll(all), |FlatAll(all)[0]|) && IsSelection(norm, all, f, m, sel)
    ensures Below(sel, |all|) && Selected(norm, all, f, m) == Pick(all, sel)
  {
    if |all| > 2 * f + 2 {
      BestIsChoice(norm, FlatAll(all), f, sel);
      ChoiceBelow(norm, FlatAll(all), f, m);
      assert Choice(norm, FlatAll(all), f, m) == sel by { ChoiceCaps(norm, FlatAll(all), f, m); }
    }
  }

  /** The selected gradients, taken from the coordinate. */
  function Among(col: seq<real>, sel: seq<nat>): (r: seq<real>)
    requires Below(sel, |col|)
    ensures |r| == |sel|
    ensures forall p | 0 <= p < |sel| :: sel[p] in sel && r[p] == col[sel[p]]
  {
    seq(|sel|, p requires 0 <= p < |sel| => assert sel[p] in sel; col[sel[p]])
  }

  lemma PickedSays(all: seq<Gradient>, name: string, x: nat, col: seq<real>, sel: seq<nat>)
    requires IsCoordinate(all, name, x) && Says(all, name, x, col) && Below(sel, |all|) && sel != []
    ensures var picked := Pick(all, sel);
      && Stackable(picked) && name in picked[0] && x < Numel(picked[0][name].shape)
      && Says(picked, name, x, Among(col, sel))
  {
    PickFits(all[0], all, sel);
    assert Fits(all[0], all[sel[0]]);
  }

  lemma PickedMean(all: seq<Gradient>, name: string, x: nat, col: seq<real>, sel: seq<nat>)
    requires IsCoordinate(all, name, x) && Says(all, name, x, col) && Below(sel, |all|) && sel != []
    ensures Stackable(Pick(all, sel)) && Returns(MeanGradient(Pick(all, sel)), name, x, Mean(Among(col, sel)))
  {
    PickedSays(all, name, x, col, sel);
    StackableColumn(Pick(all, sel), name);
    assert Column(Pick(all, sel), name, x) == Among(col, sel);
  }

  lemma KrumMean(norm: Norm, all: seq<Gradient>, config: Config, f: nat, m: nat, picked: seq<Gradient>)
    requires |all| > 1 && AllFit(all[0], all) && Stackable(all) && config.method_ in {KRUM, MULTI_KRUM} && Stackable(picked)
    requires f == EffectiveF(|all|, config) && m == SelectionSize(|all|, config) > 0 && Selected(norm, all, f, m) == picked
    ensures Aggregate(norm, all, config) == MeanGradient(picked)
  {
    KrumIsAggregate(norm, all, config);
  }

  lemma SurvivorsTrimmed(norm: Norm, all: seq<Gradient>, f: nat, ratio: real, picked: seq<Gradient>)
    requires |all| > 1 && AllFit(all[0], all) && Stackable(all) && Stackable(picked)
    requires Selected(norm, all, f, AtLeastOne(|all| - 2 * f)) == picked
    ensures Bulyan(norm, all, f, ratio) == TrimmedGradient(picked, ratio)
  {
  }

  lemma BulyanTrimmed(norm: Norm, all: seq<Gradient>, config: Config, f: nat, picked: seq<Gradient>)
    requires |all| > 1 && AllFit(all[0], all) && Stackable(all) && config.method_ == BULYAN && Stackable(picked)
    requires f == EffectiveF(|all|, config) && Selected(norm, all, f, AtLeastOne(|all| - 2 * f)) == picked
    ensures Aggregate(norm, all, config) == TrimmedGradient(picked, TrimRatio(config.trimRatio, 0.25))
  {
    BulyanIsAggregate(norm, all, config);
    SurvivorsTrimmed(norm, all, f, TrimRatio(config.trimRatio, 0.25), picked);
  }

  /** Krum returns the best gradient, Multi-Krum the mean of the best ones: as many as configured, or all but `f`. */
  lemma KrumValue(norm: Norm, all: seq<Gradient>, config: Config, f: nat, m: nat, sel: seq<nat>, name: string, x: nat, col: seq<real>)
    requires IsCoordinate(all, name, x) && Says(all, name, x, col) && config.method_ in {KRUM, MULTI_KRUM}
    requires IsAssumed(|all|, config, f) && m >= 1
    requires m == if config.method_ == KRUM then 1 else if config.multiKrumM != 0 then config.multiKrumM else if |all| > f then |all| - f else 1
    requires Stackable(all) && Uniform(FlatAll(all), |FlatAll(all)[0]|) && IsSelection(norm, all, f, m, sel)
    ensures Below(sel, |col|) && Returns(Aggregate(norm, all, config), name, x, Mean(Among(col, sel)))
  {
    AssumedIs(|all|, config, f);
    SelectionIs(norm, all, f, m, sel);
    PickedMean(all, name, x, col, sel);
    KrumMean(norm, all, config, f, m, Pick(all, sel));
  }

  /** Bulyan trims what Krum leaves of the peers, all but two `f`, by the given share or a quarter. */
  lemma BulyanValue(norm: Norm, all: seq<Gradient>, config: Config, f: nat, sel: seq<nat>, t: nat, name: string, x: nat, col: seq<real>,
                    low: seq<real>, mid: seq<real>, high: seq<real>)
    requires IsCoordinate(all, name, x) && Says(all, name, x, col) && config.method_ == BULYAN && IsAssumed(|all|, config, f)
    requires Stackable(all) && Uniform(FlatAll(all), |FlatAll(all)[0]|)
    requires IsSelection(norm, all, f, if |all| > 2 * f then |all| - 2 * f else 1, sel) && Below(sel, |col|)
    requires IsTrim(|sel|, if config.trimRatio != 0.0 then config.trimRatio else 0.25, t) && Trims(Among(col, sel), low, mid, high, t)
    ensures Returns(Aggregate(norm, all, config), name, x, Mean(mid))
  {
    AssumedIs(|all|, config, f);
    SelectionIs(norm, all, f, AtLeastOne(|all| - 2 * f), sel);
    TrimmedLength(Among(col, sel), low, mid, high, t);
    assert |multiset(Among(col, sel))| == |sel|;
    PickedSays(all, name, x, col, sel);
    BulyanTrimmed(norm, all, config, f, Pick(all, sel));
    TrimmedGradientValue(Pick(all, sel), TrimRatio(config.trimRatio, 0.25), t, name, x, Among(col, sel), low, mid, high);
  }
}
