/** Aggregating gradients of which some come from adversaries. */
module Byzantine {
  import opened Sorting
  import opened Gradients
  import opened Euclid
  import opened OrderStatistics
  import opened Krum
  import AllReduce

  datatype Method = MEAN | KRUM | MULTI_KRUM | TRIMMED_MEAN | MEDIAN | BULYAN

  datatype Config = Config(method_: Method, maxByzantine: nat, trimRatio: real, multiKrumM: nat)

  datatype Outcome = Aggregated(gradient: Gradient) | NoGradients

  // --- Coordinate-wise rules ---

  function RuleTensor(all: seq<Gradient>, rule: seq<real> -> real, name: string): (r: Tensor)
    requires Stackable(all) && name in all[0]
    ensures |r.data| == Numel(r.shape)
  {
    StackableColumn(all, name);
    var size := Numel(all[0][name].shape);
    Tensor(all[0][name].shape, seq(size, x requires 0 <= x < size => rule(Column(all, name, x))))
  }

  /** Stack the gradients, apply the rule to every coordinate, restore the shapes. */
  function PerCoordinate(all: seq<Gradient>, rule: seq<real> -> real): (r: Gradient)
    requires Stackable(all)
    ensures WellFormed(r)
  {
    map name | name in all[0] :: RuleTensor(all, rule, name)
  }

  function TrimCount(n: nat, ratio: real): nat {
    var t := (n as real * ratio).Floor;
    if t < 1 then 1 else t
  }

  /** `_trimmed_mean`, falling back to the median when nothing would be left. */
  function TrimmedGradient(all: seq<Gradient>, ratio: real): Gradient
    requires Stackable(all)
  {
    var trim := TrimCount(|all|, ratio);
    if |all| - 2 * trim < 1 then PerCoordinate(all, LowerMedian()) else PerCoordinate(all, TrimmedMean(trim))
  }

  // --- Krum on named gradients ---

  function Names(all: seq<Gradient>): (r: seq<string>)
    requires Stackable(all)
    ensures forall i | 0 <= i < |all| :: forall name | name in r :: name in all[i]
  {
    assert forall i | 0 <= i < |all| :: Covers(all[0], all[i]);
    SortedNames(all[0].Keys)
  }

  function FlatAll(all: seq<Gradient>): (r: seq<Vec>)
    requires Stackable(all)
    ensures |r| == |all|
    ensures forall i | 0 <= i < |all| :: r[i] == Flatten(all[i], Names(all))
  {
    seq(|all|, i requires 0 <= i < |all| => Flatten(all[i], Names(all)))
  }

  lemma SameSizes(all: seq<Gradient>)
    requires Stackable(all)
    ensures forall i | 0 <= i < |all| :: Sizes(all[i], Names(all)) == Sizes(all[0], Names(all))
    ensures forall i | 0 <= i < |all| :: |FlatAll(all)[i]| == SizeSum(Sizes(all[0], Names(all)))
    ensures Uniform(FlatAll(all), |FlatAll(all)[0]|)
  {
    var names := Names(all);
    forall i | 0 <= i < |all|
      ensures Sizes(all[i], names) == Sizes(all[0], names)
      ensures |FlatAll(all)[i]| == SizeSum(Sizes(all[0], names))
    {
      assert Covers(all[0], all[i]);
      ConcatLength(Parts(all[i], names), Sizes(all[i], names));
    }
  }

  lemma ChoiceBelow(norm: Norm, flats: seq<Vec>, f: nat, m: nat)
    requires |flats| >= 2 * f + 3 && Uniform(flats, |flats[0]|)
    ensures Below(Choice(norm, flats, f, m), |flats|) && Distinct(Choice(norm, flats, f, m))
    ensures |Choice(norm, flats, f, m)| == if m <= |flats| then m else |flats|
  {
    RankingFacts(norm, flats, f);
  }

  /** The selection `_krum_select` makes: everything when there are too few peers. */
  function Selected(norm: Norm, all: seq<Gradient>, f: nat, m: nat): (r: seq<Gradient>)
    requires Stackable(all)
  {
    if |all| <= 2 * f + 2 then all
    else
      SameSizes(all);
      var choice := Choice(norm, FlatAll(all), f, m);
      ChoiceBelow(norm, FlatAll(all), f, m);
      Pick(all, choice)
  }

  method KrumSelect(norm: Norm, all: seq<Gradient>, f: nat, m: nat) returns (selected: seq<Gradient>)
    requires Stackable(all)
    ensures selected == Selected(norm, all, f, m)
  {
    if |all| <= 2 * f + 2 {
      return all;
    }
    SameSizes(all);
    var chosen := Select(norm, FlatAll(all), f, m);
    ChoiceBelow(norm, FlatAll(all), f, m);
    selected := Pick(all, chosen);
  }

  // --- robust_aggregate ---

  function EffectiveF(n: nat, config: Config): nat {
    if config.maxByzantine != 0 then config.maxByzantine else if n / 5 < 1 then 1 else n / 5
  }

  function AtLeastOne(m: int): nat {
    if m < 1 then 1 else m
  }

  function KrumCount(n: nat, f: nat, config: Config): nat {
    if config.multiKrumM != 0 then config.multiKrumM else AtLeastOne(n - f)
  }

  function TrimRatio(given: real, default: real): real {
    if given != 0.0 then given else default
  }

  lemma FittingStack(all: seq<Gradient>)
    requires |all| > 0 && AllFit(all[0], all)
    ensures Stackable(all)
  {
    assert forall i | 0 <= i < |all| :: Fits(all[0], all[i]);
  }

  lemma SelectedFits(norm: Norm, all: seq<Gradient>, f: nat, m: nat)
    requires |all| > 0 && AllFit(all[0], all) && m > 0
    ensures Stackable(all)
    ensures Stackable(Selected(norm, all, f, m)) && AllFit(all[0], Selected(norm, all, f, m))
  {
    FittingStack(all);
    if |all| > 2 * f + 2 {
      SameSizes(all);
      ChoiceBelow(norm, FlatAll(all), f, m);
      PickFits(all[0], all, Choice(norm, FlatAll(all), f, m));
    }
  }

  /** Krum's survivors, trimmed. */
  function Bulyan(norm: Norm, all: seq<Gradient>, f: nat, ratio: real): Gradient
    requires |all| > 0 && AllFit(all[0], all)
  {
    SelectedFits(norm, all, f, AtLeastOne(|all| - 2 * f));
    TrimmedGradient(Selected(norm, all, f, AtLeastOne(|all| - 2 * f)), ratio)
  }

  function Aggregate(norm: Norm, all: seq<Gradient>, config: Config): Gradient
    requires |all| > 1 && AllFit(all[0], all)
  {
    var n, f := |all|, EffectiveF(|all|, config);
    assert forall i | 0 <= i < n :: Fits(all[0], all[i]);
    match config.method_
    case MEAN => MeanGradient(all)
    case KRUM => SelectedFits(norm, all, f, 1); MeanGradient(Selected(norm, all, f, 1))
    case MULTI_KRUM =>
      SelectedFits(norm, all, f, KrumCount(n, f, config));
      MeanGradient(Selected(norm, all, f, KrumCount(n, f, config)))
    case TRIMMED_MEAN => TrimmedGradient(all, TrimRatio(config.trimRatio, f as real / n as real))
    case MEDIAN => PerCoordinate(all, LowerMedian())
    case BULYAN => Bulyan(norm, all, f, TrimRatio(config.trimRatio, 0.25))
  }

  /** `robust_aggregate`: the rule each configured method applies. */
  method RobustAggregate(norm: Norm, all: seq<Gradient>, config: Config) returns (outcome: Outcome)
    requires |all| > 0 ==> AllFit(all[0], all)
    ensures |all| == 0 <==> outcome == NoGradients
    ensures |all| == 1 ==> outcome == Aggregated(all[0])
    ensures |all| > 1 ==> outcome == Aggregated(Aggregate(norm, all, config))
  {
    var n := |all|;
    if n == 0 {
      return NoGradients;
    }
    if n == 1 {
      return Aggregated(all[0]);
    }
    var f := EffectiveF(n, config);
    assert forall i | 0 <= i < n :: Fits(all[0], all[i]);
    var result: Gradient;
    match config.method_ {
      case MEAN =>
        result := MeanGradient(all);
      case KRUM =>
        SelectedFits(norm, all, f, 1);
        var selected := KrumSelect(norm, all, f, 1);
        result := MeanGradient(selected);
      case MULTI_KRUM =>
        SelectedFits(norm, all, f, KrumCount(n, f, config));
        var selected := KrumSelect(norm, all, f, KrumCount(n, f, config));
        result := MeanGradient(selected);
      case TRIMMED_MEAN =>
        result := TrimmedGradient(all, TrimRatio(config.trimRatio, f as real / n as real));
      case MEDIAN =>
        result := PerCoordinate(all, LowerMedian());
      case BULYAN =>
        SelectedFits(norm, all, f, AtLeastOne(n - 2 * f));
        var survivors := KrumSelect(norm, all, f, AtLeastOne(n - 2 * f));
        result := TrimmedGradient(survivors, TrimRatio(config.trimRatio, 0.25));
    }
    outcome := Aggregated(result);
  }

  // --- Validity of the coordinate-wise rules ---

  /** On coordinate `x` of tensor `name` every honest gradient lies between `lo` and `hi`. */
  ghost predicate HonestAt(all: seq<Gradient>, bad: set<nat>, name: string, x: nat, lo: real, hi: real) {
    && (forall i | 0 <= i < |all| :: name in all[i] && x < |all[i][name].data|)
    && Honest(Column(all, name, x), bad, lo, hi)
  }

  ghost predicate Within(g: Gradient, name: string, x: nat, lo: real, hi: real) {
    name in g && x < |g[name].data| && lo <= g[name].data[x] <= hi
  }

  /** One coordinate of a trimmed mean, or of the median where that takes over. */
  lemma TrimmedAt(all: seq<Gradient>, ratio: real, name: string, x: nat)
    requires Stackable(all) && name in all[0] && x < Numel(all[0][name].shape)
    ensures forall i | 0 <= i < |all| :: name in all[i] && x < |all[i][name].data|
    ensures var g, col := TrimmedGradient(all, ratio), Column(all, name, x);
      var trim := TrimCount(|all|, ratio);
      && name in g && |g[name].data| == Numel(all[0][name].shape)
      && g[name].data[x] == if |all| > 2 * trim then TrimmedMean(trim)(col) else LowerMedian()(col)
  {
    StackableColumn(all, name);
  }

  /** Adversaries a trimmed mean of `m` values withstands: no more than are trimmed, and a minority in any case, which is what the
      median it falls back to needs. */
  predicate TrimsEnough(m: nat, ratio: real, adversaries: nat) {
    2 * adversaries < m && (m > 2 * TrimCount(m, ratio) ==> adversaries <= TrimCount(m, ratio))
  }

  lemma TrimmedGradientValid(all: seq<Gradient>, ratio: real, bad: set<nat>, name: string, x: nat, lo: real, hi: real)
    requires Stackable(all) && name in all[0] && x < Numel(all[0][name].shape)
    requires HonestAt(all, bad, name, x, lo, hi)
    requires TrimsEnough(|all|, ratio, |bad|)
    ensures Within(TrimmedGradient(all, ratio), name, x, lo, hi)
  {
    var col, trim := Column(all, name, x), TrimCount(|all|, ratio);
    if |all| > 2 * trim {
      TrimmedMeanValid(col, bad, trim, lo, hi);
      assert TrimmedGradient(all, ratio) == PerCoordinate(all, TrimmedMean(trim));
    } else {
      LowerMedianValid(col, bad, lo, hi);
      assert TrimmedGradient(all, ratio) == PerCoordinate(all, LowerMedian());
    }
  }

  /** With the ratio left to be computed, exactly `f` values are trimmed from each end. */
  lemma DefaultTrimCount(n: nat, f: nat)
    requires n > 0
    ensures TrimCount(n, f as real / n as real) == AtLeastOne(f)
  {
    assert n as real * (f as real / n as real) == f as real;
  }

  /** Trimmed mean with its computed ratio: safe against f adversaries as long as they are a minority. */
  lemma TrimmedMeanAggregateValid(norm: Norm, all: seq<Gradient>, config: Config, bad: set<nat>, name: string, x: nat, lo: real, hi: real)
    requires |all| > 1 && AllFit(all[0], all) && name in all[0] && x < Numel(all[0][name].shape)
    requires config.method_ == TRIMMED_MEAN && config.trimRatio == 0.0
    requires |bad| <= EffectiveF(|all|, config) && 2 * |bad| < |all|
    requires HonestAt(all, bad, name, x, lo, hi)
    ensures Within(Aggregate(norm, all, config), name, x, lo, hi)
  {
    var n, f := |all|, EffectiveF(|all|, config);
    DefaultTrimCount(n, f);
    assert forall i | 0 <= i < n :: Fits(all[0], all[i]);
    TrimmedGradientValid(all, f as real / n as real, bad, name, x, lo, hi);
  }

  lemma MedianAggregateValid(norm: Norm, all: seq<Gradient>, config: Config, bad: set<nat>, name: string, x: nat, lo: real, hi: real)
    requires |all| > 1 && AllFit(all[0], all) && name in all[0] && x < Numel(all[0][name].shape)
    requires config.method_ == MEDIAN && 2 * |bad| < |all|
    requires HonestAt(all, bad, name, x, lo, hi)
    ensures Within(Aggregate(norm, all, config), name, x, lo, hi)
  {
    assert forall i | 0 <= i < |all| :: Fits(all[0], all[i]);
    LowerMedianValid(Column(all, name, x), bad, lo, hi);
  }

  // --- Validity of Krum ---

  /** Where flat position `k` comes from, the same for every gradient of the layout. */
  lemma FlatPosition(g: Gradient, names: seq<string>, sizes: seq<nat>, k: nat)
    requires WellFormed(g) && forall name | name in names :: name in g
    requires Sizes(g, names) == sizes && k < SizeSum(sizes)
    ensures k < |Flatten(g, names)|
    ensures var (c, o) := Locate(sizes, k);
      c < |names| && o < |g[names[c]].data| && Flatten(g, names)[k] == g[names[c]].data[o]
  {
    ConcatAt(Parts(g, names), sizes, k);
  }

  lemma MeanSizes(all: seq<Gradient>)
    requires Stackable(all)
    ensures forall name | name in Names(all) :: name in MeanGradient(all)
    ensures Sizes(MeanGradient(all), Names(all)) == Sizes(all[0], Names(all))
  {
  }

  lemma FlatMean(all: seq<Gradient>, k: nat)
    requires Stackable(all) && k < |FlatAll(all)[0]|
    ensures forall name | name in Names(all) :: name in MeanGradient(all)
    ensures k < |Flatten(MeanGradient(all), Names(all))|
    ensures Uniform(FlatAll(all), |FlatAll(all)[0]|)
    ensures Flatten(MeanGradient(all), Names(all))[k] == MeanVec(FlatAll(all), |FlatAll(all)[0]|)[k]
  {
    SameSizes(all);
    MeanSizes(all);
    var names, sizes := Names(all), Sizes(all[0], Names(all));
    var (c, o) := Locate(sizes, k);
    StackableColumn(all, names[c]);
    FlatPosition(MeanGradient(all), names, sizes, k);
    forall i | 0 <= i < |all| ensures FlatAll(all)[i][k] == all[i][names[c]].data[o] {
      assert Covers(all[0], all[i]);
      FlatPosition(all[i], names, sizes, k);
    }
    assert Col(FlatAll(all), k) == Column(all, names[c], o);
  }

  /** Flattening commutes with averaging. */
  lemma FlattenMean(all: seq<Gradient>)
    requires Stackable(all)
    ensures forall name | name in Names(all) :: name in MeanGradient(all)
    ensures Uniform(FlatAll(all), |FlatAll(all)[0]|)
    ensures Flatten(MeanGradient(all), Names(all)) == MeanVec(FlatAll(all), |FlatAll(all)[0]|)
  {
    SameSizes(all);
    MeanSizes(all);
    var names, mean := Names(all), MeanGradient(all);
    ConcatLength(Parts(mean, names), Sizes(all[0], names));
    forall k | 0 <= k < |FlatAll(all)[0]|
      ensures Flatten(mean, names)[k] == MeanVec(FlatAll(all), |FlatAll(all)[0]|)[k]
    {
      FlatMean(all, k);
    }
  }

  lemma SelectedFlats(norm: Norm, all: seq<Gradient>, f: nat, m: nat)
    requires |all| >= 2 * f + 3 && m > 0 && AllFit(all[0], all)
    ensures Stackable(all) && Stackable(Selected(norm, all, f, m))
    ensures Uniform(FlatAll(all), |FlatAll(all)[0]|) && Names(Selected(norm, all, f, m)) == Names(all)
    ensures var choice := Choice(norm, FlatAll(all), f, m);
      && |FlatAll(Selected(norm, all, f, m))| == |choice|
      && forall p | 0 <= p < |choice| :: choice[p] < |all| && FlatAll(Selected(norm, all, f, m))[p] == FlatAll(all)[choice[p]]
  {
    SelectedFits(norm, all, f, m);
    SameSizes(all);
    ChoiceBelow(norm, FlatAll(all), f, m);
    var selected, choice := Selected(norm, all, f, m), Choice(norm, FlatAll(all), f, m);
    assert selected[0].Keys == all[0].Keys by { assert Fits(all[0], selected[0]); }
    forall p | 0 <= p < |choice| ensures choice[p] < |all| && FlatAll(selected)[p] == FlatAll(all)[choice[p]] {
      assert choice[p] in choice;
    }
  }

  /** Flattened, the gradient is no further than `bound` from that of peer `h`. */
  ghost predicate IsNear(norm: Norm, all: seq<Gradient>, g: Gradient, h: nat, bound: real)
    requires Stackable(all) && h < |all|
  {
    && (forall name | name in Names(all) :: name in g)
    && |Flatten(g, Names(all))| == |FlatAll(all)[h]|
    && norm(Sub(Flatten(g, Names(all)), FlatAll(all)[h])) <= bound
  }

  /** Krum and Multi-Krum: the aggregate lies within diameter plus radius of every honest gradient. */
  lemma KrumAggregateClose(norm: Norm, all: seq<Gradient>, f: nat, m: nat, bad: set<nat>, d: real, h: nat)
    requires |all| >= 2 * f + 3 && 0 < m <= |all| - f && |bad| <= f && AllFit(all[0], all) && IsL2(norm)
    requires Stackable(all) && Uniform(FlatAll(all), |FlatAll(all)[0]|)
    requires HonestDiameter(norm, FlatAll(all), bad, d) && h < |all| && h !in bad
    ensures Stackable(Selected(norm, all, f, m))
    ensures IsNear(norm, all, MeanGradient(Selected(norm, all, f, m)), h, d + Radius(|all|, f, d))
  {
    SelectedFlats(norm, all, f, m);
    var selected, choice := Selected(norm, all, f, m), Choice(norm, FlatAll(all), f, m);
    FlattenMean(selected);
    ChoiceBelow(norm, FlatAll(all), f, m);
    var chosenFlats, center := FlatAll(selected), FlatAll(all)[h];
    forall p | 0 <= p < |chosenFlats| ensures norm(Sub(chosenFlats[p], center)) <= d + Radius(|all|, f, d) {
      assert choice[p] in choice;
      SelectedClose(norm, FlatAll(all), f, m, bad, d, choice[p], h);
    }
    MeanStaysClose(norm, chosenFlats, |center|, center, d + Radius(|all|, f, d));
  }

  lemma UnanimousDiameter(norm: Norm, all: seq<Gradient>, bad: set<nat>, h: nat)
    requires Stackable(all) && IsL2(norm) && h < |all|
    requires forall i: nat | i < |all| && i !in bad :: all[i] == all[h]
    ensures Uniform(FlatAll(all), |FlatAll(all)[0]|) && HonestDiameter(norm, FlatAll(all), bad, 0.0)
  {
    SameSizes(all);
    forall i: nat, j: nat | i < |all| && j < |all| && i !in bad && j !in bad
      ensures Distance(norm, FlatAll(all), i, j) <= 0.0
    {
      DistanceIsNorm(norm, FlatAll(all), i, j);
      ZeroNorm(norm, Sub(FlatAll(all)[i], FlatAll(all)[j]));
    }
  }

  /** Identical honest gradients are returned exactly. */
  lemma KrumReturnsUnanimous(norm: Norm, all: seq<Gradient>, f: nat, m: nat, bad: set<nat>, h: nat)
    requires |all| >= 2 * f + 3 && 0 < m <= |all| - f && |bad| <= f && AllFit(all[0], all) && IsL2(norm)
    requires h < |all| && h !in bad
    requires forall i: nat | i < |all| && i !in bad :: all[i] == all[h]
    ensures Stackable(all) && Stackable(Selected(norm, all, f, m))
    ensures var result := MeanGradient(Selected(norm, all, f, m));
      && (forall name | name in Names(all) :: name in result)
      && Flatten(result, Names(all)) == Flatten(all[h], Names(all))
  {
    SelectedFits(norm, all, f, m);
    SameSizes(all);
    UnanimousDiameter(norm, all, bad, h);
    KrumAggregateClose(norm, all, f, m, bad, 0.0, h);
    RadiusNonNegative(|all|, f, 0.0);
    var result, center := Flatten(MeanGradient(Selected(norm, all, f, m)), Names(all)), FlatAll(all)[h];
    assert norm(Sub(result, center)) >= 0.0;
    ZeroDistance(norm, result, center);
  }

  // --- Validity of BULYAN ---

  /** The places among the survivors that adversaries hold: no more than there are adversaries. */
  ghost function BadPlaces(choice: seq<nat>, bad: set<nat>): set<nat> {
    set p: nat | p < |choice| && choice[p] in bad
  }

  lemma {:induction false} FewBadPlaces(choice: seq<nat>, bad: set<nat>)
    requires Distinct(choice)
    ensures |BadPlaces(choice, bad)| <= |bad|
    decreases |choice|
  {
    if choice == [] {
      assert BadPlaces(choice, bad) == {};
    } else {
      var n := |choice| - 1;
      var rest := choice[..n];
      if choice[n] in bad {
        FewBadPlaces(rest, bad - {choice[n]});
        assert BadPlaces(choice, bad) == BadPlaces(rest, bad - {choice[n]}) + {n};
        assert n !in BadPlaces(rest, bad - {choice[n]});
      } else {
        FewBadPlaces(rest, bad);
        assert BadPlaces(choice, bad) == BadPlaces(rest, bad);
      }
    }
  }

  lemma SurvivorsHonest(all: seq<Gradient>, choice: seq<nat>, bad: set<nat>, name: string, x: nat, lo: real, hi: real)
    requires Below(choice, |all|) && HonestAt(all, bad, name, x, lo, hi)
    ensures HonestAt(Pick(all, choice), BadPlaces(choice, bad), name, x, lo, hi)
  {
    var survivors: seq<Gradient> := Pick(all, choice);
    forall p: nat | p < |survivors|
      ensures name in survivors[p] && x < |survivors[p][name].data|
      ensures p !in BadPlaces(choice, bad) ==> lo <= survivors[p][name].data[x] <= hi
    {
      assert choice[p] in choice;
      assert Column(all, name, x)[choice[p]] == all[choice[p]][name].data[x];
    }
  }

  lemma SurvivorPlaces(norm: Norm, all: seq<Gradient>, f: nat, m: nat, bad: set<nat>) returns (choice: seq<nat>)
    requires |all| == m + 2 * f && m >= 3 && AllFit(all[0], all)
    ensures Stackable(all) && Below(choice, |all|)
    ensures Selected(norm, all, f, m) == Pick(all, choice)
    ensures |choice| == m && |BadPlaces(choice, bad)| <= |bad|
  {
    SelectedFits(norm, all, f, m);
    SameSizes(all);
    choice := Choice(norm, FlatAll(all), f, m);
    ChoiceBelow(norm, FlatAll(all), f, m);
    FewBadPlaces(choice, bad);
  }

  lemma TrimmedSurvivorsValid(all: seq<Gradient>, choice: seq<nat>, ratio: real, bad: set<nat>, name: string, x: nat, lo: real, hi: real)
    requires |all| > 0 && AllFit(all[0], all) && name in all[0] && x < Numel(all[0][name].shape)
    requires HonestAt(all, bad, name, x, lo, hi) && choice != [] && Below(choice, |all|) && |BadPlaces(choice, bad)| <= |bad|
    requires TrimsEnough(|choice|, ratio, |bad|)
    ensures Stackable(Pick(all, choice))
    ensures Within(TrimmedGradient(Pick(all, choice), ratio), name, x, lo, hi)
  {
    PickFits(all[0], all, choice);
    SurvivorsHonest(all, choice, bad, name, x, lo, hi);
    assert choice[0] in choice && Fits(all[0], Pick(all, choice)[0]);
    TrimmedGradientValid(Pick(all, choice), ratio, BadPlaces(choice, bad), name, x, lo, hi);
  }

  /** Trimming Krum's survivors is safe when as many are trimmed from each end as there are adversaries, whatever Krum
      assumed their number to be. */
  lemma BulyanValid(norm: Norm, all: seq<Gradient>, f: nat, m: nat, ratio: real, bad: set<nat>, name: string, x: nat, lo: real, hi: real)
    requires |all| == m + 2 * f && m >= 3 && AllFit(all[0], all) && Stackable(all)
    requires name in all[0] && x < Numel(all[0][name].shape)
    requires HonestAt(all, bad, name, x, lo, hi) && TrimsEnough(m, ratio, |bad|)
    ensures Stackable(Selected(norm, all, f, m))
    ensures Within(TrimmedGradient(Selected(norm, all, f, m), ratio), name, x, lo, hi)
  {
    SelectedFits(norm, all, f, m);
    var choice := SurvivorPlaces(norm, all, f, m, bad);
    TrimmedSurvivorsValid(all, choice, ratio, bad, name, x, lo, hi);
  }

  /** The default quarter trims enough exactly for at most one adversary or n >= 6f. */
  lemma BulyanDefaultQuarter(n: nat, f: nat)
    requires n >= 2 * f + 3
    ensures TrimsEnough(n - 2 * f, 0.25, f) <==> (f <= 1 || n >= 6 * f)
  {
    var m := n - 2 * f;
    var t := (m as real * 0.25).Floor;
    assert t as real <= m as real * 0.25 < t as real + 1.0;
    assert 4 * t <= m < 4 * t + 4;
  }

  // --- What the configured rules guarantee ---

  /** How many gradients Krum and Multi-Krum average. */
  function SelectionSize(n: nat, config: Config): nat {
    if config.method_ == KRUM then 1 else KrumCount(n, EffectiveF(n, config), config)
  }

  /** Krum or Multi-Krum as configured, with enough peers and no more averaged than are honest for certain. */
  predicate IsKrumCase(n: nat, config: Config, adversaries: nat) {
    && config.method_ in {KRUM, MULTI_KRUM}
    && n >= 2 * EffectiveF(n, config) + 3 && adversaries <= EffectiveF(n, config)
    && 0 < SelectionSize(n, config) <= n - EffectiveF(n, config)
  }

  /** With its default count Multi-Krum is such a case whenever there are enough peers. */
  lemma DefaultCountsSuffice(n: nat, config: Config)
    requires config.method_ == KRUM || (config.method_ == MULTI_KRUM && config.multiKrumM == 0)
    requires n >= 2 * EffectiveF(n, config) + 3
    ensures IsKrumCase(n, config, EffectiveF(n, config))
  {
  }

  lemma KrumIsAggregate(norm: Norm, all: seq<Gradient>, config: Config)
    requires |all| > 1 && AllFit(all[0], all) && Stackable(all) && config.method_ in {KRUM, MULTI_KRUM}
    requires SelectionSize(|all|, config) > 0
    ensures Stackable(Selected(norm, all, EffectiveF(|all|, config), SelectionSize(|all|, config)))
    ensures Aggregate(norm, all, config)
         == MeanGradient(Selected(norm, all, EffectiveF(|all|, config), SelectionSize(|all|, config)))
  {
    SelectedFits(norm, all, EffectiveF(|all|, config), SelectionSize(|all|, config));
  }

  /** `robust_aggregate` with Krum or Multi-Krum: within diameter plus radius of every honest gradient. */
  lemma KrumConfigClose(norm: Norm, all: seq<Gradient>, config: Config, bad: set<nat>, d: real, h: nat)
    requires |all| > 1 && AllFit(all[0], all) && IsL2(norm) && IsKrumCase(|all|, config, |bad|)
    requires Stackable(all) && Uniform(FlatAll(all), |FlatAll(all)[0]|)
    requires HonestDiameter(norm, FlatAll(all), bad, d) && h < |all| && h !in bad
    ensures IsNear(norm, all, Aggregate(norm, all, config), h, d + Radius(|all|, EffectiveF(|all|, config), d))
  {
    KrumIsAggregate(norm, all, config);
    KrumAggregateClose(norm, all, EffectiveF(|all|, config), SelectionSize(|all|, config), bad, d, h);
  }

  lemma SameFlatSameTensor(layout: Gradient, a: Gradient, b: Gradient, j: nat)
    requires WellFormed(layout) && Fits(layout, a) && Fits(layout, b) && j < |SortedNames(layout.Keys)|
    requires Flatten(a, SortedNames(layout.Keys)) == Flatten(b, SortedNames(layout.Keys))
    ensures var name := SortedNames(layout.Keys)[j]; name in a && name in b && a[name] == b[name]
  {
    var names := SortedNames(layout.Keys);
    var name := names[j];
    assert name in names;
    assert Sizes(a, names) == Sizes(b, names);
    AllReduce.FlattenSlice(a, names, j);
    AllReduce.FlattenSlice(b, names, j);
    assert a[name].data == b[name].data && a[name].shape == b[name].shape;
  }

  /** Gradients of one layout with the same flat data are the same. */
  lemma SameFlatSameGradient(layout: Gradient, a: Gradient, b: Gradient)
    requires WellFormed(layout) && Fits(layout, a) && Fits(layout, b)
    requires Flatten(a, SortedNames(layout.Keys)) == Flatten(b, SortedNames(layout.Keys))
    ensures a == b
  {
    var names := SortedNames(layout.Keys);
    forall name | name in a ensures a[name] == b[name] {
      var j :| 0 <= j < |names| && names[j] == name;
      SameFlatSameTensor(layout, a, b, j);
    }
    assert a.Keys == b.Keys;
  }

  lemma SelectedMeanFits(layout: Gradient, selected: seq<Gradient>)
    requires AllFit(layout, selected) && Stackable(selected)
    ensures Fits(layout, MeanGradient(selected))
  {
    assert Fits(layout, selected[0]);
    assert MeanGradient(selected).Keys == layout.Keys;
  }

  /** `robust_aggregate` with Krum or Multi-Krum returns the gradient on which all honest peers agree. */
  lemma KrumConfigUnanimous(norm: Norm, all: seq<Gradient>, config: Config, bad: set<nat>, h: nat)
    requires |all| > 1 && AllFit(all[0], all) && IsL2(norm) && IsKrumCase(|all|, config, |bad|)
    requires h < |all| && h !in bad && forall i: nat | i < |all| && i !in bad :: all[i] == all[h]
    ensures Aggregate(norm, all, config) == all[h]
  {
    var f, m := EffectiveF(|all|, config), SelectionSize(|all|, config);
    KrumReturnsUnanimous(norm, all, f, m, bad, h);
    SelectedFits(norm, all, f, m);
    KrumIsAggregate(norm, all, config);
    var selected := Selected(norm, all, f, m);
    assert Fits(all[0], selected[0]) && Fits(all[0], all[h]);
    SelectedMeanFits(all[0], selected);
    SameFlatSameGradient(all[0], MeanGradient(selected), all[h]);
  }

  lemma BulyanWithin(norm: Norm, all: seq<Gradient>, f: nat, ratio: real, bad: set<nat>, name: string, x: nat, lo: real, hi: real)
    requires |all| >= 2 * f + 3 && AllFit(all[0], all) && Stackable(all) && name in all[0] && x < Numel(all[0][name].shape)
    requires TrimsEnough(|all| - 2 * f, ratio, |bad|) && HonestAt(all, bad, name, x, lo, hi)
    ensures Within(Bulyan(norm, all, f, ratio), name, x, lo, hi)
  {
    var m: nat := |all| - 2 * f;
    assert AtLeastOne(|all| - 2 * f) == m;
    BulyanValid(norm, all, f, m, ratio, bad, name, x, lo, hi);
  }

  lemma BulyanIsAggregate(norm: Norm, all: seq<Gradient>, config: Config)
    requires |all| > 1 && AllFit(all[0], all) && config.method_ == BULYAN
    ensures Aggregate(norm, all, config) == Bulyan(norm, all, EffectiveF(|all|, config), TrimRatio(config.trimRatio, 0.25))
  {
  }

  /** `robust_aggregate` with Bulyan keeps every coordinate in the honest range when enough is trimmed. */
  lemma BulyanConfigValid(norm: Norm, all: seq<Gradient>, config: Config, f: nat, ratio: real,
                          bad: set<nat>, name: string, x: nat, lo: real, hi: real)
    requires |all| > 1 && AllFit(all[0], all) && Stackable(all) && name in all[0] && x < Numel(all[0][name].shape)
    requires config.method_ == BULYAN && f == EffectiveF(|all|, config) && ratio == TrimRatio(config.trimRatio, 0.25)
    requires |all| >= 2 * f + 3 && TrimsEnough(|all| - 2 * f, ratio, |bad|)
    requires HonestAt(all, bad, name, x, lo, hi)
    ensures Within(Aggregate(norm, all, config), name, x, lo, hi)
  {
    BulyanIsAggregate(norm, all, config);
    BulyanWithin(norm, all, f, ratio, bad, name, x, lo, hi);
  }

  /** What a configuration must say for that: at least as many values trimmed from each end as there are adversaries, which
      the default ratio does for f <= 1 or n >= 6f. */
  predicate IsBulyanCase(n: nat, config: Config, adversaries: nat) {
    var f := EffectiveF(n, config);
    && config.method_ == BULYAN && n >= 2 * f + 3 && adversaries <= f
    && if config.trimRatio == 0.0 then f <= 1 || n >= 6 * f else TrimsEnough(n - 2 * f, config.trimRatio, adversaries)
  }

  lemma BulyanCaseTrims(n: nat, config: Config, adversaries: nat)
    requires IsBulyanCase(n, config, adversaries)
    ensures n >= 2 * EffectiveF(n, config) + 3
    ensures TrimsEnough(n - 2 * EffectiveF(n, config), TrimRatio(config.trimRatio, 0.25), adversaries)
  {
    BulyanDefaultQuarter(n, EffectiveF(n, config));
  }

  /** So it does in every such configuration, the default ratio included. */
  lemma BulyanCaseValid(norm: Norm, all: seq<Gradient>, config: Config, bad: set<nat>, name: string, x: nat, lo: real, hi: real)
    requires |all| > 1 && AllFit(all[0], all) && Stackable(all) && name in all[0] && x < Numel(all[0][name].shape)
    requires IsBulyanCase(|all|, config, |bad|) && HonestAt(all, bad, name, x, lo, hi)
    ensures Within(Aggregate(norm, all, config), name, x, lo, hi)
  {
    BulyanCaseTrims(|all|, config, |bad|);
    BulyanConfigValid(norm, all, config, EffectiveF(|all|, config), TrimRatio(config.trimRatio, 0.25), bad, name, x, lo, hi);
  }
}
