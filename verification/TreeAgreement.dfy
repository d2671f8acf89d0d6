/** When all peers leave `reduce_all` with one gradient, and when that is the flat mean: for every list of gradients. */
module TreeAgreement {
  import opened Sums
  import opened Vrf
  import opened Clusters
  import opened Gradients
  import opened Hierarchical
  import opened TreeMean
  import opened HierarchicalReduce

  /** What `reduce_all` returns: a lone gradient, the flat mean up to the threshold, the tree of rings beyond it. */
  ghost function Reduced(config: Config, members: seq<nat>, all: seq<Gradient>): (r: seq<Gradient>)
    requires config.clusterSize > 0 && IsPermutation(members, |all|)
    requires |all| > 1 ==> AllFit(all[0], all)
    ensures |r| == |all|
  {
    if |all| <= 1 then all
    else if |all| <= config.threshold then
      StackAll(all[0], all);
      seq(|all|, _ => MeanGradient(all))
    else TreeOf(all[0], all, members, config.clusterSize, config.depth)
  }

  /** `HierarchicalAllReduce.reduce_all`, as that function of its inputs. */
  method ReduceAllPeers(t: Topology, ghost members: seq<nat>, all: seq<Gradient>) returns (result: seq<Gradient>)
    requires BuiltFrom(t, members) && |all| == t.n
    requires |all| > 1 ==> AllFit(all[0], all)
    ensures result == Reduced(t.config, members, all)
  {
    result := HierarchicalReduce.ReduceAll(t, members, all);
    if |all| > 1 && |all| > t.config.threshold {
      TreeResultIs(all[0], all, result, members, t.config.clusterSize, t.config.depth);
    }
  }

  lemma FitFirst(layout: Gradient, all: seq<Gradient>)
    requires AllFit(layout, all) && |all| > 0
    ensures AllFit(all[0], all)
    ensures forall name: string, x: nat :: Coordinate(all[0], name, x) <==> Coordinate(layout, name, x)
  {
    assert Fits(layout, all[0]);
    forall i | 0 <= i < |all| ensures Fits(all[0], all[i]) {
      assert Fits(layout, all[i]);
    }
    forall name: string, x: nat ensures Coordinate(all[0], name, x) <==> Coordinate(layout, name, x) {
      assert name in all[0] <==> name in layout;
    }
  }

  // --- Gradients that carry given values ---

  /** Every entry of every tensor is `v`. */
  ghost function Constant(layout: Gradient, v: real): (r: Gradient)
    ensures Fits(layout, r)
    ensures forall name: string, x: nat | Coordinate(layout, name, x) :: r[name].data[x] == v
  {
    map name | name in layout :: Tensor(layout[name].shape, seq(Numel(layout[name].shape), _ => v))
  }

  /** The peer at place `pos` of the arrangement brings the constant gradient of `vals[pos]`. */
  ghost function Placed(layout: Gradient, members: seq<nat>, vals: seq<real>): (r: seq<Gradient>)
    requires IsPermutation(members, |members|) && |vals| == |members|
    ensures |r| == |vals|
    ensures forall g | 0 <= g < |r| :: r[g] == Constant(layout, vals[Inverse(members)[g]])
  {
    seq(|vals|, g requires 0 <= g < |vals| => Constant(layout, vals[Inverse(members)[g]]))
  }

  lemma PlacedValues(layout: Gradient, members: seq<nat>, vals: seq<real>, name: string, x: nat)
    requires IsPermutation(members, |members|) && |vals| == |members| && layout != map[] && WellFormed(layout)
    requires Coordinate(layout, name, x)
    ensures AllFit(layout, Placed(layout, members, vals))
    ensures Vals(Placed(layout, members, vals), members, name, x) == vals
  {
    var all := Placed(layout, members, vals);
    forall pos | 0 <= pos < |members| ensures Vals(all, members, name, x)[pos] == vals[pos] {
      FitValue(layout, all, members[pos], name, x);
      assert Inverse(members)[members[pos]] == pos;
    }
  }

  /** Beyond the threshold, the entry the peer at place `pos` is left with. */
  lemma ReducedEntry(config: Config, members: seq<nat>, all: seq<Gradient>, name: string, x: nat, pos: nat)
    requires config.clusterSize > 0 && IsPermutation(members, |all|) && |all| > 1 && |all| > config.threshold
    requires AllFit(all[0], all) && Coordinate(all[0], name, x) && pos < |all|
    ensures var r := Reduced(config, members, all)[members[pos]];
      && name in r && x < |r[name].data|
      && r[name].data[x] == Spread(Vals(all, members, name, x), config.clusterSize, config.depth)[pos]
  {
    assert Inverse(members)[members[pos]] == pos;
    PlaceResultFits(all[0], all, members, config.clusterSize, config.depth, pos);
  }

  // --- Agreement ---

  ghost predicate AllEqual(result: seq<Gradient>) {
    forall a, b | 0 <= a < |result| && 0 <= b < |result| :: result[a] == result[b]
  }

  ghost predicate PeersAgree(config: Config, members: seq<nat>, all: seq<Gradient>)
    requires config.clusterSize > 0 && IsPermutation(members, |members|) && |all| == |members|
  {
    (|all| > 1 ==> AllFit(all[0], all)) && AllEqual(Reduced(config, members, all))
  }

  /** Whatever the gradients of this layout, all peers are left with the same. */
  ghost predicate AlwaysAgree(config: Config, members: seq<nat>, layout: Gradient)
    requires config.clusterSize > 0 && IsPermutation(members, |members|)
  {
    forall all: seq<Gradient> | |all| == |members| && AllFit(layout, all) :: PeersAgree(config, members, all)
  }

  lemma TreeAgrees(layout: Gradient, all: seq<Gradient>, members: seq<nat>, k: nat, depth: nat)
    requires k > 0 && IsPermutation(members, |all|) && AllFit(layout, all) && |all| <= Pow(k, depth)
    ensures AllEqual(TreeOf(layout, all, members, k, depth))
  {
    var result := TreeOf(layout, all, members, k, depth);
    TreeOfMeets(layout, all, members, k, depth);
    forall a, b | 0 <= a < |result| && 0 <= b < |result| ensures result[a] == result[b] {
      AllPeersAgree(layout, all, result, members, k, depth, a, b);
    }
  }

  lemma RoomAgrees(config: Config, members: seq<nat>, layout: Gradient, all: seq<Gradient>)
    requires config.clusterSize > 0 && IsPermutation(members, |members|) && |all| == |members| && AllFit(layout, all)
    requires |members| <= config.threshold || |members| <= Pow(config.clusterSize, config.depth)
    ensures PeersAgree(config, members, all)
  {
    if |all| > 1 {
      FitFirst(layout, all);
      if |all| > config.threshold {
        TreeAgrees(all[0], all, members, config.clusterSize, config.depth);
      }
    }
  }

  lemma PowPositive(k: nat, depth: nat)
    requires k > 0
    ensures Pow(k, depth) >= 1
  {
    SingleTop(1, k, depth);
    OneStaysOne(k, depth);
  }

  /** Gradients on which a hierarchy without room splits the peers, whatever the arrangement and the layout. */
  lemma NoRoomSplitsPeers(config: Config, members: seq<nat>, layout: Gradient, name: string, x: nat)
    requires config.clusterSize > 0 && IsPermutation(members, |members|) && WellFormed(layout) && Coordinate(layout, name, x)
    requires |members| > config.threshold && |members| > Pow(config.clusterSize, config.depth)
    ensures var all := Placed(layout, members, Split(|members|, config.clusterSize, config.depth));
      AllFit(layout, all) && !PeersAgree(config, members, all)
  {
    var k, depth := config.clusterSize, config.depth;
    var vals := Split(|members|, k, depth);
    var all := Placed(layout, members, vals);
    PowPositive(k, depth);
    NoRoomMeansSplit(|members|, k, depth);
    PlacedValues(layout, members, vals, name, x);
    FitFirst(layout, all);
    var i, j :| 0 <= i < |vals| && 0 <= j < |vals| && Spread(vals, k, depth)[i] != Spread(vals, k, depth)[j];
    ReducedEntry(config, members, all, name, x, i);
    ReducedEntry(config, members, all, name, x, j);
  }

  /** All peers leave with one gradient, on every input of the layout, if and only if they are no more than the threshold
      or the hierarchy has room for them. */
  lemma PeersAgreeIff(config: Config, members: seq<nat>, layout: Gradient, name: string, x: nat)
    requires config.clusterSize > 0 && IsPermutation(members, |members|) && WellFormed(layout) && Coordinate(layout, name, x)
    ensures AlwaysAgree(config, members, layout)
       <==> |members| <= config.threshold || |members| <= Pow(config.clusterSize, config.depth)
  {
    if |members| <= config.threshold || |members| <= Pow(config.clusterSize, config.depth) {
      forall all: seq<Gradient> | |all| == |members| && AllFit(layout, all) ensures PeersAgree(config, members, all) {
        RoomAgrees(config, members, layout, all);
      }
    } else {
      NoRoomSplitsPeers(config, members, layout, name, x);
    }
  }

  // --- The flat mean ---

  ghost predicate PeersGetMean(config: Config, members: seq<nat>, all: seq<Gradient>)
    requires config.clusterSize > 0 && IsPermutation(members, |members|) && |all| == |members|
  {
    && (|all| > 1 ==> AllFit(all[0], all))
    && (|all| > 0 ==> Stackable(all) && forall g | 0 <= g < |all| :: Reduced(config, members, all)[g] == MeanGradient(all))
  }

  ghost predicate AlwaysMean(config: Config, members: seq<nat>, layout: Gradient)
    requires config.clusterSize > 0 && IsPermutation(members, |members|)
  {
    forall all: seq<Gradient> | |all| == |members| && AllFit(layout, all) :: PeersGetMean(config, members, all)
  }

  lemma EvenGetsMean(config: Config, members: seq<nat>, layout: Gradient, all: seq<Gradient>)
    requires config.clusterSize > 0 && IsPermutation(members, |members|) && |all| == |members| && AllFit(layout, all)
    requires |members| <= config.threshold
          || (|members| <= Pow(config.clusterSize, config.depth) && EvenLevels(|members|, config.clusterSize, config.depth))
    ensures PeersGetMean(config, members, all)
  {
    var k, depth := config.clusterSize, config.depth;
    if |all| > 0 {
      FitFirst(layout, all);
      StackAll(all[0], all);
    }
    if |all| == 1 {
      MeanOfOne(all[0], all[0]);
      assert all == [all[0]];
    } else if |all| > 1 && |all| > config.threshold {
      var result := Reduced(config, members, all);
      TreeOfMeets(all[0], all, members, k, depth);
      forall g | 0 <= g < |all| ensures result[g] == MeanGradient(all) {
        EvenTreeIsFlatRing(all[0], all, result, members, k, depth, g);
      }
    }
  }

  lemma MissedMean(config: Config, members: seq<nat>, layout: Gradient, name: string, x: nat, vals: seq<real>)
    requires config.clusterSize > 0 && IsPermutation(members, |members|) && WellFormed(layout) && Coordinate(layout, name, x)
    requires |members| > config.threshold && |members| > 1 && |vals| == |members|
    requires !SpreadsTheMean(vals, config.clusterSize, config.depth)
    ensures AllFit(layout, Placed(layout, members, vals)) && !PeersGetMean(config, members, Placed(layout, members, vals))
  {
    var k, depth, all := config.clusterSize, config.depth, Placed(layout, members, vals);
    PlacedValues(layout, members, vals, name, x);
    FitFirst(layout, all);
    var pos :| 0 <= pos < |vals| && Spread(vals, k, depth)[pos] != Mean(vals);
    ReducedEntry(config, members, all, name, x, pos);
    MeanOverArrangement(all[0], all, members, name, x);
  }

  lemma {:induction false} FewAreEven(k: nat, depth: nat, n: nat)
    requires k > 0 && n <= 1
    ensures EvenLevels(n, k, depth)
  {
    forall level | 0 <= level < depth ensures EvenLevel(CountAt(n, k, level), k) {
      if n == 1 { OneStaysOne(k, level); } else { NoPeersNoRounds(k, level); }
    }
  }

  /** Every peer leaves with the flat mean, on every input of the layout, if and only if they are no more than the threshold,
      or the hierarchy has room for them and every level splits evenly. */
  lemma PeersGetMeanIff(config: Config, members: seq<nat>, layout: Gradient, name: string, x: nat)
    requires config.clusterSize > 0 && IsPermutation(members, |members|) && WellFormed(layout) && Coordinate(layout, name, x)
    ensures AlwaysMean(config, members, layout)
       <==> (|members| <= config.threshold
             || (|members| <= Pow(config.clusterSize, config.depth) && EvenLevels(|members|, config.clusterSize, config.depth)))
  {
    var n, k, depth := |members|, config.clusterSize, config.depth;
    if n <= config.threshold || (n <= Pow(k, depth) && EvenLevels(n, k, depth)) {
      forall all: seq<Gradient> | |all| == n && AllFit(layout, all) ensures PeersGetMean(config, members, all) {
        EvenGetsMean(config, members, layout, all);
      }
    } else {
      PowPositive(k, depth);
      if n <= 1 { FewAreEven(k, depth, n); }
      FlatMeanIffEven(n, k, depth);
      var vals: seq<real> :| |vals| == n && !SpreadsTheMean(vals, k, depth);
      MissedMean(config, members, layout, name, x, vals);
    }
  }

  /** Seven peers in clusters of two, two levels: below the default threshold they agree, with a threshold of one they do not. */
  lemma SevenPeers(layout: Gradient, name: string, x: nat, members: seq<nat>)
    requires WellFormed(layout) && Coordinate(layout, name, x) && |members| == 7 && IsPermutation(members, 7)
    ensures AlwaysAgree(Config(2, 2, 64), members, layout) && !AlwaysAgree(Config(2, 2, 1), members, layout)
  {
    assert Pow(2, 0) == 1 && Pow(2, 1) == 2 && Pow(2, 2) == 4;
    PeersAgreeIff(Config(2, 2, 64), members, layout, name, x);
    PeersAgreeIff(Config(2, 2, 1), members, layout, name, x);
  }
}
