/** Running the tree of rings: bottom-up averaging, top-down broadcast, and what every peer holds afterwards. */
module HierarchicalReduce {
  import opened Sums
  import opened Sorting
  import opened Vrf
  import opened Clusters
  import opened Gradients
  import opened Hierarchical
  import opened TreeMean
  import AllReduce

  // --- Coordinates of the gradients ---

  predicate Coordinate(layout: Gradient, name: string, x: nat) {
    name in layout && x < Numel(layout[name].shape)
  }

  /** The value of one coordinate at peer `g`. */
  function ValueAt(all: seq<Gradient>, name: string, x: nat): nat -> real {
    (g: nat) => if g < |all| && name in all[g] && x < |all[g][name].data| then all[g][name].data[x] else 0.0
  }

  function Vals(all: seq<Gradient>, members: seq<nat>, name: string, x: nat): (r: seq<real>)
    ensures |r| == |members|
  {
    Map(ValueAt(all, name, x), members)
  }

  lemma FitValue(layout: Gradient, all: seq<Gradient>, g: nat, name: string, x: nat)
    requires AllFit(layout, all) && Coordinate(layout, name, x) && g < |all|
    ensures name in all[g] && x < |all[g][name].data|
    ensures ValueAt(all, name, x)(g) == all[g][name].data[x]
  {
    assert Fits(layout, all[g]);
  }

  // --- One level of averaging ---

  /** Every member of the cluster holds the mean of what the members held before. */
  ghost predicate Averaged(before: seq<Gradient>, after: seq<Gradient>, cluster: seq<nat>) {
    && |after| == |before| && Below(cluster, |before|) && Stackable(Pick(before, cluster))
    && forall g | g in cluster :: after[g] == MeanGradient(Pick(before, cluster))
  }

  lemma MeanOfOne(layout: Gradient, g: Gradient)
    requires layout != map[] && WellFormed(layout) && Fits(layout, g)
    ensures Stackable([g]) && MeanGradient([g]) == g
  {
    var mean := MeanGradient([g]);
    assert mean.Keys == g.Keys;
    forall name | name in g ensures mean[name] == g[name] {
      forall x | 0 <= x < |g[name].data| ensures mean[name].data[x] == g[name].data[x] {
        assert Column([g], name, x) == [g[name].data[x]];
        MeanConstant(Column([g], name, x), g[name].data[x]);
      }
    }
  }

  lemma SingletonAveraged(layout: Gradient, all: seq<Gradient>, cluster: seq<nat>)
    requires AllFit(layout, all) && |cluster| == 1 && Below(cluster, |all|)
    ensures Averaged(all, all, cluster)
  {
    var g := cluster[0];
    assert g in cluster;
    MeanOfOne(layout, all[g]);
    assert Pick(all, cluster) == [all[g]];
  }

  method WriteBack(working: seq<Gradient>, cluster: seq<nat>, reduced: seq<Gradient>, ghost mean: Gradient, ghost layout: Gradient)
    returns (after: seq<Gradient>)
    requires Below(cluster, |working|) && AllFit(layout, working) && Fits(layout, mean)
    requires |reduced| == |cluster| && forall i | 0 <= i < |cluster| :: reduced[i] == mean
    ensures |after| == |working| && AllFit(layout, after)
    ensures forall g: nat | g < |working| :: after[g] == if g in cluster then mean else working[g]
  {
    after := working;
    for i := 0 to |cluster|
      invariant |after| == |working| && AllFit(layout, after)
      invariant forall g: nat | g < |working| :: after[g] == if g in cluster[..i] then mean else working[g]
    {
      assert cluster[i] in cluster;
      after := after[cluster[i] := reduced[i]];
      assert cluster[..i + 1] == cluster[..i] + [cluster[i]];
    }
    assert cluster[..|cluster|] == cluster;
  }

  /** The ring of one cluster writes the cluster mean to all its members and touches nobody else. */
  method ReduceCluster(working: seq<Gradient>, cluster: seq<nat>, ghost layout: Gradient) returns (after: seq<Gradient>)
    requires cluster != [] && Distinct(cluster) && Below(cluster, |working|) && AllFit(layout, working)
    ensures AllFit(layout, after) && Averaged(working, after, cluster)
    ensures forall g: nat | g < |working| && g !in cluster :: after[g] == working[g]
  {
    after := working;
    PickFits(layout, working, cluster);
    if |cluster| <= 1 {
      SingletonAveraged(layout, working, cluster);
      return;
    }
    var memberGrads := Pick(working, cluster);
    var reduced := AllReduce.ReduceAll(memberGrads);
    after := WriteBack(working, cluster, reduced, MeanGradient(memberGrads), layout);
  }

  /** What running a level relies on: nonempty clusters of known peers, no two of which overlap. */
  ghost predicate Disjoint(level: seq<seq<nat>>, n: nat) {
    && (forall c | 0 <= c < |level| :: level[c] != [] && Distinct(level[c]) && Below(level[c], n))
    && (forall c, d, g | 0 <= c < |level| && 0 <= d < |level| && g in level[c] && g in level[d] :: c == d)
  }

  lemma LevelDisjoint(members: seq<nat>, k: nat, n: nat)
    requires k > 0 && Distinct(members) && Below(members, n)
    ensures Disjoint(LevelOf(members, k), n)
  {
    forall c | 0 <= c < |LevelOf(members, k)|
      ensures LevelOf(members, k)[c] != [] && Distinct(LevelOf(members, k)[c]) && Below(LevelOf(members, k)[c], n)
    {
      LevelCluster(members, k, c);
      ClusterDistinct(members, k, c);
      forall g | g in LevelOf(members, k)[c] ensures g in members {
        LevelMember(members, k, c, g);
      }
    }
    forall c, d, g | 0 <= c < |LevelOf(members, k)| && 0 <= d < |LevelOf(members, k)|
         && g in LevelOf(members, k)[c] && g in LevelOf(members, k)[d]
      ensures c == d
    {
      OneCluster(members, k, c, d, g);
    }
  }

  /** The clusters whose ring has run hold their means of the old values, the others their old values. */
  ghost predicate HalfRun(before: seq<Gradient>, now: seq<Gradient>, level: seq<seq<nat>>, todo: set<nat>) {
    && |now| == |before|
    && (forall c | 0 <= c < |level| && c in todo :: Below(level[c], |now|) && forall g | g in level[c] :: now[g] == before[g])
    && (forall c | 0 <= c < |level| && c !in todo :: Averaged(before, now, level[c]))
  }

  lemma ClusterDone(before: seq<Gradient>, now: seq<Gradient>, after: seq<Gradient>, level: seq<seq<nat>>, todo: set<nat>, c: nat)
    requires Disjoint(level, |before|) && c < |level| && c in todo
    requires HalfRun(before, now, level, todo) && Averaged(now, after, level[c])
    requires forall g: nat | g < |now| && g !in level[c] :: after[g] == now[g]
    ensures HalfRun(before, after, level, todo - {c})
  {
    assert Pick(now, level[c]) == Pick(before, level[c]);
    forall d, g | 0 <= d < |level| && d != c && g in level[d] ensures g < |now| && after[g] == now[g] {
      assert Below(level[d], |now|);
      assert g !in level[c];
    }
  }

  /** Phase 1 for one level: every cluster runs its ring, in whatever order. */
  method ReduceLevel(working: seq<Gradient>, clusters: Level, ghost level: seq<seq<nat>>, ghost layout: Gradient)
    returns (after: seq<Gradient>)
    requires Disjoint(level, |working|) && clusters == LevelMap(level) && AllFit(layout, working)
    ensures AllFit(layout, after) && HalfRun(working, after, level, {})
  {
    after := working;
    var todo := clusters.Keys;
    while todo != {}
      invariant todo <= clusters.Keys
      invariant AllFit(layout, after) && HalfRun(working, after, level, todo)
      decreases todo
    {
      var c :| c in todo;
      ghost var now := after;
      after := ReduceCluster(after, clusters[c], layout);
      ClusterDone(working, now, after, level, todo, c);
      todo := todo - {c};
    }
  }

  // --- What averaging a level does to one coordinate ---

  lemma {:induction false} SameChunkSize<S, T>(a: seq<S>, b: seq<T>, k: nat, c: nat)
    requires k > 0 && |a| == |b| && c < |Chunks(a, k)|
    ensures c < |Chunks(b, k)| && |Chunks(a, k)[c]| == |Chunks(b, k)[c]|
    decreases |a|
  {
    if |a| <= k || c == 0 {
    } else {
      SameChunkSize(a[k..], b[k..], k, c - 1);
    }
  }

  lemma MapChunk(f: nat -> real, members: seq<nat>, k: nat, c: nat)
    requires k > 0 && c < |Chunks(members, k)|
    ensures c < |Chunks(Map(f, members), k)|
    ensures Chunks(Map(f, members), k)[c] == Map(f, Chunks(members, k)[c])
  {
    var vals, chunk := Map(f, members), Chunks(members, k)[c];
    SameChunkSize(members, vals, k, c);
    forall j | 0 <= j < |chunk| ensures Chunks(vals, k)[c][j] == f(chunk[j]) {
      ChunkPlace(members, k, c, j);
      ChunkPlace(vals, k, c, j);
    }
  }

  /** The mean over a cluster, whatever its internal order, is the mean over its block of the arrangement. */
  lemma ClusterMeanIsUp(f: nat -> real, members: seq<nat>, k: nat, c: nat)
    requires k > 0 && c < |LevelOf(members, k)|
    ensures |LevelOf(members, k)[c]| > 0
    ensures Mean(Map(f, LevelOf(members, k)[c])) == Up(Map(f, members), k)[c]
  {
    var cluster, chunk := LevelOf(members, k)[c], Chunks(members, k)[c];
    LevelCluster(members, k, c);
    MapPermutation(f, cluster, chunk);
    MeanPermutation(Map(f, cluster), Map(f, chunk));
    ChunkCount(Map(f, members), k);
    MapChunk(f, members, k, c);
  }

  lemma PickedCoordinate(layout: Gradient, all: seq<Gradient>, cluster: seq<nat>, name: string, x: nat)
    requires AllFit(layout, all) && Coordinate(layout, name, x) && cluster != [] && Below(cluster, |all|)
    ensures Stackable(Pick(all, cluster))
    ensures var mean := MeanGradient(Pick(all, cluster));
      name in mean && x < |mean[name].data| && mean[name].data[x] == Mean(Vals(all, cluster, name, x))
  {
    PickFits(layout, all, cluster);
    var picked: seq<Gradient> := Pick(all, cluster);
    forall i: nat | i < |cluster|
      ensures name in picked[i] && x < |picked[i][name].data|
      ensures picked[i][name].data[x] == Vals(all, cluster, name, x)[i]
    {
      assert cluster[i] in cluster;
      FitValue(layout, all, cluster[i], name, x);
    }
    assert Column(picked, name, x) == Vals(all, cluster, name, x);
  }

  /** Seen from the leaders, averaging a level is one step up. */
  lemma LevelIsUp(layout: Gradient, before: seq<Gradient>, after: seq<Gradient>, members: seq<nat>, k: nat, name: string, x: nat)
    requires k > 0 && Below(members, |before|) && AllFit(layout, before) && AllFit(layout, after)
    requires Coordinate(layout, name, x) && HalfRun(before, after, LevelOf(members, k), {})
    ensures Vals(after, Next(members, k), name, x) == Up(Vals(before, members, name, x), k)
  {
    var next := Next(members, k);
    forall c | 0 <= c < |next| ensures Vals(after, next, name, x)[c] == Up(Vals(before, members, name, x), k)[c] {
      var cluster := LevelOf(members, k)[c];
      NextMembers(members, k, c);
      assert Averaged(before, after, cluster);
      PickedCoordinate(layout, before, cluster, name, x);
      FitValue(layout, after, next[c], name, x);
      ClusterMeanIsUp(ValueAt(before, name, x), members, k, c);
    }
  }

  /** Bottom-up phase: at level `level` the members hold the means of their subtrees, on every coordinate. */
  ghost predicate Risen(layout: Gradient, all: seq<Gradient>, working: seq<Gradient>, members: seq<nat>, k: nat, level: nat)
    requires k > 0
  {
    forall name: string, x: nat | Coordinate(layout, name, x) ::
      Vals(working, MembersAt(members, k, level), name, x) == UpTo(Vals(all, members, name, x), k, level)
  }

  lemma MembersBelow(members: seq<nat>, k: nat, level: nat)
    requires k > 0 && IsPermutation(members, |members|)
    ensures Distinct(MembersAt(members, k, level)) && Below(MembersAt(members, k, level), |members|)
    ensures |MembersAt(members, k, level)| == CountAt(|members|, k, level)
  {
    MembersAtFacts(members, k, level);
    forall g | g in MembersAt(members, k, level) ensures g < |members| {
      var i :| 0 <= i < |members| && members[i] == g;
    }
  }

  method BottomUp(t: Topology, ghost members: seq<nat>, all: seq<Gradient>, ghost layout: Gradient)
    returns (working: seq<Gradient>)
    requires BuiltFrom(t, members) && |all| == t.n && AllFit(layout, all)
    ensures |working| == t.n && AllFit(layout, working)
    ensures Risen(layout, all, working, members, t.config.clusterSize, t.config.depth)
  {
    ghost var k := t.config.clusterSize;
    working := all;
    for level := 0 to t.config.depth
      invariant |working| == t.n && AllFit(layout, working)
      invariant Risen(layout, all, working, members, k, level)
    {
      ghost var m := MembersAt(members, k, level);
      MembersBelow(members, k, level);
      LevelDisjoint(m, k, t.n);
      ghost var before := working;
      working := ReduceLevel(working, t.clusters[level], LevelOf(m, k), layout);
      forall name: string, x: nat | Coordinate(layout, name, x)
        ensures Vals(working, MembersAt(members, k, level + 1), name, x) == UpTo(Vals(all, members, name, x), k, level + 1)
      {
        LevelIsUp(layout, before, working, m, k, name, x);
      }
    }
  }

  // --- Phase 2: the leaders pass the result down ---

  ghost predicate Told(before: seq<Gradient>, now: seq<Gradient>, cluster: seq<nat>, g: nat, pending: bool) {
    && cluster != [] && g < |before| && cluster[0] < |before| && |now| == |before|
    && now[g] == if pending then before[g] else before[cluster[0]]
  }

  /** The clusters told so far hold what their leader held; the others are as before. */
  ghost predicate HalfHanded(before: seq<Gradient>, now: seq<Gradient>, level: seq<seq<nat>>, todo: set<nat>) {
    && |now| == |before|
    && (forall c | 0 <= c < |level| :: level[c] != [] && Below(level[c], |before|))
    && (forall c, g | 0 <= c < |level| && g in level[c] ::
         Told(before, now, level[c], g, c in todo))
  }

  method TellCluster(working: seq<Gradient>, cluster: seq<nat>, leader: nat, ghost layout: Gradient) returns (after: seq<Gradient>)
    requires cluster != [] && leader == cluster[0] && Below(cluster, |working|) && AllFit(layout, working)
    ensures |after| == |working| && AllFit(layout, after)
    ensures cluster[0] in cluster
    ensures forall g | g in cluster :: after[g] == working[cluster[0]]
    ensures forall g: nat | g < |working| && g !in cluster :: after[g] == working[g]
  {
    assert cluster[0] in cluster;
    after := working;
    if |cluster| <= 1 {
      return;
    }
    for i := 0 to |cluster|
      invariant |after| == |working| && AllFit(layout, after)
      invariant forall g: nat | g < |working| ::
          after[g] == if g in cluster[..i] then working[leader] else working[g]
    {
      assert cluster[i] in cluster;
      if cluster[i] != leader {
        after := after[cluster[i] := after[leader]];
      }
      assert cluster[..i + 1] == cluster[..i] + [cluster[i]];
    }
    assert cluster[..|cluster|] == cluster;
  }

  lemma ClusterTold(before: seq<Gradient>, now: seq<Gradient>, after: seq<Gradient>, level: seq<seq<nat>>, todo: set<nat>, c: nat)
    requires Disjoint(level, |before|) && c < |level| && c in todo && HalfHanded(before, now, level, todo)
    requires |after| == |now| && level[c][0] in level[c]
    requires forall g | g in level[c] :: after[g] == now[level[c][0]]
    requires forall g: nat | g < |now| && g !in level[c] :: after[g] == now[g]
    ensures HalfHanded(before, after, level, todo - {c})
  {
    forall d, g | 0 <= d < |level| && g in level[d] ensures Told(before, after, level[d], g, d in todo - {c}) {
      assert Told(before, now, level[d], g, d in todo);
      if d == c {
        assert Told(before, now, level[c], level[c][0], true);
      } else {
        assert g !in level[c];
      }
    }
  }

  method TellLevel(working: seq<Gradient>, clusters: Level, leaders: map<nat, nat>, ghost level: seq<seq<nat>>, ghost layout: Gradient)
    returns (after: seq<Gradient>)
    requires Disjoint(level, |working|) && clusters == LevelMap(level) && AllFit(layout, working)
    requires forall c: nat :: c in leaders <==> c < |level|
    requires forall c | 0 <= c < |level| :: leaders[c] == level[c][0]
    ensures AllFit(layout, after) && HalfHanded(working, after, level, {})
  {
    after := working;
    var todo := clusters.Keys;
    assert forall c | 0 <= c < |level| :: level[c][0] in level[c];
    while todo != {}
      invariant todo <= clusters.Keys
      invariant AllFit(layout, after) && HalfHanded(working, after, level, todo)
      decreases todo
    {
      var c :| c in todo;
      ghost var now := after;
      after := TellCluster(after, clusters[c], leaders[c], layout);
      ClusterTold(working, now, after, level, todo, c);
      todo := todo - {c};
    }
  }

  ghost predicate HandedTo(working: seq<Gradient>, top: seq<Gradient>, g: nat, block: nat) {
    g < |working| && block < |top| && working[g] == top[block]
  }

  /** Top-down phase: from level `level` on, every member holds the result of the top block it climbs to. */
  ghost predicate Handed(working: seq<Gradient>, top: seq<Gradient>, members: seq<nat>, k: nat, depth: nat, level: nat)
    requires k > 0 && level <= depth
  {
    forall i | 0 <= i < |MembersAt(members, k, level)| ::
      HandedTo(working, top, MembersAt(members, k, level)[i], Climb(i, k, depth - level))
  }

  lemma MemberFromLeader(before: seq<Gradient>, after: seq<Gradient>, m: seq<nat>, k: nat, i: nat)
    requires k > 0 && i < |m| && m[i] < |before|
    requires HalfHanded(before, after, LevelOf(m, k), {})
    ensures i / k < |Next(m, k)| && Next(m, k)[i / k] < |before| && |after| == |before|
    ensures after[m[i]] == before[Next(m, k)[i / k]]
  {
    PlaceInLevel(m, k, i);
    LevelsNonempty(m, k);
    assert Told(before, after, LevelOf(m, k)[i / k], m[i], false);
  }

  lemma TellMember(before: seq<Gradient>, after: seq<Gradient>, top: seq<Gradient>, m: seq<nat>, k: nat, levels: nat, i: nat)
    requires k > 0 && levels > 0 && i < |m| && m[i] < |before|
    requires HalfHanded(before, after, LevelOf(m, k), {})
    requires forall c | 0 <= c < |Next(m, k)| :: HandedTo(before, top, Next(m, k)[c], Climb(c, k, levels - 1))
    ensures HandedTo(after, top, m[i], Climb(i, k, levels))
  {
    MemberFromLeader(before, after, m, k, i);
    assert HandedTo(before, top, Next(m, k)[i / k], Climb(i / k, k, levels - 1));
  }

  lemma TellDown(before: seq<Gradient>, after: seq<Gradient>, top: seq<Gradient>, members: seq<nat>, k: nat, depth: nat, level: nat)
    requires k > 0 && level < depth && IsPermutation(members, |members|) && |before| == |members|
    requires Handed(before, top, members, k, depth, level + 1)
    requires HalfHanded(before, after, LevelAt(members, k, level), {})
    ensures Handed(after, top, members, k, depth, level)
  {
    var m := MembersAt(members, k, level);
    MembersBelow(members, k, level);
    assert MembersAt(members, k, level + 1) == Next(m, k);
    forall i | 0 <= i < |m| ensures HandedTo(after, top, m[i], Climb(i, k, depth - level)) {
      assert m[i] in m;
      TellMember(before, after, top, m, k, depth - level, i);
    }
  }

  method TopDown(t: Topology, ghost members: seq<nat>, start: seq<Gradient>, ghost layout: Gradient)
    returns (working: seq<Gradient>)
    requires BuiltFrom(t, members) && |start| == t.n && AllFit(layout, start)
    ensures |working| == t.n && AllFit(layout, working)
    ensures Below(MembersAt(members, t.config.clusterSize, t.config.depth), t.n)
    ensures Handed(working, Pick(start, MembersAt(members, t.config.clusterSize, t.config.depth)),
                  members, t.config.clusterSize, t.config.depth, 0)
  {
    ghost var k, depth := t.config.clusterSize, t.config.depth;
    MembersBelow(members, k, depth);
    ghost var top := Pick(start, MembersAt(members, k, depth));
    working := start;
    var level := t.config.depth;
    while level > 0
      invariant 0 <= level <= depth && |working| == t.n && AllFit(layout, working)
      invariant Handed(working, top, members, k, depth, level)
    {
      level := level - 1;
      ghost var m := MembersAt(members, k, level);
      MembersBelow(members, k, level);
      LevelDisjoint(m, k, t.n);
      LevelsNonempty(m, k);
      ghost var before := working;
      working := TellLevel(working, t.clusters[level], t.leaders[level], LevelOf(m, k), layout);
      TellDown(before, working, top, members, k, depth, level);
    }
  }

  // --- The whole run ---

  /** The peer at place `pos` of the arrangement ends with the mean of means of the top block it climbs to. */
  ghost predicate TreeResult(layout: Gradient, all: seq<Gradient>, result: seq<Gradient>, members: seq<nat>, k: nat, depth: nat)
    requires k > 0
  {
    && IsPermutation(members, |all|) && |result| == |all| && AllFit(layout, result)
    && forall name: string, x: nat | Coordinate(layout, name, x) ::
        Vals(result, members, name, x) == Spread(Vals(all, members, name, x), k, depth)
  }

  lemma HandedIsSpread(layout: Gradient, all: seq<Gradient>, risen: seq<Gradient>, result: seq<Gradient>,
                       members: seq<nat>, k: nat, depth: nat, name: string, x: nat)
    requires k > 0 && IsPermutation(members, |all|) && |risen| == |result| == |all|
    requires AllFit(layout, risen) && AllFit(layout, result) && Coordinate(layout, name, x)
    requires Risen(layout, all, risen, members, k, depth)
    requires Below(MembersAt(members, k, depth), |all|)
    requires Handed(result, Pick(risen, MembersAt(members, k, depth)), members, k, depth, 0)
    ensures Vals(result, members, name, x) == Spread(Vals(all, members, name, x), k, depth)
  {
    var top := MembersAt(members, k, depth);
    var vals := Vals(all, members, name, x);
    forall pos | 0 <= pos < |members| ensures Vals(result, members, name, x)[pos] == Spread(vals, k, depth)[pos] {
      ClimbInRange(pos, |members|, k, depth);
      var c := Climb(pos, k, depth);
      assert HandedTo(result, Pick(risen, top), MembersAt(members, k, 0)[pos], c);
      assert top[c] in top;
      FitValue(layout, result, members[pos], name, x);
      FitValue(layout, risen, top[c], name, x);
      assert Vals(risen, top, name, x)[c] == UpTo(vals, k, depth)[c];
    }
  }

  /** `HierarchicalAllReduce.reduce_all`. */
  method ReduceAll(t: Topology, ghost members: seq<nat>, all: seq<Gradient>) returns (result: seq<Gradient>)
    requires BuiltFrom(t, members) && |all| == t.n
    requires |all| > 1 ==> AllFit(all[0], all)
    ensures |result| == |all|
    ensures |all| == 1 ==> result == all
    ensures 1 < |all| <= t.config.threshold ==>
        Stackable(all) && forall g | 0 <= g < |all| :: result[g] == MeanGradient(all)
    ensures |all| > 1 && |all| > t.config.threshold ==>
        TreeResult(all[0], all, result, members, t.config.clusterSize, t.config.depth)
  {
    if t.n == 0 {
      return [];
    }
    if t.n == 1 {
      return [all[0]];
    }
    ghost var layout := all[0];
    if t.n <= t.config.threshold {
      result := AllReduce.ReduceAll(all);
      return;
    }
    var working := BottomUp(t, members, all, layout);
    result := TopDown(t, members, working, layout);
    ghost var k, depth := t.config.clusterSize, t.config.depth;
    forall name: string, x: nat | Coordinate(layout, name, x)
      ensures Vals(result, members, name, x) == Spread(Vals(all, members, name, x), k, depth)
    {
      HandedIsSpread(layout, all, working, result, members, k, depth, name, x);
    }
  }

  // --- What this means for the peers ---

  lemma PlaceOf(members: seq<nat>, n: nat, g: nat) returns (pos: nat)
    requires IsPermutation(members, n) && g < n
    ensures pos < n && members[pos] == g
  {
    PermutationOnto(members, n);
    pos := IndexOf(members, g);
  }

  lemma ResultValue(layout: Gradient, all: seq<Gradient>, result: seq<Gradient>, members: seq<nat>, k: nat, depth: nat,
                    g: nat, name: string, x: nat)
    returns (pos: nat)
    requires k > 0 && TreeResult(layout, all, result, members, k, depth) && Coordinate(layout, name, x) && g < |all|
    ensures pos < |all| && members[pos] == g
    ensures name in result[g] && x < |result[g][name].data|
    ensures result[g][name].data[x] == Spread(Vals(all, members, name, x), k, depth)[pos]
  {
    pos := PlaceOf(members, |all|, g);
    FitValue(layout, result, g, name, x);
    assert Vals(result, members, name, x)[pos] == ValueAt(result, name, x)(g);
  }

  lemma SameGradient(layout: Gradient, a: Gradient, b: Gradient)
    requires Fits(layout, a) && Fits(layout, b) && WellFormed(layout)
    requires forall name: string, x: nat | Coordinate(layout, name, x) ::
        name in a && x < |a[name].data| && name in b && x < |b[name].data| && a[name].data[x] == b[name].data[x]
    ensures a == b
  {
    assert a.Keys == b.Keys;
    forall name | name in a ensures a[name] == b[name] {
      assert |a[name].data| == Numel(layout[name].shape) == |b[name].data|;
      forall x: nat | x < |a[name].data| ensures a[name].data[x] == b[name].data[x] {
        assert Coordinate(layout, name, x);
      }
      assert a[name].data == b[name].data;
      assert a[name].shape == b[name].shape;
    }
  }

  /** What the peer at place `pos` of the arrangement is left with. */
  ghost function PlaceResult(layout: Gradient, all: seq<Gradient>, members: seq<nat>, k: nat, depth: nat, pos: nat): (r: Gradient)
    requires k > 0 && pos < |members|
    ensures r.Keys == layout.Keys
  {
    map name | name in layout ::
      Tensor(layout[name].shape,
             seq(Numel(layout[name].shape), x requires 0 <= x < Numel(layout[name].shape) =>
               Spread(Vals(all, members, name, x), k, depth)[pos]))
  }

  /** The results of the tree of rings, one for each peer. */
  ghost function TreeOf(layout: Gradient, all: seq<Gradient>, members: seq<nat>, k: nat, depth: nat): (r: seq<Gradient>)
    requires k > 0 && IsPermutation(members, |all|)
    ensures |r| == |all|
  {
    seq(|all|, g requires 0 <= g < |all| => PlaceResult(layout, all, members, k, depth, Inverse(members)[g]))
  }

  lemma PlaceResultFits(layout: Gradient, all: seq<Gradient>, members: seq<nat>, k: nat, depth: nat, pos: nat)
    requires k > 0 && pos < |members| && WellFormed(layout)
    ensures Fits(layout, PlaceResult(layout, all, members, k, depth, pos))
    ensures forall name: string, x: nat | Coordinate(layout, name, x) ::
      PlaceResult(layout, all, members, k, depth, pos)[name].data[x] == Spread(Vals(all, members, name, x), k, depth)[pos]
  {
  }

  lemma TreeOfMeets(layout: Gradient, all: seq<Gradient>, members: seq<nat>, k: nat, depth: nat)
    requires k > 0 && AllFit(layout, all) && IsPermutation(members, |all|)
    ensures TreeResult(layout, all, TreeOf(layout, all, members, k, depth), members, k, depth)
  {
    var tree := TreeOf(layout, all, members, k, depth);
    forall g | 0 <= g < |tree| ensures Fits(layout, tree[g]) {
      PlaceResultFits(layout, all, members, k, depth, Inverse(members)[g]);
    }
    forall name: string, x: nat | Coordinate(layout, name, x)
      ensures Vals(tree, members, name, x) == Spread(Vals(all, members, name, x), k, depth)
    {
      forall pos | 0 <= pos < |members|
        ensures Vals(tree, members, name, x)[pos] == Spread(Vals(all, members, name, x), k, depth)[pos]
      {
        PlaceResultFits(layout, all, members, k, depth, pos);
        FitValue(layout, tree, members[pos], name, x);
        assert Inverse(members)[members[pos]] == pos;
      }
    }
  }

  /** These results meet the contract of the run, and nothing else does. */
  lemma TreeResultIs(layout: Gradient, all: seq<Gradient>, result: seq<Gradient>, members: seq<nat>, k: nat, depth: nat)
    requires k > 0 && AllFit(layout, all) && IsPermutation(members, |all|)
    ensures TreeResult(layout, all, result, members, k, depth) <==> result == TreeOf(layout, all, members, k, depth)
  {
    var tree := TreeOf(layout, all, members, k, depth);
    TreeOfMeets(layout, all, members, k, depth);
    if TreeResult(layout, all, result, members, k, depth) {
      forall g | 0 <= g < |all| ensures result[g] == tree[g] {
        forall name: string, x: nat | Coordinate(layout, name, x)
          ensures name in result[g] && x < |result[g][name].data|
          ensures name in tree[g] && x < |tree[g][name].data|
          ensures result[g][name].data[x] == tree[g][name].data[x]
        {
          var i := ResultValue(layout, all, result, members, k, depth, g, name, x);
          var j := ResultValue(layout, all, tree, members, k, depth, g, name, x);
          assert Inverse(members)[members[i]] == i && Inverse(members)[members[j]] == j;
        }
        SameGradient(layout, result[g], tree[g]);
      }
    }
  }

  /** With room for every peer, all peers leave with the same gradient. */
  lemma AllPeersAgree(layout: Gradient, all: seq<Gradient>, result: seq<Gradient>, members: seq<nat>, k: nat, depth: nat,
                      a: nat, b: nat)
    requires k > 0 && TreeResult(layout, all, result, members, k, depth) && |all| <= Pow(k, depth)
    requires a < |all| && b < |all|
    ensures result[a] == result[b]
  {
    forall name: string, x: nat | Coordinate(layout, name, x)
      ensures name in result[a] && x < |result[a][name].data|
      ensures name in result[b] && x < |result[b][name].data|
      ensures result[a][name].data[x] == result[b][name].data[x]
    {
      var i := ResultValue(layout, all, result, members, k, depth, a, name, x);
      var j := ResultValue(layout, all, result, members, k, depth, b, name, x);
      RoomMeansAgreement(Vals(all, members, name, x), k, depth);
    }
    SameGradient(layout, result[a], result[b]);
  }

  /** Every coordinate of every result lies between the least and the greatest input there. */
  lemma ResultsWithinInputs(layout: Gradient, all: seq<Gradient>, result: seq<Gradient>, members: seq<nat>, k: nat, depth: nat,
                            g: nat, name: string, x: nat, lo: real, hi: real)
    requires k > 0 && TreeResult(layout, all, result, members, k, depth) && AllFit(layout, all)
    requires Coordinate(layout, name, x) && g < |all|
    requires forall i | 0 <= i < |all| :: name in all[i] && x < |all[i][name].data| && lo <= all[i][name].data[x] <= hi
    ensures name in result[g] && x < |result[g][name].data| && lo <= result[g][name].data[x] <= hi
  {
    var pos := ResultValue(layout, all, result, members, k, depth, g, name, x);
    SpreadBounds(Vals(all, members, name, x), k, depth, lo, hi);
  }

  lemma StackAll(layout: Gradient, all: seq<Gradient>)
    requires AllFit(layout, all) && |all| > 0
    ensures Stackable(all) && Fits(layout, MeanGradient(all))
  {
    var everyone := Identity(|all|);
    assert Pick(all, everyone) == all;
    PickFits(layout, all, everyone);
  }

  lemma PermutationMultiset(p: seq<nat>, q: seq<nat>)
    requires IsPermutation(p, |p|) && IsPermutation(q, |p|)
    ensures multiset(p) == multiset(q)
  {
    PermutationOnto(p, |p|);
    PermutationOnto(q, |p|);
    DistinctMultiset(p);
    DistinctMultiset(q);
    forall v ensures v in p <==> v in q {
      if v in p { var i :| 0 <= i < |p| && p[i] == v; }
      if v in q { var i :| 0 <= i < |q| && q[i] == v; }
    }
  }

  lemma MeanRearranged(f: nat -> real, p: seq<nat>, q: seq<nat>)
    requires |p| > 0 && IsPermutation(p, |p|) && IsPermutation(q, |p|)
    ensures Mean(Map(f, p)) == Mean(Map(f, q))
  {
    PermutationMultiset(p, q);
    MapPermutation(f, p, q);
    MeanPermutation(Map(f, p), Map(f, q));
  }

  /** The mean does not depend on the arrangement of the peers. */
  lemma MeanOverArrangement(layout: Gradient, all: seq<Gradient>, members: seq<nat>, name: string, x: nat)
    requires AllFit(layout, all) && |all| > 0 && IsPermutation(members, |all|) && Coordinate(layout, name, x)
    ensures Stackable(all)
    ensures var mean := MeanGradient(all);
      name in mean && x < |mean[name].data| && mean[name].data[x] == Mean(Vals(all, members, name, x))
  {
    var everyone := Identity(|all|);
    assert Pick(all, everyone) == all;
    PickedCoordinate(layout, all, everyone, name, x);
    MeanRearranged(ValueAt(all, name, x), members, everyone);
  }

  /** With room and even levels the tree gives what the flat ring gives. */
  lemma EvenTreeIsFlatRing(layout: Gradient, all: seq<Gradient>, result: seq<Gradient>, members: seq<nat>, k: nat, depth: nat, g: nat)
    requires k > 0 && TreeResult(layout, all, result, members, k, depth) && AllFit(layout, all) && g < |all|
    requires |all| <= Pow(k, depth) && EvenLevels(|all|, k, depth)
    ensures Stackable(all) && result[g] == MeanGradient(all)
  {
    StackAll(layout, all);
    forall name: string, x: nat | Coordinate(layout, name, x)
      ensures name in result[g] && x < |result[g][name].data|
      ensures name in MeanGradient(all) && x < |MeanGradient(all)[name].data|
      ensures result[g][name].data[x] == MeanGradient(all)[name].data[x]
    {
      var pos := ResultValue(layout, all, result, members, k, depth, g, name, x);
      EvenMeansFlatMean(Vals(all, members, name, x), k, depth);
      MeanOverArrangement(layout, all, members, name, x);
    }
    SameGradient(layout, result[g], MeanGradient(all));
  }

  // --- Communication rounds of a topology ---

  lemma {:induction false} FirstChunkLargest<T>(s: seq<T>, k: nat)
    requires k > 0 && s != []
    ensures |Chunks(s, k)| > 0 && |Chunks(s, k)[0]| == LargestCluster(|s|, k)
    ensures forall c | 0 <= c < |Chunks(s, k)| :: |Chunks(s, k)[c]| <= LargestCluster(|s|, k)
  {
    ChunkCount(s, k);
  }

  /** The largest of a level's clusters, found by scanning them. */
  method LargestSize(clusters: Level, ghost members: seq<nat>, ghost k: nat) returns (size: nat)
    requires k > 0 && members != [] && clusters == LevelMap(LevelOf(members, k))
    ensures size == LargestCluster(|members|, k)
  {
    ghost var level := LevelOf(members, k);
    FirstChunkLargest(members, k);
    forall c | 0 <= c < |level| ensures |level[c]| == |Chunks(members, k)[c]| { LevelCluster(members, k, c); }
    size := 0;
    var todo := clusters.Keys;
    while todo != {}
      invariant todo <= clusters.Keys
      invariant size <= LargestCluster(|members|, k)
      invariant forall c | c in clusters && c !in todo :: |clusters[c]| <= size
      decreases todo
    {
      var c :| c in todo;
      if |clusters[c]| > size {
        size := |clusters[c]|;
      }
      todo := todo - {c};
    }
    assert 0 in clusters;
  }

  /** `ClusterTopology.total_communication_rounds`: the same count the closed loops arrive at. */
  method TotalCommunicationRounds(t: Topology, ghost members: seq<nat>) returns (total: nat)
    requires BuiltFrom(t, members)
    ensures total == Rounds(t.n, t.config.clusterSize, t.config.depth) <= RingRounds(t.n)
  {
    ghost var k := t.config.clusterSize;
    total := 0;
    for level := 0 to t.config.depth
      invariant total == Rounds(t.n, k, level)
    {
      ghost var m := MembersAt(members, k, level);
      MembersBelow(members, k, level);
      assert |m| == CountAt(t.n, k, level);
      assert m != [] ==> 0 in t.clusters[level] by {
        if m != [] { FirstChunkLargest(m, k); }
      }
      if level < |t.clusters| && t.clusters[level] != map[] {
        assert m != [];
        var size := LargestSize(t.clusters[level], m, k);
        total := total + 2 * (size - 1);
      }
    }
    NeverMoreThanFlat(t.n, k, t.config.depth);
  }

  /** `compute_scaling_stats`: unlike the Rust count, a level without peers costs minus two rounds here. */
  method ComputeScalingStats(n: nat, k: nat, depth: nat) returns (flat: nat, hierarchical: int)
    requires k > 0
    ensures flat == RingRounds(n)
    ensures hierarchical == if n == 0 then -2 * depth else Rounds(n, k, depth)
  {
    flat := if n > 1 then 2 * (n - 1) else 0;
    hierarchical := 0;
    var peers := n;
    for level := 0 to depth
      invariant peers == CountAt(n, k, level)
      invariant hierarchical == if n == 0 then -2 * level else Rounds(n, k, level)
    {
      if n == 0 { NoPeersNoRounds(k, level); } else { RoundsBound(n, k, level); }
      var clusters := CeilDiv(peers, k);
      var size := if k < peers then k else peers;
      hierarchical := hierarchical + 2 * (size - 1);
      peers := clusters;
    }
  }

  /** The Python and Rust counts agree exactly when there is a peer to count, or no level. */
  lemma CountsAgreeIff(n: nat, k: nat, depth: nat)
    requires k > 0
    ensures (if n == 0 then -2 * depth else Rounds(n, k, depth)) == Rounds(n, k, depth) <==> n > 0 || depth == 0
  {
    NoPeersNoRounds(k, depth);
  }
}
