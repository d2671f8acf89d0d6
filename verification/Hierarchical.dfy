/** The tree of rings as the Python engine builds and runs it. */
module Hierarchical {
  import opened Sums
  import opened Sorting
  import opened Bytes
  import opened Vrf
  import opened Clusters
  import TreeMean

  datatype Config = Config(clusterSize: nat, depth: nat, threshold: nat)

  datatype Assignment = Assignment(peerId: string, globalIndex: nat, clusterPath: seq<nat>,
                                   position: nat, isLeader: seq<bool>)

  type Level = map<nat, seq<nat>>

  datatype Topology = Topology(config: Config, n: nat, assignments: seq<Assignment>,
                               clusters: seq<Level>, leaders: seq<map<nat, nat>>)

  // --- Building one level: append every peer to its cluster, then sort ---

  /** The values whose key is `c`, in order of appearance. */
  function Group(keys: seq<nat>, vals: seq<nat>, c: nat): seq<nat>
    requires |keys| == |vals|
  {
    if keys == [] then []
    else
      var n := |keys| - 1;
      Group(keys[..n], vals[..n], c) + if keys[n] == c then [vals[n]] else []
  }

  ghost predicate Keyed(keys: seq<nat>, vals: seq<nat>, c: nat, g: nat)
    requires |keys| == |vals|
  {
    exists i :: 0 <= i < |keys| && keys[i] == c && vals[i] == g
  }

  lemma {:induction false} GroupMember(keys: seq<nat>, vals: seq<nat>, c: nat, g: nat)
    requires |keys| == |vals|
    ensures g in Group(keys, vals, c) <==> Keyed(keys, vals, c, g)
  {
    if keys == [] {
    } else {
      var n := |keys| - 1;
      GroupMember(keys[..n], vals[..n], c, g);
      if i :| 0 <= i < |keys| && keys[i] == c && vals[i] == g {
        if i < n { assert keys[..n][i] == c && vals[..n][i] == g; }
      }
      if i :| 0 <= i < n && keys[..n][i] == c && vals[..n][i] == g {
        assert keys[i] == c && vals[i] == g;
      }
    }
  }

  lemma {:induction false} GroupDistinct(keys: seq<nat>, vals: seq<nat>, c: nat)
    requires |keys| == |vals| && Distinct(vals)
    ensures Distinct(Group(keys, vals, c))
  {
    if keys == [] {
    } else {
      var n := |keys| - 1;
      GroupDistinct(keys[..n], vals[..n], c);
      GroupMember(keys[..n], vals[..n], c, vals[n]);
    }
  }

  /** The dictionary that stands for a list of clusters. */
  ghost function LevelMap(level: seq<seq<nat>>): Level {
    map c: nat | c < |level| :: level[c]
  }

  lemma {:induction false} GroupEmpty(keys: seq<nat>, vals: seq<nat>, c: nat)
    requires |keys| == |vals| && c !in keys
    ensures Group(keys, vals, c) == []
  {
    if keys == [] {
    } else {
      GroupEmpty(keys[..|keys| - 1], vals[..|keys| - 1], c);
    }
  }

  method BuildLevel(keys: seq<nat>, vals: seq<nat>) returns (level: Level)
    requires |keys| == |vals|
    ensures forall c: nat :: c in level <==> c in keys
    ensures forall c | c in level :: level[c] == Sort(NatLe, Group(keys, vals, c))
  {
    var grouped: Level := map[];
    for i := 0 to |keys|
      invariant forall c: nat :: c in grouped <==> c in keys[..i]
      invariant forall c | c in grouped :: grouped[c] == Group(keys[..i], vals[..i], c)
    {
      var c := keys[i];
      assert keys[..i + 1] == keys[..i] + [c] && vals[..i + 1] == vals[..i] + [vals[i]];
      forall d: nat ensures Group(keys[..i + 1], vals[..i + 1], d)
                         == Group(keys[..i], vals[..i], d) + if c == d then [vals[i]] else []
      {
        assert keys[..i + 1][..i] == keys[..i] && vals[..i + 1][..i] == vals[..i];
      }
      if c !in grouped {
        GroupEmpty(keys[..i], vals[..i], c);
        grouped := grouped[c := []];
      }
      grouped := grouped[c := grouped[c] + [vals[i]]];
    }
    assert keys[..|keys|] == keys && vals[..|vals|] == vals;
    level := map c | c in grouped :: Sort(NatLe, grouped[c]);
  }

  /** The keys put every member into the block of its place in the arrangement. */
  ghost predicate KeyedByBlock(keys: seq<nat>, vals: seq<nat>, members: seq<nat>, k: nat)
    requires k > 0 && |keys| == |vals|
  {
    forall c: nat, g: nat ::
      Keyed(keys, vals, c, g) <==> c < CeilDiv(|members|, k) && g in LevelOf(members, k)[c]
  }

  lemma GroupIsCluster(keys: seq<nat>, vals: seq<nat>, members: seq<nat>, k: nat, c: nat)
    requires k > 0 && |keys| == |vals| && Distinct(vals) && Distinct(members)
    requires KeyedByBlock(keys, vals, members, k) && c < CeilDiv(|members|, k)
    ensures Sort(NatLe, Group(keys, vals, c)) == LevelOf(members, k)[c]
  {
    var group, cluster := Group(keys, vals, c), LevelOf(members, k)[c];
    GroupDistinct(keys, vals, c);
    SortDistinct(NatLe, group);
    SortMembers(NatLe, group);
    NatLeOrder();
    SortSorts(NatLe, group);
    ClusterDistinct(members, k, c);
    forall g ensures g in Sort(NatLe, group) <==> g in cluster { GroupMember(keys, vals, c, g); }
    SortedEqual(Sort(NatLe, group), cluster);
  }

  lemma KeysAreClusters(keys: seq<nat>, vals: seq<nat>, members: seq<nat>, k: nat, c: nat)
    requires k > 0 && |keys| == |vals| && KeyedByBlock(keys, vals, members, k)
    ensures c in keys <==> c < CeilDiv(|members|, k)
  {
    if c in keys {
      var i :| 0 <= i < |keys| && keys[i] == c;
      assert Keyed(keys, vals, c, vals[i]);
    }
    if c < CeilDiv(|members|, k) {
      LevelCluster(members, k, c);
      assert Keyed(keys, vals, c, LevelOf(members, k)[c][0]);
    }
  }

  lemma GroupsAreLevel(keys: seq<nat>, vals: seq<nat>, members: seq<nat>, k: nat, level: Level)
    requires k > 0 && |keys| == |vals| && Distinct(vals) && Distinct(members)
    requires forall c: nat :: c in level <==> c in keys
    requires forall c | c in level :: level[c] == Sort(NatLe, Group(keys, vals, c))
    requires KeyedByBlock(keys, vals, members, k)
    ensures level == LevelMap(LevelOf(members, k))
  {
    forall c: nat ensures c in level <==> c < CeilDiv(|members|, k) {
      KeysAreClusters(keys, vals, members, k, c);
    }
    forall c | c in level ensures level[c] == LevelOf(members, k)[c] {
      GroupIsCluster(keys, vals, members, k, c);
    }
  }

  function LeafKeys(perm: seq<nat>, k: nat): (r: seq<nat>)
    requires k > 0
    ensures |r| == |perm|
  {
    seq(|perm|, i requires 0 <= i < |perm| => perm[i] / k)
  }

  lemma LeafKeyed(perm: seq<nat>, k: nat)
    requires k > 0 && IsPermutation(perm, |perm|)
    ensures KeyedByBlock(LeafKeys(perm, k), Identity(|perm|), Inverse(perm), k)
  {
    var keys, vals := LeafKeys(perm, k), Identity(|perm|);
    forall c: nat, g: nat
      ensures Keyed(keys, vals, c, g) <==> c < CeilDiv(|perm|, k) && g in LevelOf(Inverse(perm), k)[c]
    {
      if Keyed(keys, vals, c, g) {
        TreeMean.BlockInRange(perm[g], |perm|, k);
        LevelOfInverse(perm, k, c, g);
      } else if c < CeilDiv(|perm|, k) {
        LevelOfInverse(perm, k, c, g);
        assert g < |perm| ==> vals[g] == g;
      }
    }
  }

  /** Level 0: peer `idx` joins cluster `perm[idx] // k`, so the arrangement is the inverse of the shuffle. */
  method LeafLevel(perm: seq<nat>, k: nat) returns (level: Level)
    requires k > 0 && IsPermutation(perm, |perm|)
    ensures level == LevelMap(LevelOf(Inverse(perm), k))
  {
    level := BuildLevel(LeafKeys(perm, k), Identity(|perm|));
    InversePermutation(perm);
    LeafKeyed(perm, k);
    GroupsAreLevel(LeafKeys(perm, k), Identity(|perm|), Inverse(perm), k, level);
  }

  lemma HigherKeyed(leaders: seq<nat>, k: nat)
    requires k > 0
    ensures KeyedByBlock(LeafKeys(Identity(|leaders|), k), leaders, leaders, k)
  {
    var n := |leaders|;
    var keys := LeafKeys(Identity(n), k);
    forall c: nat, g: nat
      ensures Keyed(keys, leaders, c, g) <==> c < CeilDiv(n, k) && g in LevelOf(leaders, k)[c]
    {
      if Keyed(keys, leaders, c, g) {
        var i :| 0 <= i < |keys| && keys[i] == c && leaders[i] == g;
        TreeMean.BlockInRange(i, n, k);
        LevelMember(leaders, k, c, g);
      } else if c < CeilDiv(n, k) {
        LevelMember(leaders, k, c, g);
        assert forall i | 0 <= i < n :: keys[i] == i / k;
      }
    }
  }

  /** Higher levels: the i-th leader joins cluster `i // k`. */
  method HigherLevel(leaders: seq<nat>, k: nat) returns (level: Level)
    requires k > 0 && Distinct(leaders)
    ensures level == LevelMap(LevelOf(leaders, k))
  {
    level := BuildLevel(LeafKeys(Identity(|leaders|), k), leaders);
    HigherKeyed(leaders, k);
    GroupsAreLevel(LeafKeys(Identity(|leaders|), k), leaders, leaders, k, level);
  }

  // --- The topology ---

  ghost function LeaderMap(next: seq<nat>): map<nat, nat> {
    map c: nat | c < |next| :: next[c]
  }

  ghost predicate LevelBuilt(clusters: Level, leaders: map<nat, nat>, members: seq<nat>, k: nat, level: nat)
    requires k > 0
  {
    && clusters == LevelMap(LevelAt(members, k, level))
    && leaders == LeaderMap(MembersAt(members, k, level + 1))
  }

  /** Clusters and leaders are those of one arrangement of the peers. */
  ghost predicate BuiltFrom(t: Topology, members: seq<nat>) {
    var k := t.config.clusterSize;
    && k > 0 && IsPermutation(members, t.n)
    && |t.clusters| == |t.leaders| == t.config.depth
    && forall l | 0 <= l < t.config.depth :: LevelBuilt(t.clusters[l], t.leaders[l], members, k, l)
  }

  ghost predicate OnLevel(members: seq<nat>, k: nat, level: nat, g: nat, cid: nat, leads: bool)
    requires k > 0
  {
    && cid < |LevelAt(members, k, level)|
    && g in LevelAt(members, k, level)[cid]
    && leads == (LevelAt(members, k, level)[cid][0] == g)
  }

  /** A peer's way up: its cluster and leadership at every level it takes part in, and nothing beyond. */
  ghost predicate IsPath(members: seq<nat>, k: nat, depth: nat, g: nat, path: seq<nat>, isLeader: seq<bool>)
    requires k > 0
  {
    && |path| == |isLeader| <= depth
    && (forall l | 0 <= l < |path| :: OnLevel(members, k, l, g, path[l], isLeader[l]))
    && (|path| < depth ==> g !in MembersAt(members, k, |path|))
  }

  ghost predicate IsAssigned(members: seq<nat>, k: nat, depth: nat, g: nat, peerId: string, a: Assignment)
    requires k > 0
  {
    && a.peerId == peerId && a.globalIndex == g
    && IsPath(members, k, depth, g, a.clusterPath, a.isLeader)
    && (depth > 0 ==> 0 < |a.clusterPath| && a.position < |LevelAt(members, k, 0)[a.clusterPath[0]]|
                      && LevelAt(members, k, 0)[a.clusterPath[0]][a.position] == g)
  }

  /** Searching a level's dictionary, in whatever order, for the cluster that holds `g`. */
  method FindCluster(level: Level, g: nat) returns (found: bool, cid: nat)
    ensures found ==> cid in level && g in level[cid]
    ensures !found ==> forall c | c in level :: g !in level[c]
  {
    var remaining := level.Keys;
    while remaining != {}
      invariant remaining <= level.Keys
      invariant forall c | c in level && c !in remaining :: g !in level[c]
      decreases remaining
    {
      var c :| c in remaining;
      if g in level[c] {
        return true, c;
      }
      remaining := remaining - {c};
    }
    return false, 0;
  }

  /** `_find_position`; the search cannot fail for a peer of the topology. */
  method FindPosition(leaf: Level, ghost members: seq<nat>, ghost k: nat, ghost cid0: nat, g: nat)
    returns (position: nat)
    requires k > 0 && Distinct(members) && leaf == LevelMap(LevelOf(members, k))
    requires cid0 < |LevelOf(members, k)| && g in LevelOf(members, k)[cid0]
    ensures position < |LevelOf(members, k)[cid0]| && LevelOf(members, k)[cid0][position] == g
  {
    var found, cid := FindCluster(leaf, g);
    assert cid0 in leaf;
    OneCluster(members, k, cid, cid0, g);
    position := IndexOf(leaf[cid], g);
  }

  /** A search that fails shows that the peer takes no part in the level. */
  lemma NotInLevel(members: seq<nat>, k: nat, level: Level, g: nat)
    requires k > 0 && level == LevelMap(LevelOf(members, k))
    requires forall c | c in level :: g !in level[c]
    ensures g !in members
  {
    LevelCovers(members, k, g);
    forall c | 0 <= c < |LevelOf(members, k)| ensures g !in LevelOf(members, k)[c] {
      assert c in level;
    }
  }

  /** One level of the search: the cluster that holds the peer, if any, and whether the peer leads it. */
  method PlaceOnLevel(clusters: Level, leaders: map<nat, nat>, ghost members: seq<nat>, ghost k: nat, ghost level: nat, g: nat)
    returns (found: bool, cid: nat, leads: bool)
    requires k > 0 && LevelBuilt(clusters, leaders, members, k, level)
    ensures found ==> OnLevel(members, k, level, g, cid, leads)
    ensures !found ==> g !in MembersAt(members, k, level)
  {
    LevelsNonempty(MembersAt(members, k, level), k);
    found, cid := FindCluster(clusters, g);
    leads := found && cid in leaders && leaders[cid] == g;
    if !found {
      NotInLevel(MembersAt(members, k, level), k, clusters, g);
    }
  }

  method AssignPeer(t: Topology, ghost members: seq<nat>, g: nat, peerId: string) returns (a: Assignment)
    requires BuiltFrom(t, members) && g < t.n && t.config.depth > 0
    ensures IsAssigned(members, t.config.clusterSize, t.config.depth, g, peerId, a)
  {
    ghost var k := t.config.clusterSize;
    PermutationOnto(members, t.n);
    var path: seq<nat>, isLeader: seq<bool> := [], [];
    var level := 0;
    while level < t.config.depth
      invariant 0 <= level <= t.config.depth && |path| == |isLeader| == level
      invariant forall l | 0 <= l < level :: OnLevel(members, k, l, g, path[l], isLeader[l])
    {
      assert LevelBuilt(t.clusters[level], t.leaders[level], members, k, level);
      var found, cid, leads := PlaceOnLevel(t.clusters[level], t.leaders[level], members, k, level, g);
      if !found {
        break;
      }
      path := path + [cid];
      isLeader := isLeader + [leads];
      level := level + 1;
    }
    assert level > 0;
    var position := FindPosition(t.clusters[0], members, k, path[0], g);
    a := Assignment(peerId, g, path, position, isLeader);
  }

  lemma LeadersOfLevel(members: seq<nat>, k: nat, level: Level)
    requires k > 0 && level == LevelMap(LevelOf(members, k))
    ensures forall c | c in level :: |level[c]| > 0
    ensures (map c | c in level :: level[c][0]) == LeaderMap(Next(members, k))
  {
    LevelsNonempty(members, k);
  }

  lemma {:induction false} SizeOfLeaderMap(next: seq<nat>)
    ensures |LeaderMap(next)| == |next|
  {
    var m := LeaderMap(next);
    assert m.Keys == Range(|next|);
  }

  /** One step up: the leaders below, in cluster order, are grouped, and the new clusters elect theirs. */
  method NextLevel(prev: map<nat, nat>, ghost m: seq<nat>, k: nat) returns (level: Level, leaders: map<nat, nat>)
    requires k > 0 && Distinct(m) && prev == LeaderMap(m)
    ensures level == LevelMap(LevelOf(m, k))
    ensures leaders == LeaderMap(Next(m, k))
  {
    SizeOfLeaderMap(m);
    var indices := seq(|prev|, i requires 0 <= i < |prev| => prev[i]);
    assert indices == m;
    level := HigherLevel(indices, k);
    LeadersOfLevel(m, k, level);
    leaders := map c | c in level :: level[c][0];
  }

  method FirstLevel(perm: seq<nat>, k: nat) returns (leaf: Level, leaders: map<nat, nat>)
    requires k > 0 && IsPermutation(perm, |perm|)
    ensures LevelBuilt(leaf, leaders, Inverse(perm), k, 0)
  {
    leaf := LeafLevel(perm, k);
    LeadersOfLevel(Inverse(perm), k, leaf);
    leaders := map c | c in leaf :: leaf[c][0];
  }

  /** The levels, bottom-up. */
  method BuildHierarchy(perm: seq<nat>, k: nat, depth: nat)
    returns (clusters: seq<Level>, leaders: seq<map<nat, nat>>)
    requires k > 0 && depth > 0 && IsPermutation(perm, |perm|)
    ensures |clusters| == |leaders| == depth
    ensures forall l | 0 <= l < depth :: LevelBuilt(clusters[l], leaders[l], Inverse(perm), k, l)
  {
    ghost var members := Inverse(perm);
    InversePermutation(perm);
    var leaf, heads0 := FirstLevel(perm, k);
    clusters, leaders := [leaf], [heads0];
    for level := 1 to depth
      invariant |clusters| == |leaders| == level
      invariant forall l | 0 <= l < level :: LevelBuilt(clusters[l], leaders[l], members, k, l)
    {
      assert LevelBuilt(clusters[level - 1], leaders[level - 1], members, k, level - 1);
      MembersAtFacts(members, k, level);
      var higher, heads := NextLevel(leaders[level - 1], MembersAt(members, k, level), k);
      assert LevelBuilt(higher, heads, members, k, level);
      clusters := clusters + [higher];
      leaders := leaders + [heads];
    }
  }

  /** `assign_clusters_vrf`, from the hash of the round and the peers (the seed) on. */
  method AssignClustersVrf(hash: Data -> Digest, seed: Digest, peerIds: seq<string>, config: Config)
    returns (t: Topology)
    requires config.clusterSize > 0 && config.depth > 0
    ensures t.config == config && t.n == |peerIds|
    ensures IsPermutation(PermutationSpec(hash, seed, t.n), t.n)
    ensures BuiltFrom(t, Inverse(PermutationSpec(hash, seed, t.n)))
    ensures |t.assignments| == t.n
    ensures forall g | 0 <= g < t.n ::
        IsAssigned(Inverse(PermutationSpec(hash, seed, t.n)), config.clusterSize, config.depth,
                   g, peerIds[g], t.assignments[g])
  {
    var n := |peerIds|;
    var perm := Permutation(hash, seed, n);
    ghost var members := Inverse(perm);
    InversePermutation(perm);
    var clusters, leaders := BuildHierarchy(perm, config.clusterSize, config.depth);
    t := Topology(config, n, [], clusters, leaders);
    assert BuiltFrom(t, members);
    var assignments: seq<Assignment> := [];
    for g := 0 to n
      invariant |assignments| == g
      invariant forall i | 0 <= i < g ::
          IsAssigned(members, config.clusterSize, config.depth, i, peerIds[i], assignments[i])
    {
      var a := AssignPeer(t, members, g, peerIds[g]);
      assignments := assignments + [a];
    }
    t := t.(assignments := assignments);
  }

  /** A peer reaches the next level exactly when it leads its cluster on this one. */
  lemma PathClimbsByLeading(members: seq<nat>, k: nat, depth: nat, g: nat, path: seq<nat>, isLeader: seq<bool>, l: nat)
    requires k > 0 && Distinct(members) && IsPath(members, k, depth, g, path, isLeader) && l + 1 < depth
    ensures |path| > l + 1 <==> |path| > l && isLeader[l]
  {
    var m := MembersAt(members, k, l);
    MembersAtFacts(members, k, l);
    LevelsNonempty(m, k);
    LevelCovers(MembersAt(members, k, l + 1), k, g);
    assert MembersAt(members, k, l + 1) == Next(m, k);
    if |path| > l + 1 {
      assert g in LevelAt(members, k, l + 1)[path[l + 1]];
      var c :| 0 <= c < |Next(m, k)| && Next(m, k)[c] == g;
      NextMembers(m, k, c);
      OneCluster(m, k, c, path[l], g);
    }
    if |path| > l {
      assert Next(m, k)[path[l]] == LevelAt(members, k, l)[path[l]][0];
    }
  }

  /** `x` divided by `k`, rounding down, `l` times over. */
  function Divided(x: nat, k: nat, l: nat): nat
    requires k > 0
  {
    if l == 0 then x else Divided(x, k, l - 1) / k
  }

  lemma PlaceDecides(m: seq<nat>, k: nat, g: nat, place: nat, cid: nat)
    requires k > 0 && Distinct(m) && place < |m| && m[place] == g && cid < |LevelOf(m, k)| && g in LevelOf(m, k)[cid]
    ensures cid == place / k
  {
    PlaceInLevel(m, k, place);
    OneCluster(m, k, cid, place / k, g);
  }

  /** Who leads a cluster stands in the next level at the place that has the number of the cluster. */
  lemma LeaderPlace(m: seq<nat>, k: nat, g: nat, cid: nat)
    requires k > 0 && Distinct(m) && cid < |LevelOf(m, k)| && g in LevelOf(m, k)[cid] && g in Next(m, k)
    ensures cid < |Next(m, k)| && Next(m, k)[cid] == g
  {
    var c :| 0 <= c < |Next(m, k)| && Next(m, k)[c] == g;
    NextMembers(m, k, c);
    OneCluster(m, k, c, cid, g);
  }

  /** The peer stands in the members of the level at the place that its entry of the shuffle, divided so often, says. */
  ghost predicate StandsAt(members: seq<nat>, k: nat, level: nat, g: nat, place: nat)
    requires k > 0
  {
    place < |MembersAt(members, k, level)| && MembersAt(members, k, level)[place] == g
  }

  lemma ClusterIsQuotient(members: seq<nat>, k: nat, level: nat, g: nat, place: nat, cid: nat, leads: bool)
    requires k > 0 && Distinct(members) && OnLevel(members, k, level, g, cid, leads) && StandsAt(members, k, level, g, place)
    ensures cid == place / k
    ensures g in MembersAt(members, k, level + 1) ==> StandsAt(members, k, level + 1, g, place / k)
  {
    MembersAtFacts(members, k, level);
    PlaceDecides(MembersAt(members, k, level), k, g, place, cid);
    if g in MembersAt(members, k, level + 1) { LeaderPlace(MembersAt(members, k, level), k, g, cid); }
  }

  lemma OnLevelMember(members: seq<nat>, k: nat, level: nat, g: nat, cid: nat, leads: bool)
    requires k > 0 && OnLevel(members, k, level, g, cid, leads)
    ensures g in MembersAt(members, k, level)
  {
    LevelCovers(MembersAt(members, k, level), k, g);
  }

  lemma PathStandsNext(members: seq<nat>, k: nat, depth: nat, g: nat, start: nat, path: seq<nat>, isLeader: seq<bool>, l: nat)
    requires k > 0 && Distinct(members) && IsPath(members, k, depth, g, path, isLeader) && l + 1 < |path|
    requires StandsAt(members, k, l, g, Divided(start, k, l))
    ensures StandsAt(members, k, l + 1, g, Divided(start, k, l + 1))
  {
    OnLevelMember(members, k, l + 1, g, path[l + 1], isLeader[l + 1]);
    ClusterIsQuotient(members, k, l, g, Divided(start, k, l), path[l], isLeader[l]);
  }

  lemma {:induction false} PathStands(members: seq<nat>, k: nat, depth: nat, g: nat, start: nat, path: seq<nat>, isLeader: seq<bool>, l: nat)
    requires k > 0 && Distinct(members) && StandsAt(members, k, 0, g, start)
    requires IsPath(members, k, depth, g, path, isLeader) && l < |path|
    ensures StandsAt(members, k, l, g, Divided(start, k, l))
  {
    if l > 0 {
      PathStands(members, k, depth, g, start, path, isLeader, l - 1);
      PathStandsNext(members, k, depth, g, start, path, isLeader, l - 1);
    }
  }

  /** The way up in closed form: at every level the number of the peer's cluster is its entry of the shuffle, divided by the
      cluster size once for every level so far. */
  lemma PathIsQuotients(p: seq<nat>, k: nat, depth: nat, g: nat, path: seq<nat>, isLeader: seq<bool>, l: nat)
    requires k > 0 && IsPermutation(p, |p|) && g < |p| && IsPath(Inverse(p), k, depth, g, path, isLeader) && l < |path|
    ensures path[l] == Divided(p[g], k, l + 1)
  {
    InversePermutation(p);
    assert StandsAt(Inverse(p), k, 0, g, p[g]);
    PathStands(Inverse(p), k, depth, g, p[g], path, isLeader, l);
    ClusterIsQuotient(Inverse(p), k, l, g, Divided(p[g], k, l), path[l], isLeader[l]);
  }
}
