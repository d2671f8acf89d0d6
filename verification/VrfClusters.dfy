/** The hierarchy as the Rust node builds it: clusters are consecutive stretches of the shuffle. */
module VrfClusters {
  import opened Sums
  import opened Sorting
  import opened Bytes
  import opened Vrf
  import opened Clusters

  /** Sorting every stretch of `k` members. */
  method SortChunks(members: seq<nat>, k: nat) returns (level: seq<seq<nat>>)
    requires k > 0
    ensures level == LevelOf(members, k)
  {
    level := [];
    var chunks := Chunks(members, k);
    for c := 0 to |chunks|
      invariant |level| == c
      invariant forall i | 0 <= i < c :: level[i] == Sort(NatLe, chunks[i])
    {
      level := level + [Sort(NatLe, chunks[c])];
    }
  }

  /** `assign_clusters`. */
  method AssignClusters(hash: Data -> Digest, seed: Digest, n: nat, k: nat, depth: nat)
    returns (levels: seq<seq<seq<nat>>>)
    ensures n == 0 || k == 0 || depth == 0 ==> levels == []
    ensures n > 0 && k > 0 && depth > 0 ==> levels == ClusterLevels(PermutationSpec(hash, seed, n), k, depth)
  {
    if n == 0 || k == 0 || depth == 0 {
      return [];
    }
    var perm := Permutation(hash, seed, n);
    var leaf := SortChunks(perm, k);
    levels := [leaf];
    for level := 1 to depth
      invariant |levels| == level
      invariant forall l | 0 <= l < level :: levels[l] == LevelAt(perm, k, l)
    {
      LevelsNonempty(MembersAt(perm, k, level - 1), k);
      var leaders := Leaders(levels[level - 1]);
      assert leaders == MembersAt(perm, k, level);
      var higher := SortChunks(leaders, k);
      levels := levels + [higher];
    }
  }

  lemma {:induction false} ZeroBytes(data: Data)
    requires forall i | 0 <= i < |data| :: data[i] == 0
    ensures FromLittleEndian(data) == 0
  {
    if data != [] {
      ZeroBytes(data[1..]);
    }
  }

  lemma ZeroHashShuffle(hash: Data -> Digest, seed: Digest)
    requires forall d: Data, i: nat | i < 32 :: hash(d)[i] == 0
    ensures PermutationSpec(hash, seed, 3) == [1, 2, 0]
  {
    var one := NextSeed(hash, seed, 2);
    var two := NextSeed(hash, one, 1);
    ZeroBytes(one[..8]);
    ZeroBytes(two[..8]);
    assert Draw(one, 2) == 0 && Draw(two, 1) == 0;
    assert Identity(3) == [0, 1, 2];
    assert Swap([0, 1, 2], 2, 0) == [2, 1, 0] && Swap([2, 1, 0], 1, 0) == [1, 2, 0];
  }

  lemma RotationGroups()
    ensures IsPermutation([1, 2, 0], 3)
    ensures Together([1, 2, 0], 2, 1, 2) && !Together(Inverse([1, 2, 0]), 2, 1, 2)
  {
    var p: seq<nat> := [1, 2, 0];
    TogetherIff(p, 2, 1, 2);
    assert Inverse(p)[1] == 0 && Inverse(p)[2] == 1 && Inverse(p)[0] == 2;
    assert p[1] / 2 == 1 && p[2] / 2 == 0;
    assert Inverse(p)[1] / 2 == 0 && Inverse(p)[2] / 2 == 0;
  }

  /** A hash that is always zero shuffles three peers to [1, 2, 0]: in clusters of two, Rust puts the peers 1 and 2 into one
      cluster and Python puts them apart. */
  lemma ZeroHashDisagrees(hash: Data -> Digest, seed: Digest)
    requires forall d: Data, i: nat | i < 32 :: hash(d)[i] == 0
    ensures PermutationSpec(hash, seed, 3) == [1, 2, 0] && IsPermutation([1, 2, 0], 3)
    ensures Together([1, 2, 0], 2, 1, 2) && !Together(Inverse([1, 2, 0]), 2, 1, 2)
  {
    ZeroHashShuffle(hash, seed);
    RotationGroups();
  }

  /** `cluster_leaders`: the leaders of a level are the members of the next one. */
  method ClusterLeaders(hash: Data -> Digest, seed: Digest, n: nat, k: nat, depth: nat)
    returns (leaders: seq<seq<nat>>)
    ensures |leaders| == if n == 0 || k == 0 then 0 else depth
    ensures k > 0 ==> forall l | 0 <= l < |leaders| ::
        leaders[l] == MembersAt(PermutationSpec(hash, seed, n), k, l + 1)
  {
    var levels := AssignClusters(hash, seed, n, k, depth);
    leaders := [];
    for l := 0 to |levels|
      invariant |leaders| == l
      invariant k > 0 ==> forall i | 0 <= i < l :: leaders[i] == MembersAt(PermutationSpec(hash, seed, n), k, i + 1)
    {
      LevelsNonempty(MembersAt(PermutationSpec(hash, seed, n), k, l), k);
      leaders := leaders + [Leaders(levels[l])];
    }
  }

  // --- Depth and rounds ---

  const USIZE_MAX: nat := 0xFFFF_FFFF_FFFF_FFFF

  function SaturatingPow(k: nat, e: nat): nat {
    if Pow(k, e) < USIZE_MAX then Pow(k, e) else USIZE_MAX
  }

  lemma GrowsBy(k: nat, x: nat)
    requires k > 0
    ensures x <= k * x
  {
  }

  lemma {:induction false} PowGrows(k: nat, d: nat, e: nat)
    requires k > 0 && d <= e
    ensures Pow(k, d) <= Pow(k, e)
    decreases e
  {
    if d == e {
    } else {
      PowGrows(k, d, e - 1);
      GrowsBy(k, Pow(k, e - 1));
    }
  }

  lemma PowOne(k: nat)
    ensures Pow(k, 1) == k
  {
    assert Pow(k, 1) == k * Pow(k, 0);
  }

  lemma SaturatedBelow(k: nat, e: nat, n: nat)
    requires n <= USIZE_MAX
    ensures SaturatingPow(k, e) < n <==> Pow(k, e) < n
  {
  }

  /** `optimal_depth`: the least depth with room for every peer, but never beyond 7. */
  method OptimalDepth(n: nat, k: nat) returns (depth: nat)
    requires n <= USIZE_MAX && k <= USIZE_MAX
    ensures 1 <= depth <= 7
    ensures forall d | 1 <= d < depth :: Pow(k, d) < n
    ensures depth < 7 ==> n <= Pow(k, depth)
  {
    PowOne(k);
    if n <= k {
      return 1;
    }
    depth := 1;
    var capacity := k;
    while capacity < n && depth < 7
      invariant 1 <= depth <= 7
      decreases 7 - depth
      invariant capacity < n <==> Pow(k, depth) < n
      invariant forall d | 1 <= d < depth :: Pow(k, d) < n
    {
      depth := depth + 1;
      capacity := SaturatingPow(k, depth);
      SaturatedBelow(k, depth, n);
    }
  }

  /** With the cap the chosen depth has room exactly when seven levels would have. */
  lemma CapLosesNothingBelowSeven(n: nat, k: nat, depth: nat)
    requires k > 0 && 1 <= depth <= 7
    requires forall d | 1 <= d < depth :: Pow(k, d) < n
    requires depth < 7 ==> n <= Pow(k, depth)
    ensures n <= Pow(k, depth) <==> n <= Pow(k, 7)
  {
    PowGrows(k, depth, 7);
  }

  /** `scaling_stats`: flat rounds and the rounds of the hierarchy. */
  method ScalingStats(n: nat, k: nat, depth: nat) returns (flat: nat, hierarchical: nat)
    requires k > 0
    ensures flat == RingRounds(n)
    ensures hierarchical == Rounds(n, k, depth) <= flat
  {
    flat := if n > 1 then 2 * (n - 1) else 0;
    hierarchical := 0;
    var peers := n;
    for level := 0 to depth
      invariant peers == CountAt(n, k, level)
      invariant hierarchical == Rounds(n, k, level)
    {
      CeilDivDivides(peers, k);
      var clusters := (peers + k - 1) / k;
      var size := if k < peers then k else peers;
      if size > 1 {
        hierarchical := hierarchical + 2 * (size - 1);
      }
      peers := clusters;
    }
    NeverMoreThanFlat(n, k, depth);
  }
}
