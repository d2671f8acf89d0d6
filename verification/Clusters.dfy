/** The hierarchy of clusters that one arrangement of the peers determines. */
module Clusters {
  import opened Sums
  import opened Sorting
  import opened Vrf

  // --- Blocks of at most k ---

  /** Element `i` is at place `i % k` of block `i / k`. */
  lemma {:induction false} ChunkAt<T>(s: seq<T>, k: nat, i: nat)
    requires k > 0 && i < |s|
    ensures i / k < |Chunks(s, k)| && i % k < |Chunks(s, k)[i / k]|
    ensures Chunks(s, k)[i / k][i % k] == s[i]
    decreases |s|
  {
    if i < k {
      DivModUnique(i, k, 0, i);
    } else {
      ChunkAt(s[k..], k, i - k);
      DivModSub(i, k);
    }
  }

  /** And every place of every block is reached that way. */
  lemma {:induction false} ChunkPlace<T>(s: seq<T>, k: nat, c: nat, j: nat)
    requires k > 0 && c < |Chunks(s, k)| && j < |Chunks(s, k)[c]|
    ensures j < k && 0 <= c * k + j < |s| && Chunks(s, k)[c][j] == s[c * k + j]
    ensures (c * k + j) / k == c && (c * k + j) % k == j
    decreases |s|
  {
    if |s| <= k || c == 0 {
      assert c == 0;
      assert c * k + j == j;
      DivModUnique(j, k, 0, j);
    } else {
      ChunkPlace(s[k..], k, c - 1, j);
      BlockStep(c, k);
      DivModSub(c * k + j, k);
    }
  }

  // --- One level: blocks sorted, the first member of each its leader ---

  function LevelOf(members: seq<nat>, k: nat): (r: seq<seq<nat>>)
    requires k > 0
    ensures |r| == CeilDiv(|members|, k)
  {
    ChunkCount(members, k);
    var chunks := Chunks(members, k);
    seq(|chunks|, c requires 0 <= c < |chunks| => Sort(NatLe, chunks[c]))
  }

  /** Cluster `c` is a rearrangement of block `c`, in ascending order, and no larger than `k`. */
  lemma LevelCluster(members: seq<nat>, k: nat, c: nat)
    requires k > 0 && c < |LevelOf(members, k)|
    ensures c < |Chunks(members, k)|
    ensures multiset(LevelOf(members, k)[c]) == multiset(Chunks(members, k)[c])
    ensures 1 <= |LevelOf(members, k)[c]| == |Chunks(members, k)[c]| <= k
    ensures Sorted(NatLe, LevelOf(members, k)[c])
  {
    ChunkCount(members, k);
    SortPermutes(NatLe, Chunks(members, k)[c]);
    NatLeOrder();
    SortSorts(NatLe, Chunks(members, k)[c]);
  }

  /** Membership: the clusters of a level are the blocks of the arrangement. */
  lemma LevelMember(members: seq<nat>, k: nat, c: nat, g: nat)
    requires k > 0 && c < |LevelOf(members, k)|
    ensures g in LevelOf(members, k)[c] <==> exists i :: 0 <= i < |members| && i / k == c && members[i] == g
  {
    LevelCluster(members, k, c);
    var chunk := Chunks(members, k)[c];
    SortMembers(NatLe, chunk);
    if g in chunk {
      var j :| 0 <= j < |chunk| && chunk[j] == g;
      ChunkPlace(members, k, c, j);
      assert members[c * k + j] == g;
    }
    if i :| 0 <= i < |members| && i / k == c && members[i] == g {
      ChunkAt(members, k, i);
    }
  }

  function Leaders(level: seq<seq<nat>>): (r: seq<nat>)
    requires forall c | 0 <= c < |level| :: |level[c]| > 0
    ensures |r| == |level|
  {
    seq(|level|, c requires 0 <= c < |level| => level[c][0])
  }

  lemma LevelsNonempty(members: seq<nat>, k: nat)
    requires k > 0
    ensures forall c | 0 <= c < |LevelOf(members, k)| :: |LevelOf(members, k)[c]| > 0
  {
    forall c | 0 <= c < |LevelOf(members, k)| ensures |LevelOf(members, k)[c]| > 0 {
      LevelCluster(members, k, c);
    }
  }

  /** The members of the next level up: the leaders, in cluster order. */
  function Next(members: seq<nat>, k: nat): (r: seq<nat>)
    requires k > 0
    ensures |r| == CeilDiv(|members|, k)
  {
    LevelsNonempty(members, k);
    Leaders(LevelOf(members, k))
  }

  function MembersAt(members: seq<nat>, k: nat, level: nat): seq<nat>
    requires k > 0
  {
    if level == 0 then members else Next(MembersAt(members, k, level - 1), k)
  }

  function LevelAt(members: seq<nat>, k: nat, level: nat): seq<seq<nat>>
    requires k > 0
  {
    LevelOf(MembersAt(members, k, level), k)
  }

  // --- Well-formedness ---

  /** The arrangement lists each peer once, so each belongs to one cluster of the level. */
  lemma OneCluster(members: seq<nat>, k: nat, c: nat, d: nat, g: nat)
    requires k > 0 && Distinct(members)
    requires c < |LevelOf(members, k)| && d < |LevelOf(members, k)|
    requires g in LevelOf(members, k)[c] && g in LevelOf(members, k)[d]
    ensures c == d
  {
    LevelMember(members, k, c, g);
    LevelMember(members, k, d, g);
  }

  lemma NextMembers(members: seq<nat>, k: nat, c: nat)
    requires k > 0 && c < CeilDiv(|members|, k)
    ensures Next(members, k)[c] in LevelOf(members, k)[c]
    ensures Next(members, k)[c] in members
  {
    LevelCluster(members, k, c);
    LevelMember(members, k, c, Next(members, k)[c]);
  }

  lemma NextDistinct(members: seq<nat>, k: nat)
    requires k > 0 && Distinct(members)
    ensures Distinct(Next(members, k))
  {
    var next := Next(members, k);
    forall c, d | 0 <= c < d < |next| ensures next[c] != next[d] {
      NextMembers(members, k, c);
      NextMembers(members, k, d);
      if next[c] == next[d] { OneCluster(members, k, c, d, next[c]); }
    }
  }

  function CountAt(n: nat, k: nat, level: nat): nat
    requires k > 0
  {
    if level == 0 then n else CeilDiv(CountAt(n, k, level - 1), k)
  }

  lemma {:induction false} MembersAtFacts(members: seq<nat>, k: nat, level: nat)
    requires k > 0 && Distinct(members)
    ensures Distinct(MembersAt(members, k, level))
    ensures forall g | g in MembersAt(members, k, level) :: g in members
    ensures |MembersAt(members, k, level)| == CountAt(|members|, k, level)
  {
    if level == 0 {
    } else {
      MembersAtFacts(members, k, level - 1);
      var prev := MembersAt(members, k, level - 1);
      NextDistinct(prev, k);
      forall g | g in Next(prev, k) ensures g in members {
        var c :| 0 <= c < |Next(prev, k)| && Next(prev, k)[c] == g;
        NextMembers(prev, k, c);
      }
    }
  }

  /** Level 0 covers all the peers, and each higher level exactly the leaders below it. */
  lemma LevelCovers(members: seq<nat>, k: nat, g: nat)
    requires k > 0
    ensures g in members <==> exists c :: 0 <= c < |LevelOf(members, k)| && g in LevelOf(members, k)[c]
  {
    if g in members {
      var i :| 0 <= i < |members| && members[i] == g;
      ChunkCount(members, k);
      ChunkAt(members, k, i);
      LevelMember(members, k, i / k, g);
    }
    if c :| 0 <= c < |LevelOf(members, k)| && g in LevelOf(members, k)[c] {
      LevelMember(members, k, c, g);
    }
  }

  // --- How many peers each level has ---

  function Pow(k: nat, e: nat): nat {
    if e == 0 then 1 else k * Pow(k, e - 1)
  }

  lemma Product(a: nat, b: nat)
    ensures a * b >= 0
  {
  }

  lemma {:induction false} CeilDivBound(a: nat, k: nat, b: nat)
    requires k > 0
    ensures CeilDiv(a, k) <= b <==> a <= b * k
    decreases a
  {
    if a == 0 {
    } else if b == 0 {
      assert b * k == 0;
    } else {
      BlockStep(b, k);
      if a <= k {
        Product(b - 1, k);
      } else {
        CeilDivBound(a - k, k, b - 1);
      }
    }
  }

  lemma Reassociate(a: nat, b: nat, c: nat)
    ensures a * b * c == a * (b * c)
  {
  }

  lemma {:induction false} CountAtBound(n: nat, k: nat, level: nat, b: nat)
    requires k > 0
    ensures CountAt(n, k, level) <= b <==> n <= b * Pow(k, level)
  {
    if level == 0 {
    } else {
      CeilDivBound(CountAt(n, k, level - 1), k, b);
      CountAtBound(n, k, level - 1, b * k);
      Reassociate(b, k, Pow(k, level - 1));
    }
  }

  /** One cluster at the top exactly when the hierarchy has room for every peer. */
  lemma SingleTop(n: nat, k: nat, depth: nat)
    requires k > 0 && n > 0
    ensures CountAt(n, k, depth) == 1 <==> n <= Pow(k, depth)
  {
    CountAtBound(n, k, depth, 1);
    CountAtBound(n, k, depth, 0);
  }

  // --- The hierarchy as a whole ---

  function ClusterLevels(members: seq<nat>, k: nat, depth: nat): (r: seq<seq<seq<nat>>>)
    requires k > 0
    ensures |r| == depth
  {
    seq(depth, level requires 0 <= level < depth => LevelAt(members, k, level))
  }

  lemma {:induction false} SameFirstLevel(a: seq<nat>, b: seq<nat>, k: nat, level: nat)
    requires k > 0 && LevelOf(a, k) == LevelOf(b, k)
    ensures LevelAt(a, k, level) == LevelAt(b, k, level)
    ensures level > 0 ==> MembersAt(a, k, level) == MembersAt(b, k, level)
  {
    if level == 0 {
    } else {
      SameFirstLevel(a, b, k, level - 1);
    }
  }

  /** Every peer lies in the same block under the arrangement and under its inverse. */
  predicate SameBlocks(p: seq<nat>, k: nat)
    requires k > 0 && IsPermutation(p, |p|)
  {
    forall g | 0 <= g < |p| :: p[g] / k == Inverse(p)[g] / k
  }

  lemma PlaceIn(members: seq<nat>, k: nat, c: nat, g: nat) returns (i: nat)
    requires k > 0 && c < |LevelOf(members, k)| && g in LevelOf(members, k)[c]
    ensures i < |members| && i / k == c && members[i] == g
  {
    LevelMember(members, k, c, g);
    i :| 0 <= i < |members| && i / k == c && members[i] == g;
  }

  lemma PlaceInLevel(members: seq<nat>, k: nat, i: nat)
    requires k > 0 && i < |members|
    ensures i / k < |LevelOf(members, k)| && members[i] in LevelOf(members, k)[i / k]
  {
    ChunkCount(members, k);
    ChunkAt(members, k, i);
    LevelMember(members, k, i / k, members[i]);
  }

  lemma SameLevelSameBlock(p: seq<nat>, q: seq<nat>, k: nat, g: nat)
    requires k > 0 && g < |p| == |q| && LevelOf(q, k) == LevelOf(p, k)
    requires forall i | 0 <= i < |p| :: p[i] < |q| && q[p[i]] == i
    ensures p[g] / k == q[g] / k
  {
    var place := p[g];
    PlaceInLevel(q, k, place);
    var i := PlaceIn(p, k, place / k, g);
    assert q[p[i]] == i;
  }

  /** Under the inverse arrangement, cluster `c` is the set of peers whose own number lies in block `c`. */
  lemma LevelOfInverse(p: seq<nat>, k: nat, c: nat, g: nat)
    requires k > 0 && c < CeilDiv(|p|, k) && IsPermutation(p, |p|)
    ensures g in LevelOf(Inverse(p), k)[c] <==> g < |p| && p[g] / k == c
  {
    var q := Inverse(p);
    LevelMember(q, k, c, g);
    if g < |p| && p[g] / k == c {
      assert q[p[g]] == g;
    }
  }

  lemma ClusterDistinct(members: seq<nat>, k: nat, c: nat)
    requires k > 0 && Distinct(members) && c < |LevelOf(members, k)|
    ensures Distinct(LevelOf(members, k)[c]) && Sorted(NatLe, LevelOf(members, k)[c])
  {
    LevelCluster(members, k, c);
    var chunk := Chunks(members, k)[c];
    forall i, j | 0 <= i < j < |chunk| ensures chunk[i] != chunk[j] {
      ChunkPlace(members, k, c, i);
      ChunkPlace(members, k, c, j);
    }
    SortDistinct(NatLe, chunk);
  }

  lemma SortedEqual(a: seq<nat>, b: seq<nat>)
    requires Distinct(a) && Distinct(b) && Sorted(NatLe, a) && Sorted(NatLe, b)
    requires forall g :: g in a <==> g in b
    ensures a == b
  {
    DistinctMultiset(a);
    DistinctMultiset(b);
    assert multiset(a) == multiset(b);
    NatLeOrder();
    SortedUnique(NatLe, a, b);
  }

  lemma SameCluster(p: seq<nat>, q: seq<nat>, k: nat, c: nat)
    requires k > 0 && c < CeilDiv(|p|, k)
    requires IsPermutation(p, |p|) && q == Inverse(p)
    requires forall g | 0 <= g < |p| :: p[g] / k == q[g] / k
    ensures LevelOf(q, k)[c] == LevelOf(p, k)[c]
  {
    InversePermutation(p);
    var a, b := LevelOf(q, k)[c], LevelOf(p, k)[c];
    forall g ensures g in a <==> g in b {
      LevelOfInverse(p, k, c, g);
      LevelOfInverse(q, k, c, g);
    }
    ClusterDistinct(q, k, c);
    ClusterDistinct(p, k, c);
    SortedEqual(a, b);
  }

  lemma SameBlocksSameLevel(p: seq<nat>, k: nat)
    requires k > 0 && IsPermutation(p, |p|)
    requires SameBlocks(p, k)
    ensures LevelOf(Inverse(p), k) == LevelOf(p, k)
  {
    forall c | 0 <= c < CeilDiv(|p|, k) ensures LevelOf(Inverse(p), k)[c] == LevelOf(p, k)[c] {
      SameCluster(p, Inverse(p), k, c);
    }
  }

  lemma FirstLevelDecides(a: seq<nat>, b: seq<nat>, k: nat, depth: nat)
    requires k > 0 && depth > 0
    ensures ClusterLevels(a, k, depth) == ClusterLevels(b, k, depth) <==> LevelOf(a, k) == LevelOf(b, k)
  {
    assert ClusterLevels(a, k, depth)[0] == LevelAt(a, k, 0) && ClusterLevels(b, k, depth)[0] == LevelAt(b, k, 0);
    if LevelOf(a, k) == LevelOf(b, k) {
      forall level | 0 <= level < depth ensures LevelAt(a, k, level) == LevelAt(b, k, level) {
        SameFirstLevel(a, b, k, level);
      }
    }
  }

  lemma SameLevelSameBlocks(p: seq<nat>, k: nat)
    requires k > 0 && IsPermutation(p, |p|) && LevelOf(Inverse(p), k) == LevelOf(p, k)
    ensures SameBlocks(p, k)
  {
    forall g | 0 <= g < |p| ensures p[g] / k == Inverse(p)[g] / k { SameLevelSameBlock(p, Inverse(p), k, g); }
  }

  /** Two arrangements of the peers give the same clusters on every level exactly when they put
      every peer into the same block. */
  lemma ClustersAgreeIff(p: seq<nat>, k: nat, depth: nat)
    requires k > 0 && depth > 0 && IsPermutation(p, |p|)
    ensures ClusterLevels(Inverse(p), k, depth) == ClusterLevels(p, k, depth)
        <==> SameBlocks(p, k)
  {
    FirstLevelDecides(Inverse(p), p, k, depth);
    if SameBlocks(p, k) { SameBlocksSameLevel(p, k); }
    if LevelOf(Inverse(p), k) == LevelOf(p, k) { SameLevelSameBlocks(p, k); }
  }

  /** Two peers share a cluster of the first level. */
  ghost predicate Together(members: seq<nat>, k: nat, a: nat, b: nat)
    requires k > 0
  {
    exists c :: 0 <= c < |LevelOf(members, k)| && a in LevelOf(members, k)[c] && b in LevelOf(members, k)[c]
  }

  lemma SharesBlock(p: seq<nat>, k: nat, a: nat, b: nat)
    requires k > 0 && IsPermutation(p, |p|) && a < |p| && b < |p|
    ensures Together(Inverse(p), k, a, b) <==> p[a] / k == p[b] / k
  {
    var q := Inverse(p);
    var c := p[a] / k;
    assert q[p[a]] == a;
    PlaceInLevel(q, k, p[a]);
    LevelOfInverse(p, k, c, b);
    if d :| 0 <= d < |LevelOf(q, k)| && a in LevelOf(q, k)[d] && b in LevelOf(q, k)[d] {
      LevelOfInverse(p, k, d, a);
      LevelOfInverse(p, k, d, b);
    }
  }

  /** Python puts two peers together when their entries of the shuffle are in one block, Rust when their entries of its
      inverse are. */
  lemma TogetherIff(p: seq<nat>, k: nat, a: nat, b: nat)
    requires k > 0 && IsPermutation(p, |p|) && a < |p| && b < |p|
    ensures Together(Inverse(p), k, a, b) <==> p[a] / k == p[b] / k
    ensures Together(p, k, a, b) <==> Inverse(p)[a] / k == Inverse(p)[b] / k
  {
    InversePermutation(p);
    SharesBlock(p, k, a, b);
    SharesBlock(Inverse(p), k, a, b);
  }

  ghost predicate SameGroups(p: seq<nat>, q: seq<nat>, k: nat)
    requires k > 0
  {
    forall a, b | 0 <= a < |p| && 0 <= b < |p| :: Together(p, k, a, b) <==> Together(q, k, a, b)
  }

  /** Whatever numbers the clusters have: Python and Rust put the same peers together exactly when any two peers in one block
      under the shuffle are in one block under its inverse, and the other way round. */
  lemma GroupsAgreeIff(p: seq<nat>, k: nat)
    requires k > 0 && IsPermutation(p, |p|)
    ensures SameGroups(p, Inverse(p), k) <==>
      forall a, b | 0 <= a < |p| && 0 <= b < |p| :: p[a] / k == p[b] / k <==> Inverse(p)[a] / k == Inverse(p)[b] / k
  {
    forall a, b | 0 <= a < |p| && 0 <= b < |p|
      ensures Together(Inverse(p), k, a, b) <==> p[a] / k == p[b] / k
      ensures Together(p, k, a, b) <==> Inverse(p)[a] / k == Inverse(p)[b] / k
    {
      TogetherIff(p, k, a, b);
    }
  }

  // --- Communication rounds ---

  function LargestCluster(p: nat, k: nat): nat {
    if p < k then p else k
  }

  function RingRounds(size: nat): nat {
    if size > 1 then 2 * (size - 1) else 0
  }

  /** One ring per level, all clusters of a level in parallel: twice the largest cluster less one. */
  function Rounds(n: nat, k: nat, depth: nat): nat
    requires k > 0
  {
    if depth == 0 then 0
    else Rounds(n, k, depth - 1) + RingRounds(LargestCluster(CountAt(n, k, depth - 1), k))
  }

  /** One ring of `n` peers takes n - 1 steps to scatter and n - 1 to gather; a lone peer and nobody take none. */
  lemma RingRoundsAre(n: nat)
    ensures n >= 1 ==> RingRounds(n) == (n - 1) + (n - 1)
    ensures RingRounds(0) == 0
  {
  }

  lemma RoundsLast(n: nat, k: nat, depth: nat)
    requires k > 0 && depth > 0
    ensures Rounds(n, k, depth) == Rounds(n, k, depth - 1) + RingRounds(LargestCluster(CountAt(n, k, depth - 1), k))
  {
  }

  lemma {:induction false} CountAtShift(n: nat, k: nat, level: nat)
    requires k > 0
    ensures CountAt(n, k, level + 1) == CountAt(CeilDiv(n, k), k, level)
  {
    if level > 0 { CountAtShift(n, k, level - 1); }
  }

  lemma CeilDivOne(n: nat, k: nat)
    requires 0 < n <= k
    ensures CeilDiv(n, k) == 1
  {
  }

  lemma {:induction false} OneStaysOne(k: nat, level: nat)
    requires k > 0
    ensures CountAt(1, k, level) == 1
  {
    if level > 0 { OneStaysOne(k, level - 1); }
  }

  /** Peers that fit into one cluster take the rounds of one ring, on one level; more of them take those of a full cluster there,
      and as many on the levels above as the leaders take. */
  lemma {:induction false} RoundsStep(n: nat, k: nat, depth: nat)
    requires k > 0 && n > 0 && depth > 0
    ensures n <= k ==> Rounds(n, k, depth) == 2 * (n - 1)
    ensures n > k ==> Rounds(n, k, depth) == 2 * (k - 1) + Rounds(CeilDiv(n, k), k, depth - 1)
    decreases depth
  {
    if depth == 1 {
      assert Rounds(n, k, 0) == 0 && CountAt(n, k, 0) == n;
    } else {
      RoundsStep(n, k, depth - 1);
      CountAtShift(n, k, depth - 2);
      if n <= k {
        CeilDivOne(n, k);
        OneStaysOne(k, depth - 2);
      } else {
        RoundsLast(CeilDiv(n, k), k, depth - 1);
      }
    }
  }

  lemma {:induction false} BlocksAndSize(p: nat, k: nat)
    requires k > 0 && p > 0
    ensures CeilDiv(p, k) + LargestCluster(p, k) <= p + 1
    decreases p
  {
    if p <= k {
    } else {
      BlocksAndSize(p - k, k);
    }
  }

  lemma {:induction false} RoundsBound(n: nat, k: nat, depth: nat)
    requires k > 0 && n > 0
    ensures CountAt(n, k, depth) >= 1
    ensures Rounds(n, k, depth) <= 2 * (n - CountAt(n, k, depth))
  {
    if depth == 0 {
    } else {
      RoundsBound(n, k, depth - 1);
      BlocksAndSize(CountAt(n, k, depth - 1), k);
    }
  }

  lemma {:induction false} NoPeersNoRounds(k: nat, depth: nat)
    requires k > 0
    ensures CountAt(0, k, depth) == 0 && Rounds(0, k, depth) == 0
  {
    if depth == 0 {
    } else {
      NoPeersNoRounds(k, depth - 1);
    }
  }

  /** The hierarchy never needs more rounds than one flat ring over everybody. */
  lemma NeverMoreThanFlat(n: nat, k: nat, depth: nat)
    requires k > 0
    ensures Rounds(n, k, depth) <= RingRounds(n)
  {
    if n > 0 {
      RoundsBound(n, k, depth);
    } else {
      NoPeersNoRounds(k, depth);
    }
  }
}
