/** The deterministic shuffle every peer repeats, and the shards and clusters the Rust node cuts from it. */
module Vrf {
  import opened Sums
  import opened Sorting
  import opened Bytes

  // --- Permutations ---

  predicate IsPermutation(p: seq<nat>, n: nat) {
    |p| == n && Distinct(p) && forall i | 0 <= i < n :: p[i] < n
  }

  function Swap<T>(s: seq<T>, i: nat, j: nat): (r: seq<T>)
    requires i < |s| && j < |s|
  {
    s[i := s[j]][j := s[i]]
  }

  lemma SwapKeepsPermutation(s: seq<nat>, i: nat, j: nat)
    requires i < |s| && j < |s| && IsPermutation(s, |s|)
    ensures IsPermutation(Swap(s, i, j), |s|)
  {
    var r := Swap(s, i, j);
    forall a, b | 0 <= a < b < |r| ensures r[a] != r[b] {
      assert r[a] == s[if a == i then j else if a == j then i else a];
      assert r[b] == s[if b == i then j else if b == j then i else b];
    }
  }

  function Elements<T>(s: seq<T>): set<T> {
    set x | x in s
  }

  lemma {:induction false} DistinctSetSize<T>(s: seq<T>)
    requires Distinct(s)
    ensures |Elements(s)| == |s|
  {
    if s == [] {
      assert Elements(s) == {};
    } else {
      DistinctSetSize(s[1..]);
      assert Elements(s) == {s[0]} + Elements(s[1..]);
      assert s[0] !in s[1..];
    }
  }

  lemma SubsetSize<T>(a: set<T>, b: set<T>)
    requires a <= b && |a| == |b|
    ensures a == b
  {
    assert b == a + (b - a);
    assert |b - a| == |b| - |a|;
  }

  /** By counting, a permutation reaches every index. */
  lemma PermutationOnto(p: seq<nat>, n: nat)
    requires IsPermutation(p, n)
    ensures forall v: nat | v < n :: v in p
  {
    DistinctSetSize(p);
    SubsetSize(Elements(p), Range(n));
    forall v: nat | v < n ensures v in p {
      assert v in Range(n);
    }
  }

  function IndexOf(s: seq<nat>, x: nat): (i: nat)
    requires x in s
    ensures i < |s| && s[i] == x
  {
    if s[0] == x then 0 else 1 + IndexOf(s[1..], x)
  }

  /** The list that holds at place `p[i]` the index `i`. */
  function Inverse(p: seq<nat>): (r: seq<nat>)
    requires IsPermutation(p, |p|)
    ensures |r| == |p|
    ensures forall i | 0 <= i < |p| :: r[p[i]] == i
    ensures forall v | 0 <= v < |p| :: r[v] < |p| && p[r[v]] == v
  {
    PermutationOnto(p, |p|);
    var r := seq(|p|, v requires 0 <= v < |p| => IndexOf(p, v));
    r
  }

  lemma InversePermutation(p: seq<nat>)
    requires IsPermutation(p, |p|)
    ensures IsPermutation(Inverse(p), |p|)
    ensures Inverse(Inverse(p)) == p
  {
    var r := Inverse(p);
    forall a, b | 0 <= a < b < |r| ensures r[a] != r[b] {
      assert p[r[a]] == a && p[r[b]] == b;
    }
    forall v | 0 <= v < |p| ensures Inverse(r)[v] == p[v] {
      assert Inverse(r)[r[p[v]]] == p[v];
    }
  }

  // --- Fisher-Yates, seeded by successive hashes ---

  function NextSeed(hash: Data -> Digest, seed: Digest, i: nat): Digest {
    hash(seed + ToLittleEndian(i, 8))
  }

  /** The partner of index `i` in the shuffle, from the first eight bytes of the new seed. */
  function Draw(seed: Digest, i: nat): (j: nat)
    ensures j <= i
  {
    FromLittleEndian(seed[..8]) % (i + 1)
  }

  ghost function Shuffled(hash: Data -> Digest, seed: Digest, s: seq<nat>, i: nat): seq<nat>
    requires i < |s|
    decreases i
  {
    if i == 0 then s
    else
      var next := NextSeed(hash, seed, i);
      Shuffled(hash, next, Swap(s, i, Draw(next, i)), i - 1)
  }

  ghost function PermutationSpec(hash: Data -> Digest, seed: Digest, n: nat): seq<nat> {
    if n == 0 then [] else Shuffled(hash, seed, Identity(n), n - 1)
  }

  lemma {:induction false} ShuffledIsPermutation(hash: Data -> Digest, seed: Digest, s: seq<nat>, i: nat)
    requires i < |s| && IsPermutation(s, |s|)
    ensures IsPermutation(Shuffled(hash, seed, s, i), |s|)
    decreases i
  {
    if i == 0 {
    } else {
      var next := NextSeed(hash, seed, i);
      SwapKeepsPermutation(s, i, Draw(next, i));
      ShuffledIsPermutation(hash, next, Swap(s, i, Draw(next, i)), i - 1);
    }
  }

  /** Whatever the hash function, the shuffle is a permutation of the peers. */
  lemma PermutationSpecIsPermutation(hash: Data -> Digest, seed: Digest, n: nat)
    ensures IsPermutation(PermutationSpec(hash, seed, n), n)
  {
    if n == 0 {
    } else {
      ShuffledIsPermutation(hash, seed, Identity(n), n - 1);
    }
  }

  method Numbered(n: nat) returns (indices: array<nat>)
    ensures fresh(indices) && indices[..] == Identity(n)
  {
    indices := new nat[n](i => i);
  }

  method ShuffleOne(hash: Data -> Digest, seed: Digest, indices: array<nat>, i: nat) returns (next: Digest)
    requires 0 < i < indices.Length
    modifies indices
    ensures Shuffled(hash, next, indices[..], i - 1) == Shuffled(hash, seed, old(indices[..]), i)
  {
    next := NextSeed(hash, seed, i);
    var j := Draw(next, i);
    indices[i], indices[j] := indices[j], indices[i];
    assert indices[..] == Swap(old(indices[..]), i, j);
  }

  method ShuffleAll(hash: Data -> Digest, seed: Digest, indices: array<nat>)
    requires indices.Length > 0
    modifies indices
    ensures indices[..] == Shuffled(hash, seed, old(indices[..]), indices.Length - 1)
  {
    var current, i := seed, indices.Length - 1;
    while i > 0
      invariant 0 <= i < indices.Length
      invariant Shuffled(hash, current, indices[..], i) == Shuffled(hash, seed, old(indices[..]), indices.Length - 1)
    {
      current := ShuffleOne(hash, current, indices, i);
      i := i - 1;
    }
  }

  /** `VrfOutput::permutation` and `_deterministic_permutation`: the same in-place shuffle. */
  method Permutation(hash: Data -> Digest, seed: Digest, n: nat) returns (perm: seq<nat>)
    ensures perm == PermutationSpec(hash, seed, n)
    ensures IsPermutation(perm, n)
  {
    PermutationSpecIsPermutation(hash, seed, n);
    if n == 0 {
      return [];
    }
    var indices := Numbered(n);
    ShuffleAll(hash, seed, indices);
    perm := indices[..];
  }

  // --- Data shards ---

  /** `assign_shards`: shard `s` goes to the peer at place `s mod n` of the shuffle. */
  function AssignShards(perm: seq<nat>, shards: nat): seq<nat>
    requires |perm| > 0
  {
    seq(shards, s requires 0 <= s < shards => perm[s % |perm|])
  }

  function Serves(peer: nat): nat -> bool {
    p => p == peer
  }

  lemma AssignShardsStep(perm: seq<nat>, shards: nat)
    requires |perm| > 0 && shards > 0
    ensures AssignShards(perm, shards) == AssignShards(perm, shards - 1) + [perm[(shards - 1) % |perm|]]
  {
  }

  lemma DivModStep(a: nat, n: nat)
    requires n > 0 && a > 0
    ensures (a - 1) % n + 1 < n ==> a % n == (a - 1) % n + 1 && a / n == (a - 1) / n
    ensures (a - 1) % n + 1 == n ==> a % n == 0 && a / n == (a - 1) / n + 1
  {
    var q, r := (a - 1) / n, (a - 1) % n;
    assert a == q * n + r + 1;
    if r + 1 < n {
      DivModUnique(a, n, q, r + 1);
    } else {
      assert (q + 1) * n == q * n + n;
      DivModUnique(a, n, q + 1, 0);
    }
  }

  /** The load of every peer: one shard for each full round, plus one in a begun round it has had its turn in. */
  lemma {:induction false} ShardLoad(perm: seq<nat>, shards: nat, place: nat)
    requires IsPermutation(perm, |perm|) && place < |perm|
    ensures Count(AssignShards(perm, shards), Serves(perm[place])) ==
            shards / |perm| + if place < shards % |perm| then 1 else 0
  {
    var n := |perm|;
    if shards == 0 {
    } else {
      ShardLoad(perm, shards - 1, place);
      AssignShardsStep(perm, shards);
      var last := [perm[(shards - 1) % n]];
      CountConcat(AssignShards(perm, shards - 1), last, Serves(perm[place]));
      assert Count(last, Serves(perm[place])) == (if (shards - 1) % n == place then 1 else 0) + Count(last[1..], Serves(perm[place]));
      DivModStep(shards, n);
    }
  }

  lemma QuotientPositive(a: nat, n: nat)
    requires a >= n > 0
    ensures a / n >= 1
  {
  }

  /** Loads differ by at most one, and no peer is idle once there are as many shards as peers. */
  lemma ShardsBalanced(perm: seq<nat>, shards: nat, a: nat, b: nat)
    requires IsPermutation(perm, |perm|) && a < |perm| && b < |perm|
    ensures Count(AssignShards(perm, shards), Serves(a)) <= Count(AssignShards(perm, shards), Serves(b)) + 1
    ensures shards >= |perm| ==> Count(AssignShards(perm, shards), Serves(a)) >= 1
  {
    PermutationOnto(perm, |perm|);
    ShardLoad(perm, shards, IndexOf(perm, a));
    ShardLoad(perm, shards, IndexOf(perm, b));
    if shards >= |perm| {
      QuotientPositive(shards, |perm|);
    }
  }
}
