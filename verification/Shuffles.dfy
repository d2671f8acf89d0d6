/** Which permutations the shuffle reaches: all of them, each by one list of draws. */
module Shuffles {
  import opened Sums
  import opened Bytes
  import opened Vrf

  // --- The shuffle as a list of draws ---

  /** A partner for every index, none beyond it. */
  predicate AreDraws(d: seq<nat>) {
    forall i | 0 <= i < |d| :: d[i] <= i
  }

  function Played(s: seq<nat>, d: seq<nat>, i: nat): (r: seq<nat>)
    requires i < |s| == |d| && AreDraws(d)
    ensures |r| == |s|
    decreases i
  {
    if i == 0 then s else Played(Swap(s, i, d[i]), d, i - 1)
  }

  predicate SameDraws(d: seq<nat>, e: seq<nat>, i: nat) {
    i < |d| == |e| && forall k | 0 < k <= i :: d[k] == e[k]
  }

  /** What the hash function draws from a seed. */
  ghost function DrawsFrom(hash: Data -> Digest, seed: Digest, n: nat, i: nat): (d: seq<nat>)
    requires i < n
    ensures |d| == n && AreDraws(d)
    decreases i
  {
    if i == 0 then seq(n, _ => 0)
    else
      var next := NextSeed(hash, seed, i);
      DrawsFrom(hash, next, n, i - 1)[i := Draw(next, i)]
  }

  lemma {:induction false} PlayedUpTo(s: seq<nat>, d: seq<nat>, e: seq<nat>, i: nat)
    requires i < |s| == |d| == |e| && AreDraws(d) && AreDraws(e) && SameDraws(d, e, i)
    ensures Played(s, d, i) == Played(s, e, i)
    decreases i
  {
    if i > 0 {
      PlayedUpTo(Swap(s, i, d[i]), d, e, i - 1);
    }
  }

  lemma {:induction false} ShuffledIsPlayed(hash: Data -> Digest, seed: Digest, s: seq<nat>, i: nat)
    requires i < |s|
    ensures Shuffled(hash, seed, s, i) == Played(s, DrawsFrom(hash, seed, |s|, i), i)
    decreases i
  {
    if i > 0 {
      var next := NextSeed(hash, seed, i);
      var j := Draw(next, i);
      ShuffledIsPlayed(hash, next, Swap(s, i, j), i - 1);
      PlayedUpTo(Swap(s, i, j), DrawsFrom(hash, seed, |s|, i), DrawsFrom(hash, next, |s|, i - 1), i - 1);
    }
  }

  // --- Every permutation has its draws ---

  predicate AgreeBeyond(s: seq<nat>, p: seq<nat>, i: nat) {
    |s| == |p| && forall k | i < k < |s| :: s[k] == p[k]
  }

  /** Where two arrangements agree beyond `i`, what one has at `i` the other has up to `i`. */
  lemma PlaceUpTo(s: seq<nat>, p: seq<nat>, i: nat) returns (j: nat)
    requires IsPermutation(s, |s|) && IsPermutation(p, |s|) && i < |s| && AgreeBeyond(s, p, i)
    ensures j <= i && s[j] == p[i]
  {
    PermutationOnto(s, |s|);
    j := IndexOf(s, p[i]);
  }

  lemma {:induction false} DrawsFor(s: seq<nat>, p: seq<nat>, i: nat) returns (d: seq<nat>)
    requires i < |s| && IsPermutation(s, |s|) && IsPermutation(p, |s|) && AgreeBeyond(s, p, i)
    ensures |d| == |s| && AreDraws(d) && Played(s, d, i) == p
    decreases i
  {
    var j := PlaceUpTo(s, p, i);
    if i == 0 {
      d := seq(|s|, _ => 0);
      assert s == p;
    } else {
      var t := Swap(s, i, j);
      SwapKeepsPermutation(s, i, j);
      var e := DrawsFor(t, p, i - 1);
      d := e[i := j];
      PlayedUpTo(t, d, e, i - 1);
    }
  }

  /** A hash function that answers the index hashed with the draw for it. */
  ghost function DrawHash(d: seq<nat>): Data -> Digest {
    (data: Data) =>
      var i := if |data| >= 8 then FromLittleEndian(data[|data| - 8..]) else 0;
      ToLittleEndian(if i < |d| then d[i] else 0, 8) + seq(24, _ => 0)
  }

  const TWO_TO_64: nat := 0x1_0000_0000_0000_0000

  lemma Pow256Eight()
    ensures Pow256(8) == TWO_TO_64
  {
    assert Pow256(0) == 1;
    assert Pow256(1) == 256 * Pow256(0);
    assert Pow256(2) == 256 * Pow256(1);
    assert Pow256(3) == 256 * Pow256(2);
    assert Pow256(4) == 256 * Pow256(3);
    assert Pow256(5) == 256 * Pow256(4);
    assert Pow256(6) == 256 * Pow256(5);
    assert Pow256(7) == 256 * Pow256(6);
    assert Pow256(8) == 256 * Pow256(7);
  }

  lemma Remainder(a: nat, b: nat)
    requires a < b
    ensures a % b == a
  {
  }

  lemma DrawHashDraws(d: seq<nat>, seed: Digest, i: nat)
    requires AreDraws(d) && i < |d| <= TWO_TO_64
    ensures Draw(NextSeed(DrawHash(d), seed, i), i) == d[i]
  {
    Pow256Eight();
    var data := seed + ToLittleEndian(i, 8);
    assert data[|data| - 8..] == ToLittleEndian(i, 8);
    LittleEndianRoundTrip(i, 8);
    LittleEndianRoundTrip(d[i], 8);
    var next := NextSeed(DrawHash(d), seed, i);
    assert next[..8] == ToLittleEndian(d[i], 8);
    Remainder(d[i], i + 1);
  }

  lemma {:induction false} DrawHashPlays(d: seq<nat>, seed: Digest, s: seq<nat>, i: nat)
    requires AreDraws(d) && i < |s| == |d| <= TWO_TO_64
    ensures Shuffled(DrawHash(d), seed, s, i) == Played(s, d, i)
    decreases i
  {
    if i > 0 {
      DrawHashDraws(d, seed, i);
      DrawHashPlays(d, NextSeed(DrawHash(d), seed, i), Swap(s, i, d[i]), i - 1);
    }
  }

  lemma SpecIsShuffled(hash: Data -> Digest, seed: Digest, n: nat, s: seq<nat>)
    requires n > 0 && s == Identity(n)
    ensures PermutationSpec(hash, seed, n) == Shuffled(hash, seed, s, n - 1)
  {
  }

  /** No arrangement of the peers is out of reach: from any seed some hash function shuffles them into it. */
  lemma EveryPermutationReached(p: seq<nat>, seed: Digest) returns (hash: Data -> Digest)
    requires IsPermutation(p, |p|) && |p| <= TWO_TO_64
    ensures PermutationSpec(hash, seed, |p|) == p
  {
    hash := DrawHash([]);
    if p != [] {
      var s := Identity(|p|);
      var d := DrawsFor(s, p, |p| - 1);
      hash := DrawHash(d);
      DrawHashPlays(d, seed, s, |p| - 1);
      SpecIsShuffled(hash, seed, |p|, s);
    }
  }

  // --- And only one list of them ---

  lemma {:induction false} LaterSwapsKeep(s: seq<nat>, d: seq<nat>, i: nat, k: nat)
    requires i < k < |s| == |d| && AreDraws(d)
    ensures Played(s, d, i)[k] == s[k]
    decreases i
  {
    if i > 0 {
      LaterSwapsKeep(Swap(s, i, d[i]), d, i - 1, k);
    }
  }

  lemma {:induction false} DrawsDetermined(s: seq<nat>, d: seq<nat>, e: seq<nat>, i: nat)
    requires i < |s| == |d| == |e| && AreDraws(d) && AreDraws(e) && IsPermutation(s, |s|)
    requires Played(s, d, i) == Played(s, e, i)
    ensures SameDraws(d, e, i)
    decreases i
  {
    if i > 0 {
      var t, u := Swap(s, i, d[i]), Swap(s, i, e[i]);
      LaterSwapsKeep(t, d, i - 1, i);
      LaterSwapsKeep(u, e, i - 1, i);
      assert s[d[i]] == s[e[i]];
      SwapKeepsPermutation(s, i, d[i]);
      DrawsDetermined(t, d, e, i - 1);
    }
  }

  lemma SpecIsPlayed(hash: Data -> Digest, seed: Digest, n: nat, s: seq<nat>)
    requires n > 0 && s == Identity(n)
    ensures |s| == n && PermutationSpec(hash, seed, n) == Played(s, DrawsFrom(hash, seed, n, n - 1), n - 1)
  {
    SpecIsShuffled(hash, seed, n, s);
    ShuffledIsPlayed(hash, seed, s, n - 1);
  }

  lemma PlayedSameIff(s: seq<nat>, d: seq<nat>, e: seq<nat>, i: nat)
    requires i < |s| == |d| == |e| && AreDraws(d) && AreDraws(e) && IsPermutation(s, |s|)
    ensures Played(s, d, i) == Played(s, e, i) <==> SameDraws(d, e, i)
  {
    if Played(s, d, i) == Played(s, e, i) { DrawsDetermined(s, d, e, i); }
    if SameDraws(d, e, i) { PlayedUpTo(s, d, e, i); }
  }

  /** Two shuffles end in the same arrangement if and only if they drew the same partners, so equally likely draws make all
      arrangements equally likely. */
  lemma SameArrangementIff(f: Data -> Digest, a: Digest, g: Data -> Digest, b: Digest, n: nat)
    requires n > 0
    ensures PermutationSpec(f, a, n) == PermutationSpec(g, b, n) <==>
      SameDraws(DrawsFrom(f, a, n, n - 1), DrawsFrom(g, b, n, n - 1), n - 1)
  {
    var s := Identity(n);
    SpecIsPlayed(f, a, n, s);
    SpecIsPlayed(g, b, n, s);
    PlayedSameIff(s, DrawsFrom(f, a, n, n - 1), DrawsFrom(g, b, n, n - 1), n - 1);
  }

  // --- The bytes drawn from ---

  /** The partner of index `i` is the number that the first eight bytes of the seed spell, least significant first, modulo i + 1. */
  lemma DrawIs(seed: Digest, i: nat)
    ensures Draw(seed, i) == (seed[0] + 256 * (seed[1] + 256 * (seed[2] + 256 * (seed[3] + 256 * (seed[4]
      + 256 * (seed[5] + 256 * (seed[6] + 256 * (seed[7] as int)))))))) % (i + 1)
  {
    var d := seed[..8];
    assert d[1..] == seed[1..8] && d[1..][1..] == seed[2..8] && seed[2..8][1..] == seed[3..8] && seed[3..8][1..] == seed[4..8];
    assert seed[4..8][1..] == seed[5..8] && seed[5..8][1..] == seed[6..8] && seed[6..8][1..] == seed[7..8] && seed[7..8][1..] == [];
    assert FromLittleEndian(seed[7..8]) == seed[7];
    assert FromLittleEndian(seed[6..8]) == seed[6] + 256 * (seed[7] as int);
    assert FromLittleEndian(seed[5..8]) == seed[5] + 256 * FromLittleEndian(seed[6..8]);
    assert FromLittleEndian(seed[4..8]) == seed[4] + 256 * FromLittleEndian(seed[5..8]);
    assert FromLittleEndian(seed[3..8]) == seed[3] + 256 * FromLittleEndian(seed[4..8]);
    assert FromLittleEndian(seed[2..8]) == seed[2] + 256 * FromLittleEndian(seed[3..8]);
    assert FromLittleEndian(seed[1..8]) == seed[1] + 256 * FromLittleEndian(seed[2..8]);
    assert FromLittleEndian(d) == seed[0] + 256 * FromLittleEndian(seed[1..8]);
  }

  lemma {:induction false} ZeroInBytes(n: nat)
    ensures forall i | 0 <= i < n :: ToLittleEndian(0, n)[i] == 0
  {
    if n > 0 { ZeroInBytes(n - 1); }
  }

  lemma OneInEight()
    ensures ToLittleEndian(1, 8) == [1, 0, 0, 0, 0, 0, 0, 0]
  {
    ZeroInBytes(7);
    assert ToLittleEndian(1, 8) == [1] + ToLittleEndian(0, 7);
  }

  /** Of two peers the first keeps its place exactly when the byte drawn from is odd. */
  lemma TwoPeers(hash: Data -> Digest, seed: Digest)
    ensures PermutationSpec(hash, seed, 2) == if hash(seed + [1, 0, 0, 0, 0, 0, 0, 0])[0] % 2 == 1 then [0, 1] else [1, 0]
  {
    var next := NextSeed(hash, seed, 1);
    OneInEight();
    DrawIs(next, 1);
    assert Draw(next, 1) == next[0] % 2;
    assert Identity(2) == [0, 1];
    SpecIsShuffled(hash, seed, 2, [0, 1]);
    assert Swap([0, 1], 1, 0) == [1, 0] && Swap([0, 1], 1, 1) == [0, 1];
  }
}
