/** Merkle roots over a list of chunks, and what two equal roots prove about the lists. */
module Merkle {
  import opened Bytes
  import opened Wrappers

  type Hash = Data -> Digest

  function HashLeaf(hash: Hash, data: Data): Digest {
    hash([0] + data)
  }

  function HashPair(hash: Hash, left: Digest, right: Digest): Digest {
    hash([1] + left + right)
  }

  /** One reduction: neighbours are paired, an odd one out is promoted. */
  function NextLayer(hash: Hash, layer: seq<Digest>): (r: seq<Digest>)
    ensures |r| == (|layer| + 1) / 2
  {
    if |layer| < 2 then layer
    else [HashPair(hash, layer[0], layer[1])] + NextLayer(hash, layer[2..])
  }

  function LayerRoot(hash: Hash, layer: seq<Digest>): Digest
    requires layer != []
    decreases |layer|
  {
    if |layer| == 1 then layer[0] else LayerRoot(hash, NextLayer(hash, layer))
  }

  function Zeros(n: nat): (r: Data)
    ensures |r| == n
  {
    if n == 0 then [] else [0] + Zeros(n - 1)
  }

  function ZeroDigest(): Digest {
    Zeros(32)
  }

  function LeafHashes(hash: Hash, chunks: seq<Data>): (r: seq<Digest>)
    ensures |r| == |chunks|
  {
    seq(|chunks|, i requires 0 <= i < |chunks| => HashLeaf(hash, chunks[i]))
  }

  function MerkleRoot(hash: Hash, chunks: seq<Data>): Digest {
    if chunks == [] then ZeroDigest() else LayerRoot(hash, LeafHashes(hash, chunks))
  }

  lemma {:induction false} NextLayerAt(hash: Hash, layer: seq<Digest>, p: nat)
    requires p < |NextLayer(hash, layer)|
    ensures NextLayer(hash, layer)[p] ==
            if 2 * p + 1 < |layer| then HashPair(hash, layer[2 * p], layer[2 * p + 1]) else layer[2 * p]
  {
    if |layer| >= 2 && p > 0 {
      NextLayerAt(hash, layer[2..], p - 1);
    }
  }

  /** The pairing loop over `layer`, two at a time. */
  method ReduceLayer(hash: Hash, layer: seq<Digest>) returns (next: seq<Digest>)
    ensures next == NextLayer(hash, layer)
  {
    next := [];
    var i := 0;
    while i < |layer|
      invariant i == 2 * |next| && |next| <= (|layer| + 1) / 2
      invariant forall p | 0 <= p < |next| :: next[p] == NextLayer(hash, layer)[p]
    {
      NextLayerAt(hash, layer, |next|);
      if i + 1 < |layer| {
        next := next + [HashPair(hash, layer[i], layer[i + 1])];
      } else {
        next := next + [layer[i]];
      }
      i := i + 2;
    }
  }

  /** The reduction loop ends because every layer is strictly shorter than the one before. */
  method ReduceToRoot(hash: Hash, leaves: seq<Digest>) returns (root: Digest)
    requires leaves != []
    ensures root == LayerRoot(hash, leaves)
  {
    var layer := leaves;
    while |layer| > 1
      invariant layer != [] && LayerRoot(hash, layer) == LayerRoot(hash, leaves)
      decreases |layer|
    {
      layer := ReduceLayer(hash, layer);
    }
    root := layer[0];
  }

  /** `merkle_root`. */
  method ComputeRoot(hash: Hash, chunks: seq<Data>) returns (root: Digest)
    ensures root == MerkleRoot(hash, chunks)
  {
    if chunks == [] {
      return ZeroDigest();
    }
    root := ReduceToRoot(hash, LeafHashes(hash, chunks));
  }

  lemma {:induction false} ZerosAre(n: nat)
    ensures forall i | 0 <= i < n :: Zeros(n)[i] == 0
  {
    if n > 0 { ZerosAre(n - 1); }
  }

  /** The roots of up to three chunks: a leaf is hashed behind a byte 0, a pair behind a byte 1, an odd one passes up, and no
      chunks at all have 32 zeros for a root. */
  lemma SmallRoots(hash: Hash, a: Data, b: Data, c: Data)
    ensures |MerkleRoot(hash, [])| == 32 && forall i | 0 <= i < 32 :: MerkleRoot(hash, [])[i] == 0
    ensures MerkleRoot(hash, [a]) == hash([0] + a)
    ensures MerkleRoot(hash, [a, b]) == hash([1] + hash([0] + a) + hash([0] + b))
    ensures MerkleRoot(hash, [a, b, c]) == hash([1] + hash([1] + hash([0] + a) + hash([0] + b)) + hash([0] + c))
  {
    ZerosAre(32);
    var x, y, z := HashLeaf(hash, a), HashLeaf(hash, b), HashLeaf(hash, c);
    assert LeafHashes(hash, [a]) == [x];
    assert LeafHashes(hash, [a, b]) == [x, y] && [x, y][2..] == [];
    assert NextLayer(hash, [x, y]) == [HashPair(hash, x, y)];
    assert LayerRoot(hash, [HashPair(hash, x, y)]) == HashPair(hash, x, y) == LayerRoot(hash, [x, y]);
    assert LeafHashes(hash, [a, b, c]) == [x, y, z] && [x, y, z][2..] == [z];
    var xy := HashPair(hash, x, y);
    assert NextLayer(hash, [x, y, z]) == [xy, z] && [xy, z][2..] == [];
    assert NextLayer(hash, [xy, z]) == [HashPair(hash, xy, z)];
    assert LayerRoot(hash, [xy, z]) == HashPair(hash, xy, z);
  }

  // --- The tree behind a root ---

  datatype Tree = Leaf(data: Data) | Node(left: Tree, right: Tree)

  /** The hash of a tree whose leaves are hashed under `prefix`. */
  function TreeHash(hash: Hash, prefix: Data, t: Tree): Digest {
    match t
    case Leaf(data) => hash(prefix + data)
    case Node(l, r) => HashPair(hash, TreeHash(hash, prefix, l), TreeHash(hash, prefix, r))
  }

  function Leaves(t: Tree): seq<Data> {
    match t
    case Leaf(data) => [data]
    case Node(l, r) => Leaves(l) + Leaves(r)
  }

  function AllLeaves(trees: seq<Tree>): seq<Data> {
    if trees == [] then [] else Leaves(trees[0]) + AllLeaves(trees[1..])
  }

  function NextTrees(trees: seq<Tree>): (r: seq<Tree>)
    ensures |r| == (|trees| + 1) / 2
  {
    if |trees| < 2 then trees else [Node(trees[0], trees[1])] + NextTrees(trees[2..])
  }

  function BuildTree(trees: seq<Tree>): Tree
    requires trees != []
    decreases |trees|
  {
    if |trees| == 1 then trees[0] else BuildTree(NextTrees(trees))
  }

  function TreeHashes(hash: Hash, prefix: Data, trees: seq<Tree>): (r: seq<Digest>)
    ensures |r| == |trees|
  {
    seq(|trees|, i requires 0 <= i < |trees| => TreeHash(hash, prefix, trees[i]))
  }

  function LeafTrees(chunks: seq<Data>): (r: seq<Tree>)
    ensures |r| == |chunks|
  {
    seq(|chunks|, i requires 0 <= i < |chunks| => Leaf(chunks[i]))
  }

  lemma {:induction false} HashesStep(hash: Hash, prefix: Data, trees: seq<Tree>)
    ensures TreeHashes(hash, prefix, NextTrees(trees)) == NextLayer(hash, TreeHashes(hash, prefix, trees))
    decreases |trees|
  {
    if |trees| >= 2 {
      HashesStep(hash, prefix, trees[2..]);
      assert TreeHashes(hash, prefix, trees)[2..] == TreeHashes(hash, prefix, trees[2..]);
      assert NextTrees(trees) == [Node(trees[0], trees[1])] + NextTrees(trees[2..]);
    }
  }

  lemma {:induction false} LeavesStep(trees: seq<Tree>)
    ensures AllLeaves(NextTrees(trees)) == AllLeaves(trees)
    decreases |trees|
  {
    if |trees| >= 2 {
      LeavesStep(trees[2..]);
      assert AllLeaves(trees) == Leaves(trees[0]) + (Leaves(trees[1]) + AllLeaves(trees[2..])) by {
        assert trees[1..][1..] == trees[2..];
      }
    }
  }

  lemma {:induction false} BuildTreeFacts(hash: Hash, prefix: Data, trees: seq<Tree>)
    requires trees != []
    ensures TreeHash(hash, prefix, BuildTree(trees)) == LayerRoot(hash, TreeHashes(hash, prefix, trees))
    ensures Leaves(BuildTree(trees)) == AllLeaves(trees)
    decreases |trees|
  {
    if |trees| == 1 {
      assert trees[1..] == [];
    } else {
      HashesStep(hash, prefix, trees);
      LeavesStep(trees);
      BuildTreeFacts(hash, prefix, NextTrees(trees));
    }
  }

  lemma {:induction false} LeafTreesLeaves(chunks: seq<Data>)
    ensures AllLeaves(LeafTrees(chunks)) == chunks
  {
    if chunks == [] {
    } else {
      LeafTreesLeaves(chunks[1..]);
      assert LeafTrees(chunks)[1..] == LeafTrees(chunks[1..]);
    }
  }

  /** The tree over a list of chunks. */
  function TreeOver(chunks: seq<Data>): Tree
    requires chunks != []
  {
    BuildTree(LeafTrees(chunks))
  }

  // --- Binding ---

  function Preimage(hash: Hash, prefix: Data, t: Tree): Data {
    match t
    case Leaf(data) => prefix + data
    case Node(l, r) => [1] + TreeHash(hash, prefix, l) + TreeHash(hash, prefix, r)
  }

  /** Going down two trees in parallel, the hash inputs are the same as far as both go. */
  predicate Alike(hash: Hash, prefix: Data, a: Tree, b: Tree) {
    && Preimage(hash, prefix, a) == Preimage(hash, prefix, b)
    && (a.Node? && b.Node? ==> Alike(hash, prefix, a.left, b.left) && Alike(hash, prefix, a.right, b.right))
  }

  /** Walking two trees of equal hash in parallel, down to the first place where the hash inputs differ. */
  function FindCollision(hash: Hash, prefix: Data, a: Tree, b: Tree): Option<(Data, Data)> {
    if Preimage(hash, prefix, a) != Preimage(hash, prefix, b) then Some((Preimage(hash, prefix, a), Preimage(hash, prefix, b)))
    else if a.Leaf? || b.Leaf? then None
    else if FindCollision(hash, prefix, a.left, b.left).Some? then FindCollision(hash, prefix, a.left, b.left)
    else FindCollision(hash, prefix, a.right, b.right)
  }

  ghost predicate IsCollision(hash: Hash, x: Data, y: Data) {
    x != y && hash(x) == hash(y)
  }

  lemma SamePairInput(a: Digest, b: Digest, c: Digest, d: Digest)
    requires [1] + a + b == [1] + c + d
    ensures a == c && b == d
  {
    assert a == ([1] + a + b)[1..33] && c == ([1] + c + d)[1..33];
    assert b == ([1] + a + b)[33..] && d == ([1] + c + d)[33..];
  }

  /** Whatever the leaves are hashed under: two trees of one hash are alike, or the walk ends in a collision. */
  lemma {:induction false} CollisionFound(hash: Hash, prefix: Data, a: Tree, b: Tree)
    requires TreeHash(hash, prefix, a) == TreeHash(hash, prefix, b)
    ensures var c := FindCollision(hash, prefix, a, b);
      if Alike(hash, prefix, a, b) then c == None else c.Some? && IsCollision(hash, c.value.0, c.value.1)
    decreases a
  {
    if Preimage(hash, prefix, a) == Preimage(hash, prefix, b) && a.Node? && b.Node? {
      SamePairInput(TreeHash(hash, prefix, a.left), TreeHash(hash, prefix, a.right),
                    TreeHash(hash, prefix, b.left), TreeHash(hash, prefix, b.right));
      CollisionFound(hash, prefix, a.left, b.left);
      CollisionFound(hash, prefix, a.right, b.right);
    }
  }

  lemma SameSuffix(prefix: Data, x: Data, y: Data)
    requires prefix + x == prefix + y
    ensures x == y
  {
    assert x == (prefix + x)[|prefix|..] && y == (prefix + y)[|prefix|..];
  }

  /** No leaf of the tree is hashed as a pair of digests is: 65 bytes, the first of them 1. */
  predicate NoLeafIsPair(prefix: Data, t: Tree) {
    match t
    case Leaf(data) => !(|prefix + data| == 65 && (prefix + data)[0] == 1)
    case Node(l, r) => NoLeafIsPair(prefix, l) && NoLeafIsPair(prefix, r)
  }

  /** Where no leaf can pose as a pair, alike trees are the same tree. */
  lemma {:induction false} AlikeEqual(hash: Hash, prefix: Data, a: Tree, b: Tree)
    requires Alike(hash, prefix, a, b) && NoLeafIsPair(prefix, a) && NoLeafIsPair(prefix, b)
    ensures a == b
    decreases a
  {
    match (a, b)
    case (Leaf(x), Leaf(y)) => SameSuffix(prefix, x, y);
    case (Node(_, _), Node(_, _)) =>
      AlikeEqual(hash, prefix, a.left, b.left);
      AlikeEqual(hash, prefix, a.right, b.right);
    case _ =>
  }

  function LeafPrefix(): Data {
    [0]
  }

  lemma {:induction false} PrefixedLeaves(t: Tree)
    ensures NoLeafIsPair(LeafPrefix(), t)
  {
    if t.Node? {
      PrefixedLeaves(t.left);
      PrefixedLeaves(t.right);
    }
  }

  function ExtractCollision(hash: Hash, a: seq<Data>, b: seq<Data>): Option<(Data, Data)>
    requires a != [] && b != []
  {
    FindCollision(hash, LeafPrefix(), TreeOver(a), TreeOver(b))
  }

  lemma TreeOverFacts(hash: Hash, chunks: seq<Data>)
    requires chunks != []
    ensures TreeHash(hash, LeafPrefix(), TreeOver(chunks)) == MerkleRoot(hash, chunks)
    ensures Leaves(TreeOver(chunks)) == chunks
  {
    var trees := LeafTrees(chunks);
    assert TreeHashes(hash, LeafPrefix(), trees) == LeafHashes(hash, chunks);
    BuildTreeFacts(hash, LeafPrefix(), trees);
    LeafTreesLeaves(chunks);
  }

  /** Two nonempty chunk lists of any lengths with one root are equal, or they yield two colliding hash inputs. */
  lemma MerkleBinding(hash: Hash, a: seq<Data>, b: seq<Data>)
    requires a != [] && b != [] && MerkleRoot(hash, a) == MerkleRoot(hash, b)
    ensures a == b || (ExtractCollision(hash, a, b).Some?
              && IsCollision(hash, ExtractCollision(hash, a, b).value.0, ExtractCollision(hash, a, b).value.1))
  {
    TreeOverFacts(hash, a);
    TreeOverFacts(hash, b);
    CollisionFound(hash, LeafPrefix(), TreeOver(a), TreeOver(b));
    PrefixedLeaves(TreeOver(a));
    PrefixedLeaves(TreeOver(b));
    if Alike(hash, LeafPrefix(), TreeOver(a), TreeOver(b)) {
      AlikeEqual(hash, LeafPrefix(), TreeOver(a), TreeOver(b));
    }
  }
}
