/** What the root of a gradient message gives away about an edit of the message, and what it does not. */
module WireBinding {
  import opened Bytes
  import opened Wrappers
  import opened Gradients
  import opened Merkle
  import opened Wire
  import opened WireDecode

  // --- What the root covers ---

  /** What the hash of a parameter covers: its name and its bytes, put together without a boundary. */
  function Covered(codec: Codec, p: Params, i: nat): Data
    requires i < |p.names|
  {
    codec.utf8(p.names[i]) + RawOf(p, p.names[i])
  }

  function AllCovered(codec: Codec, p: Params): (r: seq<Data>)
    ensures |r| == |p.names|
  {
    seq(|p.names|, i requires 0 <= i < |p.names| => Covered(codec, p, i))
  }

  /** The leaves of a message are hashed without a prefix. */
  function WireTree(codec: Codec, p: Params): Tree
    requires p.names != []
  {
    TreeOver(AllCovered(codec, p))
  }

  lemma WireTreeFacts(codec: Codec, hash: Hash, p: Params)
    requires p.names != []
    ensures TreeHash(hash, [], WireTree(codec, p)) == ParsedRoot(codec, hash, p)
    ensures Leaves(WireTree(codec, p)) == AllCovered(codec, p)
  {
    var chunks := AllCovered(codec, p);
    var trees := LeafTrees(chunks);
    forall i | 0 <= i < |chunks| ensures TreeHashes(hash, [], trees)[i] == ParsedLeaves(codec, hash, p)[i] {
      assert [] + chunks[i] == chunks[i];
    }
    assert TreeHashes(hash, [], trees) == ParsedLeaves(codec, hash, p);
    BuildTreeFacts(hash, [], trees);
    LeafTreesLeaves(chunks);
  }

  /** Two messages cover the same: as many parameters, and the same name and bytes together in each place. */
  predicate SameCovered(codec: Codec, a: Params, b: Params) {
    |a.names| == |b.names| && forall i | 0 <= i < |a.names| :: Covered(codec, a, i) == Covered(codec, b, i)
  }

  // --- Binding, for any two lists of parameters ---

  /** The hash inputs are the same as far down as both trees go, or both lists are empty. */
  predicate SameInputs(codec: Codec, hash: Hash, a: Params, b: Params) {
    if a.names == [] || b.names == [] then a.names == b.names
    else Alike(hash, [], WireTree(codec, a), WireTree(codec, b))
  }

  datatype Finding = Nothing | Collision(x: Data, y: Data) | ZeroPreimage(z: Data)

  ghost predicate Proves(f: Finding, hash: Hash) {
    match f
    case Nothing => false
    case Collision(x, y) => IsCollision(hash, x, y)
    case ZeroPreimage(z) => hash(z) == ZeroDigest()
  }

  /** What two lists of parameters with one root bring to light. */
  function Compare(codec: Codec, hash: Hash, a: Params, b: Params): Finding {
    if a.names == [] && b.names == [] then Nothing
    else if a.names == [] then ZeroPreimage(Preimage(hash, [], WireTree(codec, b)))
    else if b.names == [] then ZeroPreimage(Preimage(hash, [], WireTree(codec, a)))
    else
      match FindCollision(hash, [], WireTree(codec, a), WireTree(codec, b))
      case None => Nothing
      case Some((x, y)) => Collision(x, y)
  }

  lemma {:induction false} AlikeSameHash(hash: Hash, a: Tree, b: Tree)
    requires Alike(hash, [], a, b)
    ensures TreeHash(hash, [], a) == TreeHash(hash, [], b)
  {
    assert TreeHash(hash, [], a) == hash(Preimage(hash, [], a)) && TreeHash(hash, [], b) == hash(Preimage(hash, [], b));
  }

  /** Equal hash inputs give equal roots, and equal roots give equal hash inputs, or else two colliding inputs or one that
      hashes to zero. */
  lemma RootsBindInputs(codec: Codec, hash: Hash, a: Params, b: Params)
    ensures SameInputs(codec, hash, a, b) ==> ParsedRoot(codec, hash, a) == ParsedRoot(codec, hash, b)
    ensures ParsedRoot(codec, hash, a) == ParsedRoot(codec, hash, b) && !SameInputs(codec, hash, a, b)
            ==> Proves(Compare(codec, hash, a, b), hash)
  {
    if a.names != [] { WireTreeFacts(codec, hash, a); }
    if b.names != [] { WireTreeFacts(codec, hash, b); }
    if a.names != [] && b.names != [] {
      var s, t := WireTree(codec, a), WireTree(codec, b);
      if Alike(hash, [], s, t) { AlikeSameHash(hash, s, t); }
      if TreeHash(hash, [], s) == TreeHash(hash, [], t) { CollisionFound(hash, [], s, t); }
    }
  }

  /** A parameter that is hashed as a pair of digests is: 65 bytes, the first of them 1. */
  predicate PosesAsPair(data: Data) {
    |data| == 65 && data[0] == 1
  }

  predicate NonePoses(codec: Codec, p: Params) {
    forall i | 0 <= i < |p.names| :: !PosesAsPair(Covered(codec, p, i))
  }

  lemma {:induction false} NoneInTree(t: Tree)
    requires forall data | data in Leaves(t) :: !PosesAsPair(data)
    ensures NoLeafIsPair([], t)
  {
    match t
    case Leaf(data) =>
      assert [] + data == data && data in Leaves(t);
    case Node(l, r) =>
      NoneInTree(l);
      NoneInTree(r);
  }

  lemma {:induction false} AlikeItself(hash: Hash, t: Tree)
    ensures Alike(hash, [], t, t)
  {
    if t.Node? {
      AlikeItself(hash, t.left);
      AlikeItself(hash, t.right);
    }
  }

  /** Unless some parameter poses as a pair, the same hash inputs are the same names and bytes. */
  lemma InputsAreCovered(codec: Codec, hash: Hash, a: Params, b: Params)
    ensures SameCovered(codec, a, b) ==> SameInputs(codec, hash, a, b)
    ensures SameInputs(codec, hash, a, b) && NonePoses(codec, a) && NonePoses(codec, b) ==> SameCovered(codec, a, b)
  {
    if SameCovered(codec, a, b) {
      assert AllCovered(codec, a) == AllCovered(codec, b);
      if a.names != [] { AlikeItself(hash, WireTree(codec, a)); }
    }
    if a.names != [] && b.names != [] && SameInputs(codec, hash, a, b) && NonePoses(codec, a) && NonePoses(codec, b) {
      WireTreeFacts(codec, hash, a);
      WireTreeFacts(codec, hash, b);
      NoneInTree(WireTree(codec, a));
      NoneInTree(WireTree(codec, b));
      AlikeEqual(hash, [], WireTree(codec, a), WireTree(codec, b));
      forall i | 0 <= i < |a.names| ensures Covered(codec, a, i) == Covered(codec, b, i) {
        assert AllCovered(codec, a)[i] == AllCovered(codec, b)[i];
      }
    }
  }

  /** Any two lists of parameters, of any two lengths, none of them posing as a pair: what the root covers is the same
      exactly when the roots are, or two colliding hash inputs or one that hashes to zero are found. */
  lemma RootBindsCovered(codec: Codec, hash: Hash, a: Params, b: Params)
    ensures SameCovered(codec, a, b) ==> ParsedRoot(codec, hash, a) == ParsedRoot(codec, hash, b)
    ensures ParsedRoot(codec, hash, a) == ParsedRoot(codec, hash, b) && NonePoses(codec, a) && NonePoses(codec, b) ==>
      SameCovered(codec, a, b) || Proves(Compare(codec, hash, a, b), hash)
  {
    RootsBindInputs(codec, hash, a, b);
    InputsAreCovered(codec, hash, a, b);
  }

  // --- What decoding refuses ---

  lemma FirstByte(rest: Data)
    ensures ParseNumber(rest, 1) == if rest == [] then None else Some((rest[0], rest[1..]))
  {
    if rest != [] {
      var first := rest[..1];
      assert first == [rest[0]] && first[1..] == [];
      assert FromLittleEndian(first) == first[0] + 256 * FromLittleEndian([]);
    }
  }

  /** Where the fields of the header lie: four bytes of magic, the version, the flags, the root. */
  lemma HeaderFields(codec: Codec, data: Data, p: Parsed)
    requires Parse(codec, data) == Ok(p)
    ensures |data| >= 42 && data[..4] == [0x4F, 0x43, 0x47, 0x52] && data[4] == 1 && p.flags == data[5] && p.root == data[6..38]
  {
    var r0, r1, r2 := data[4..], data[5..], data[6..];
    assert data[..4] == Magic();
    assert r0[1..] == r1 && r1[1..] == r2 && r2[..32] == data[6..38];
    FirstByte(r0);
    FirstByte(r1);
  }

  /** Too short, without the magic bytes, or of another version: refused, whatever else the data says. */
  lemma ForeignDataRefused(codec: Codec, hash: Hash, c: Option<Compressor>, data: Data)
    ensures |data| < 42 || data[..4] != [0x4F, 0x43, 0x47, 0x52] || data[4] != 1 ==> DecodeSpec(codec, hash, c, data).Raises?
    ensures |data| < 4 || data[..4] != [0x4F, 0x43, 0x47, 0x52] ==> DecodeSpec(codec, hash, c, data) == Raises(BadMagic)
    ensures |data| > 4 && data[..4] == [0x4F, 0x43, 0x47, 0x52] && data[4] != 1 ==> DecodeSpec(codec, hash, c, data) == Raises(BadVersion)
  {
    if Parse(codec, data).Ok? { HeaderFields(codec, data, Parse(codec, data).value); }
    if |data| > 4 { FirstByte(data[4..]); }
  }

  lemma {:induction false} RebuildErrors(p: Params, names: seq<string>, acc: WireGradient)
    ensures Rebuild(p, names, acc).Ok? || Rebuild(p, names, acc) == Raises(BadTensor)
    decreases |names|
  {
    if names != [] && IsTensorData(RawOf(p, names[0]), ShapeOf(p, names[0])) {
      RebuildErrors(p, names[1..], acc[names[0] := WireTensor(ShapeOf(p, names[0]), BytesToWords(RawOf(p, names[0])))]);
    }
  }

  lemma RestoreKeepsRoot(c: Option<Compressor>, p: Parsed)
    ensures Restore(c, p) != Raises(MerkleMismatch)
  {
    RebuildErrors(p.params, p.params.names, map[]);
  }

  /** With any number of parameters and any compressor: a message is refused for its root exactly when the root it carries is not
      the one over the names and bytes it carries. */
  lemma MismatchRefusedIff(codec: Codec, hash: Hash, c: Option<Compressor>, data: Data, p: Parsed)
    requires Parse(codec, data) == Ok(p)
    ensures DecodeSpec(codec, hash, c, data) == Raises(MerkleMismatch) <==> data[6..38] != ParsedRoot(codec, hash, p.params)
    ensures DecodeSpec(codec, hash, c, data).Ok? ==> data[6..38] == ParsedRoot(codec, hash, p.params)
  {
    HeaderFields(codec, data, p);
    RestoreKeepsRoot(c, p);
  }

  /** Whatever is done to an encoded message behind its root field: what decoding still accepts has the names and bytes that were
      encoded, or one of the two lists has a parameter that poses as a pair, or the hash function is exposed. */
  lemma TamperingRefused(codec: Codec, hash: Hash, c: Option<Compressor>, g: WireGradient, meta: Metadata, sent: Params,
                         d: Option<Compressor>, data: Data)
    requires Faithful(codec) && FitsWire(codec, c, g, meta) && Carries(sent, c, g)
    requires |data| >= 38 && data[6..38] == Message(codec, hash, c, g, meta)[6..38]
    requires DecodeSpec(codec, hash, d, data).Ok?
    ensures Parse(codec, data).Ok?
    ensures var received := Parse(codec, data).value.params;
      NonePoses(codec, received) && NonePoses(codec, sent) ==>
      SameCovered(codec, received, sent) || Proves(Compare(codec, hash, received, sent), hash)
  {
    var p := Parse(codec, data).value;
    MismatchRefusedIff(codec, hash, d, data, p);
    ParseMessage(codec, hash, c, g, meta);
    HeaderFields(codec, Message(codec, hash, c, g, meta), Parse(codec, Message(codec, hash, c, g, meta)).value);
    RootAgrees(codec, hash, c, g, sent);
    RootBindsCovered(codec, hash, p.params, sent);
  }

  // --- Many parameters forged into one ---

  lemma {:induction false} ManyMakeNode(trees: seq<Tree>)
    requires |trees| >= 2
    ensures BuildTree(trees).Node?
    decreases |trees|
  {
    if |trees| == 2 {
      assert NextTrees(trees) == [Node(trees[0], trees[1])] + NextTrees([]);
    } else {
      ManyMakeNode(NextTrees(trees));
    }
  }

  /** The two digests under the root, as the bytes of one tensor of sixteen words. */
  function Pair(codec: Codec, hash: Hash, p: Params): (r: Data)
    requires |p.names| >= 2
    ensures |r| == 64
  {
    var t := WireTree(codec, p);
    ManyMakeNode(LeafTrees(AllCovered(codec, p)));
    TreeHash(hash, [], t.left) + TreeHash(hash, [], t.right)
  }

  /** One parameter named by a byte 1, carrying that pair. */
  function Forged(codec: Codec, hash: Hash, p: Params, name: string): Params
    requires |p.names| >= 2
  {
    Params([name], map[name := Pair(codec, hash, p)], map[name := [16]])
  }

  lemma ForgedRoot(codec: Codec, hash: Hash, p: Params, name: string)
    requires |p.names| >= 2 && codec.utf8(name) == [1]
    ensures ParsedRoot(codec, hash, Forged(codec, hash, p, name)) == ParsedRoot(codec, hash, p)
    ensures PosesAsPair(Covered(codec, Forged(codec, hash, p, name), 0))
  {
    var f, t := Forged(codec, hash, p, name), WireTree(codec, p);
    ManyMakeNode(LeafTrees(AllCovered(codec, p)));
    assert Covered(codec, f, 0) == Preimage(hash, [], t);
    WireTreeFacts(codec, hash, p);
  }

  /** The gradient whose only tensor is made of the pair. */
  function ForgedGradient(codec: Codec, hash: Hash, p: Params, name: string): WireGradient
    requires |p.names| >= 2
  {
    map[name := WireTensor([16], BytesToWords(Pair(codec, hash, p)))]
  }

  /** Whatever two or more parameters a message carries, one parameter of 64 bytes has the same root without any collision,
      and decoding accepts it wherever the root was right. */
  lemma ForgeryPasses(codec: Codec, hash: Hash, p: Parsed, name: string)
    requires |p.params.names| >= 2 && codec.utf8(name) == [1]
    ensures var forged := Forged(codec, hash, p.params, name);
      && ParsedRoot(codec, hash, forged) == ParsedRoot(codec, hash, p.params) && !SameCovered(codec, forged, p.params)
      && Finish(codec, hash, None, p.(params := forged)) ==
         if ParsedRoot(codec, hash, p.params) != p.root then Raises(MerkleMismatch)
         else Ok((ForgedGradient(codec, hash, p.params, name), p.metadata))
  {
    var forged := Forged(codec, hash, p.params, name);
    ForgedRoot(codec, hash, p.params, name);
    assert Numel([16]) == 16 && IsTensorData(RawOf(forged, name), ShapeOf(forged, name));
    var g := ForgedGradient(codec, hash, p.params, name);
    assert Rebuild(forged, forged.names, map[]) == Rebuild(forged, [], g);
    assert Deserialize(forged) == Ok(g);
  }

  lemma {:induction false} BytesRoundTrip(data: Data)
    ensures ToLittleEndian(FromLittleEndian(data), |data|) == data
  {
    if data != [] {
      BytesRoundTrip(data[1..]);
      assert data == [data[0]] + data[1..];
    }
  }

  lemma {:induction false} WordsOfBytes(data: Data)
    requires |data| % 4 == 0
    ensures WordBytes(BytesToWords(data)) == data
  {
    if data != [] {
      BytesRoundTrip(data[..4]);
      WordsOfBytes(data[4..]);
      assert BytesToWords(data)[1..] == BytesToWords(data[4..]);
      assert data == data[..4] + data[4..];
    }
  }

  lemma ForgedGradientRoot(codec: Codec, hash: Hash, p: Params, name: string)
    requires |p.names| >= 2 && codec.utf8(name) == [1]
    ensures var g := ForgedGradient(codec, hash, p, name);
      WellFormedWire(g) && GradientRoot(codec, hash, None, g, SortedNames(g.Keys)) == ParsedRoot(codec, hash, p)
  {
    var g := ForgedGradient(codec, hash, p, name);
    assert g.Keys == {name} && Numel([16]) == 16;
    SingleName(name);
    WordsOfBytes(Pair(codec, hash, p));
    ForgedRoot(codec, hash, p, name);
    assert GradientLeaves(codec, hash, None, g, [name]) == ParsedLeaves(codec, hash, Forged(codec, hash, p, name));
  }

  lemma ForgedGradientFits(codec: Codec, hash: Hash, p: Params, name: string, meta: Metadata)
    requires |p.names| >= 2 && codec.utf8(name) == [1] && |codec.json(meta)| < 0x1_0000_0000
    ensures FitsWire(codec, None, ForgedGradient(codec, hash, p, name), meta)
  {
  }

  lemma ForgedGradientDecodes(codec: Codec, hash: Hash, p: Params, name: string, meta: Metadata)
    requires |p.names| >= 2 && Faithful(codec) && codec.utf8(name) == [1] && |codec.json(meta)| < 0x1_0000_0000
    ensures var g := ForgedGradient(codec, hash, p, name);
      DecodeSpec(codec, hash, None, Message(codec, hash, None, g, meta)) == Ok((g, Some(meta)))
  {
    var g := ForgedGradient(codec, hash, p, name);
    ForgedGradientRoot(codec, hash, p, name);
    ForgedGradientFits(codec, hash, p, name, meta);
    assert g[name].words != [];
    RoundTripIff(codec, hash, g, meta);
  }

  lemma CarryingList(c: Option<Compressor>, g: WireGradient) returns (p: Params)
    ensures Carries(p, c, g) && |p.names| == |g|
  {
    p := Folded(c, g, SortedNames(g.Keys), NO_PARAMS);
    FoldedCarries(c, g);
    SortedNamesFacts(g.Keys);
  }

  /** So for every gradient of two or more tensors there is another one, of a single tensor, with the same root; it is
      encoded and decoded like any other. */
  lemma TwoGradientsOneRoot(codec: Codec, hash: Hash, c: Option<Compressor>, g: WireGradient, name: string, meta: Metadata)
    returns (forged: WireGradient)
    requires |g| >= 2 && Faithful(codec) && codec.utf8(name) == [1] && |codec.json(meta)| < 0x1_0000_0000
    ensures forged.Keys == {name} && FitsWire(codec, None, forged, meta)
    ensures GradientRoot(codec, hash, None, forged, SortedNames(forged.Keys)) == GradientRoot(codec, hash, c, g, SortedNames(g.Keys))
    ensures DecodeSpec(codec, hash, None, Message(codec, hash, None, forged, meta)) == Ok((forged, Some(meta)))
  {
    var p := CarryingList(c, g);
    RootAgrees(codec, hash, c, g, p);
    forged := ForgedGradient(codec, hash, p, name);
    ForgedGradientRoot(codec, hash, p, name);
    ForgedGradientFits(codec, hash, p, name, meta);
    ForgedGradientDecodes(codec, hash, p, name, meta);
  }

  // --- What the root does not cover ---

  function Reshaped(p: Params, name: string, shape: seq<nat>): Params {
    p.(shapes := p.shapes[name := shape])
  }

  function ReshapedGradient(g: WireGradient, name: string, shape: seq<nat>): WireGradient {
    if name in g then g[name := WireTensor(shape, g[name].words)] else g
  }

  lemma {:induction false} RebuildReshaped(p: Params, name: string, shape: seq<nat>, names: seq<string>, acc: WireGradient)
    requires Numel(shape) == Numel(ShapeOf(p, name))
    ensures Rebuild(Reshaped(p, name, shape), names, ReshapedGradient(acc, name, shape)) ==
      if Rebuild(p, names, acc).Ok? then Ok(ReshapedGradient(Rebuild(p, names, acc).value, name, shape))
      else Rebuild(p, names, acc)
    decreases |names|
  {
    if names != [] {
      var q, head := Reshaped(p, name, shape), names[0];
      assert RawOf(q, head) == RawOf(p, head);
      assert ShapeOf(q, head) == if head == name then shape else ShapeOf(p, head);
      if IsTensorData(RawOf(p, head), ShapeOf(p, head)) {
        var next := acc[head := WireTensor(ShapeOf(p, head), BytesToWords(RawOf(p, head)))];
        assert ReshapedGradient(next, name, shape)
            == ReshapedGradient(acc, name, shape)[head := WireTensor(ShapeOf(q, head), BytesToWords(RawOf(q, head)))];
        RebuildReshaped(p, name, shape, names[1..], next);
      }
    }
  }

  function Edited(p: Parsed, name: string, shape: seq<nat>, meta: Option<Metadata>): Parsed {
    p.(params := Reshaped(p.params, name, shape), metadata := meta)
  }

  /** Shapes and metadata are outside the root: whatever of them is changed, with as many elements as before, the check
      passes and the tensor comes out in the other shape. */
  lemma ShapeEditPasses(codec: Codec, hash: Hash, p: Parsed, name: string, shape: seq<nat>, meta: Option<Metadata>)
    requires Numel(shape) == Numel(ShapeOf(p.params, name))
    ensures Finish(codec, hash, None, Edited(p, name, shape, meta)) ==
      if Finish(codec, hash, None, p).Ok?
      then Ok((ReshapedGradient(Finish(codec, hash, None, p).value.0, name, shape), meta)) else Finish(codec, hash, None, p)
  {
    var q := Reshaped(p.params, name, shape);
    assert ParsedLeaves(codec, hash, q) == ParsedLeaves(codec, hash, p.params);
    RebuildReshaped(p.params, name, shape, p.params.names, map[]);
    assert ReshapedGradient(map[], name, shape) == map[];
  }
}
