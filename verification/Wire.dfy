/** The gradient wire format: writing a message, reading it back through a cursor, and its size. */
module Wire {
  import opened Bytes
  import opened Wrappers
  import opened Gradients
  import opened Merkle

  /** A 32-bit pattern: one float32 as it lies in memory, so that a round trip is bit for bit. */
  type Word = w: nat | w < 0x1_0000_0000

  datatype WireTensor = WireTensor(shape: seq<nat>, words: seq<Word>)

  type WireGradient = map<string, WireTensor>

  predicate WellFormedWire(g: WireGradient) {
    forall name | name in g :: |g[name].words| == Numel(g[name].shape)
  }

  datatype Metadata = Metadata(roundId: string, peerId: string, version: nat, compression: Option<map<string, Data>>)

  /** UTF-8 and JSON, as far as the format uses them. */
  datatype Codec = Codec(
    utf8: string -> Data, unUtf8: Data -> Option<string>,
    json: Metadata -> Data, unJson: Data -> Option<Metadata>)

  ghost predicate Faithful(c: Codec) {
    && (forall s: string :: c.unUtf8(c.utf8(s)) == Some(s))
    && (forall m: Metadata :: c.json(m) != [] && c.unJson(c.json(m)) == Some(m))
  }

  /** A compressor turns a tensor into bytes and metadata, and both back into a tensor. */
  datatype Compressor = Compressor(compress: WireTensor -> (Data, Data), decompress: (Data, Data) -> WireTensor)

  datatype WireMessage = WireMessage(data: Data, merkleRoot: Digest, nParams: nat, compressed: bool, metadata: Metadata)

  datatype Error =
    | FieldOverflow | BadMagic | BadVersion | Truncated | BadUtf8 | BadJson | MerkleMismatch | BadTensor | NoCompressionMeta

  // --- Constants ---

  function Magic(): Data { [0x4F, 0x43, 0x47, 0x52] }

  const VERSION: nat := 1

  const FLAG_COMPRESSED: nat := 1

  // --- Tensor data ---

  function WordBytes(words: seq<Word>): (r: Data)
    ensures |r| == 4 * |words|
  {
    if words == [] then [] else ToLittleEndian(words[0], 4) + WordBytes(words[1..])
  }

  lemma {:induction false} LittleEndianRange(data: Data)
    ensures FromLittleEndian(data) < Pow256(|data|)
  {
    if data == [] {
    } else {
      LittleEndianRange(data[1..]);
    }
  }

  lemma Pow256Values()
    ensures Pow256(1) == 256 && Pow256(2) == 65536 && Pow256(4) == 0x1_0000_0000
  {
    assert Pow256(0) == 1;
    assert Pow256(1) == 256 * Pow256(0);
    assert Pow256(2) == 256 * Pow256(1);
    assert Pow256(3) == 256 * Pow256(2);
    assert Pow256(4) == 256 * Pow256(3);
  }

  function BytesToWords(data: Data): (r: seq<Word>)
    requires |data| % 4 == 0
    ensures |r| == |data| / 4
  {
    if data == [] then []
    else
      LittleEndianRange(data[..4]);
      Pow256Values();
      [FromLittleEndian(data[..4])] + BytesToWords(data[4..])
  }

  lemma {:induction false} WordsRoundTrip(words: seq<Word>)
    ensures BytesToWords(WordBytes(words)) == words
  {
    if words == [] {
    } else {
      var head := ToLittleEndian(words[0], 4);
      assert WordBytes(words)[..4] == head && WordBytes(words)[4..] == WordBytes(words[1..]);
      Pow256Values();
      LittleEndianRoundTrip(words[0], 4);
      WordsRoundTrip(words[1..]);
    }
  }

  // --- The layout of a message ---

  function Payload(c: Option<Compressor>, t: WireTensor): Data {
    match c
    case Some(z) => z.compress(t).0
    case None => WordBytes(t.words)
  }

  function DimBytes(shape: seq<nat>): (r: Data)
    ensures |r| == 4 * |shape|
  {
    if shape == [] then [] else ToLittleEndian(shape[0], 4) + DimBytes(shape[1..])
  }

  function ParamBytes(nameBytes: Data, shape: seq<nat>, payload: Data): Data {
    ToLittleEndian(|nameBytes|, 2) + nameBytes + ToLittleEndian(|shape|, 4) + DimBytes(shape)
      + ToLittleEndian(|payload|, 4) + payload
  }

  function ParamsBytes(codec: Codec, c: Option<Compressor>, g: WireGradient, names: seq<string>): Data
    requires forall name | name in names :: name in g
  {
    if names == [] then []
    else
      ParamBytes(codec.utf8(names[0]), g[names[0]].shape, Payload(c, g[names[0]])) + ParamsBytes(codec, c, g, names[1..])
  }

  function LeafHash(codec: Codec, hash: Hash, name: string, payload: Data): Digest {
    hash(codec.utf8(name) + payload)
  }

  /** `_merkle_root` over the hashes of the parameters. */
  function WireRoot(hash: Hash, leaves: seq<Digest>): Digest {
    if leaves == [] then ZeroDigest() else LayerRoot(hash, leaves)
  }

  function GradientLeaves(codec: Codec, hash: Hash, c: Option<Compressor>, g: WireGradient, names: seq<string>): (r: seq<Digest>)
    requires forall name | name in names :: name in g
    ensures |r| == |names|
    ensures forall i | 0 <= i < |names| :: names[i] in names && r[i] == LeafHash(codec, hash, names[i], Payload(c, g[names[i]]))
  {
    seq(|names|, i requires 0 <= i < |names| => LeafHash(codec, hash, names[i], Payload(c, g[names[i]])))
  }

  function GradientRoot(codec: Codec, hash: Hash, c: Option<Compressor>, g: WireGradient, names: seq<string>): Digest
    requires forall name | name in names :: name in g
  {
    WireRoot(hash, GradientLeaves(codec, hash, c, g, names))
  }

  function Flags(c: Option<Compressor>): nat {
    if c.Some? then FLAG_COMPRESSED else 0
  }

  function Header(root: Digest, c: Option<Compressor>, n: nat): Data {
    Magic() + ToLittleEndian(VERSION, 1) + ToLittleEndian(Flags(c), 1) + root + ToLittleEndian(n, 4)
  }

  function MetadataOf(c: Option<Compressor>, g: WireGradient, roundId: string, peerId: string): Metadata {
    Metadata(roundId, peerId, VERSION,
             if c.Some? then Some(map name | name in g :: c.value.compress(g[name]).1) else None)
  }

  function Message(codec: Codec, hash: Hash, c: Option<Compressor>, g: WireGradient, meta: Metadata): Data {
    var names := SortedNames(g.Keys);
    Header(GradientRoot(codec, hash, c, g, names), c, |names|)
      + ParamsBytes(codec, c, g, names)
      + ToLittleEndian(|codec.json(meta)|, 4) + codec.json(meta)
  }

  predicate FitsParam(nameBytes: Data, shape: seq<nat>, payload: Data) {
    && |nameBytes| < 0x1_0000 && |shape| < 0x1_0000_0000 && |payload| < 0x1_0000_0000
    && forall d | d in shape :: d < 0x1_0000_0000
  }

  /** Every count, length and dimension fits the field it is written into. */
  predicate FitsWire(codec: Codec, c: Option<Compressor>, g: WireGradient, meta: Metadata) {
    && |g| < 0x1_0000_0000 && |codec.json(meta)| < 0x1_0000_0000
    && forall name | name in g :: FitsParam(codec.utf8(name), g[name].shape, Payload(c, g[name]))
  }

  // --- The cursor ---

  /** A read of `n` bytes comes up short at the end of the stream. */
  function Taken(rest: Data, n: nat): Data {
    if n <= |rest| then rest[..n] else rest
  }

  function Left(rest: Data, n: nat): Data {
    if n <= |rest| then rest[n..] else []
  }

  function ParseNumber(rest: Data, width: nat): Option<(nat, Data)> {
    if width <= |rest| then Some((FromLittleEndian(rest[..width]), rest[width..])) else None
  }

  /** An in-memory byte stream: writes go to the end, reads advance the cursor and may come up short. */
  class BytesIO {
    var data: Data
    var pos: nat

    ghost predicate Valid()
      reads this
    {
      pos <= |data|
    }

    constructor (data: Data)
      ensures Valid() && this.data == data && pos == 0
    {
      this.data := data;
      this.pos := 0;
    }

    method Write(bytes: Data)
      modifies this
      ensures data == old(data) + bytes && pos == old(pos)
    {
      data := data + bytes;
    }

    /** What is still to be read. */
    ghost function Rest(): Data
      reads this
      requires Valid()
    {
      data[pos..]
    }

    method Read(n: nat) returns (bytes: Data)
      requires Valid()
      modifies this`pos
      ensures Valid() && bytes == Taken(old(Rest()), n) && Rest() == Left(old(Rest()), n)
    {
      var end := if pos + n <= |data| then pos + n else |data|;
      bytes := data[pos..end];
      pos := end;
    }

    /** Reading a little-endian number of `width` bytes; `struct.unpack` rejects a short read. */
    method ReadNumber(width: nat) returns (r: Option<nat>)
      requires Valid()
      modifies this`pos
      ensures Valid()
      ensures match ParseNumber(old(Rest()), width)
              case Some((v, left)) => r == Some(v) && Rest() == left
              case None => r == None
    {
      var bytes := Read(width);
      r := if |bytes| == width then Some(FromLittleEndian(bytes)) else None;
    }
  }

  // --- Writing ---

  lemma Associate<T>(a: seq<T>, b: seq<T>, c: seq<T>)
    ensures a + (b + c) == (a + b) + c
  {
  }

  method WriteDims(buf: BytesIO, shape: seq<nat>) returns (ok: bool)
    modifies buf
    ensures ok <==> forall d | d in shape :: d < 0x1_0000_0000
    ensures ok ==> buf.data == old(buf.data) + DimBytes(shape)
  {
    for i := 0 to |shape|
      invariant buf.data + DimBytes(shape[i..]) == old(buf.data) + DimBytes(shape)
      invariant forall d | d in shape[..i] :: d < 0x1_0000_0000
    {
      if shape[i] >= 0x1_0000_0000 {
        assert shape[i] in shape;
        return false;
      }
      assert shape[i..][1..] == shape[i + 1..] && shape[..i + 1] == shape[..i] + [shape[i]];
      Associate(buf.data, ToLittleEndian(shape[i], 4), DimBytes(shape[i + 1..]));
      buf.Write(ToLittleEndian(shape[i], 4));
    }
    assert shape[|shape|..] == [] && shape[..|shape|] == shape;
    return true;
  }

  lemma Regroup<T>(s: seq<T>, a: seq<T>, b: seq<T>, c: seq<T>, d: seq<T>, e: seq<T>, f: seq<T>)
    ensures s + a + b + c + d + e + f == s + (a + b + c + d + e + f)
  {
    Associate(s, a, b);
    Associate(s, a + b, c);
    Associate(s, a + b + c, d);
    Associate(s, a + b + c + d, e);
    Associate(s, a + b + c + d + e, f);
  }

  method WriteParam(buf: BytesIO, codec: Codec, name: string, shape: seq<nat>, payload: Data) returns (ok: bool)
    modifies buf
    ensures ok <==> FitsParam(codec.utf8(name), shape, payload)
    ensures ok ==> buf.data == old(buf.data) + ParamBytes(codec.utf8(name), shape, payload)
  {
    var nameBytes := codec.utf8(name);
    if |nameBytes| >= 0x1_0000 || |shape| >= 0x1_0000_0000 {
      return false;
    }
    buf.Write(ToLittleEndian(|nameBytes|, 2));
    buf.Write(nameBytes);
    buf.Write(ToLittleEndian(|shape|, 4));
    ok := WriteDims(buf, shape);
    if !ok || |payload| >= 0x1_0000_0000 {
      return false;
    }
    buf.Write(ToLittleEndian(|payload|, 4));
    buf.Write(payload);
    Regroup(old(buf.data), ToLittleEndian(|nameBytes|, 2), nameBytes, ToLittleEndian(|shape|, 4), DimBytes(shape),
            ToLittleEndian(|payload|, 4), payload);
  }

  method ComputeWireRoot(hash: Hash, leaves: seq<Digest>) returns (root: Digest)
    ensures root == WireRoot(hash, leaves)
  {
    if leaves == [] {
      return ZeroDigest();
    }
    root := ReduceToRoot(hash, leaves);
  }

  lemma ParamsBytesStep(codec: Codec, c: Option<Compressor>, g: WireGradient, names: seq<string>, i: nat, data: Data)
    requires i < |names| && forall name | name in names :: name in g
    ensures names[i] in names
    ensures data + ParamsBytes(codec, c, g, names[i..])
         == data + ParamBytes(codec.utf8(names[i]), g[names[i]].shape, Payload(c, g[names[i]])) + ParamsBytes(codec, c, g, names[i + 1..])
  {
    var name := names[i];
    assert name in names && names[i..][0] == name && names[i..][1..] == names[i + 1..];
    Associate(data, ParamBytes(codec.utf8(name), g[name].shape, Payload(c, g[name])), ParamsBytes(codec, c, g, names[i + 1..]));
  }

  method WriteParams(buf: BytesIO, codec: Codec, c: Option<Compressor>, g: WireGradient, names: seq<string>) returns (ok: bool)
    requires forall name | name in names :: name in g
    modifies buf
    ensures ok <==> forall name | name in names :: FitsParam(codec.utf8(name), g[name].shape, Payload(c, g[name]))
    ensures ok ==> buf.data == old(buf.data) + ParamsBytes(codec, c, g, names)
  {
    for i := 0 to |names|
      invariant buf.data + ParamsBytes(codec, c, g, names[i..]) == old(buf.data) + ParamsBytes(codec, c, g, names)
      invariant forall name | name in names[..i] :: FitsParam(codec.utf8(name), g[name].shape, Payload(c, g[name]))
    {
      var name := names[i];
      assert name in names && names[..i + 1] == names[..i] + [name];
      ParamsBytesStep(codec, c, g, names, i, buf.data);
      var fits := WriteParam(buf, codec, name, g[name].shape, Payload(c, g[name]));
      if !fits {
        return false;
      }
    }
    assert names[|names|..] == [] && names[..|names|] == names;
    return true;
  }

  /** The hashing part of `encode`. */
  method ComputeGradientRoot(codec: Codec, hash: Hash, c: Option<Compressor>, g: WireGradient, names: seq<string>)
    returns (root: Digest)
    requires forall name | name in names :: name in g
    ensures root == GradientRoot(codec, hash, c, g, names)
  {
    var leaves: seq<Digest> := [];
    for i := 0 to |names|
      invariant |leaves| == i
      invariant forall k | 0 <= k < i :: names[k] in names && leaves[k] == LeafHash(codec, hash, names[k], Payload(c, g[names[k]]))
    {
      leaves := leaves + [LeafHash(codec, hash, names[i], Payload(c, g[names[i]]))];
    }
    assert leaves == GradientLeaves(codec, hash, c, g, names);
    root := ComputeWireRoot(hash, leaves);
  }

  method WriteHeader(buf: BytesIO, root: Digest, c: Option<Compressor>, n: nat)
    modifies buf
    requires buf.data == []
    ensures buf.data == Header(root, c, n)
  {
    buf.Write(Magic());
    buf.Write(ToLittleEndian(VERSION, 1));
    buf.Write(ToLittleEndian(Flags(c), 1));
    buf.Write(root);
    buf.Write(ToLittleEndian(n, 4));
  }

  lemma FitsByName(codec: Codec, c: Option<Compressor>, g: WireGradient, meta: Metadata)
    ensures |SortedNames(g.Keys)| == |g|
    ensures FitsWire(codec, c, g, meta) <==>
      && |SortedNames(g.Keys)| < 0x1_0000_0000 && |codec.json(meta)| < 0x1_0000_0000
      && forall name | name in SortedNames(g.Keys) :: FitsParam(codec.utf8(name), g[name].shape, Payload(c, g[name]))
  {
    SortedNamesFacts(g.Keys);
    assert forall name :: name in SortedNames(g.Keys) <==> name in g;
  }

  /** `encode`: raises exactly when some field overflows, and otherwise writes the message. */
  method Encode(codec: Codec, hash: Hash, g: WireGradient, roundId: string, peerId: string, c: Option<Compressor>)
    returns (r: Result<WireMessage, Error>)
    ensures r.Ok? <==> FitsWire(codec, c, g, MetadataOf(c, g, roundId, peerId))
    ensures r.Raises? ==> r.error == FieldOverflow
    ensures r.Ok? ==>
      r.value == WireMessage(Message(codec, hash, c, g, MetadataOf(c, g, roundId, peerId)),
                             GradientRoot(codec, hash, c, g, SortedNames(g.Keys)), |g|, c.Some?, MetadataOf(c, g, roundId, peerId))
  {
    var buf := new BytesIO([]);
    var names := SortedNames(g.Keys);
    var metadata := MetadataOf(c, g, roundId, peerId);
    var meta := codec.json(metadata);
    FitsByName(codec, c, g, metadata);
    var root := ComputeGradientRoot(codec, hash, c, g, names);
    if |names| >= 0x1_0000_0000 {
      return Raises(FieldOverflow);
    }
    WriteHeader(buf, root, c, |names|);
    var ok := WriteParams(buf, codec, c, g, names);
    if !ok || |meta| >= 0x1_0000_0000 {
      return Raises(FieldOverflow);
    }
    buf.Write(ToLittleEndian(|meta|, 4));
    buf.Write(meta);
    r := Ok(WireMessage(buf.data, root, |names|, c.Some?, metadata));
  }
}
