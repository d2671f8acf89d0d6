/** Reading a gradient message: the cursor program, the parser it implements, and the round trip. */
module WireDecode {
  import opened Bytes
  import opened Wrappers
  import opened Gradients
  import opened Merkle
  import opened Wire

  // --- The parser ---

  function ParseDims(rest: Data, n: nat, acc: seq<nat>): Option<(seq<nat>, Data)>
    decreases n
  {
    if n == 0 then Some((acc, rest))
    else
      match ParseNumber(rest, 4)
      case None => None
      case Some((d, left)) => ParseDims(left, n - 1, acc + [d])
  }

  datatype Param = Param(name: string, shape: seq<nat>, raw: Data)

  /** The shape and the raw bytes that follow a name. */
  function ParseTensor(rest: Data, name: string): Result<(Param, Data), Error> {
    match ParseNumber(rest, 4)
    case None => Raises(Truncated)
    case Some((nDims, r1)) =>
      match ParseDims(r1, nDims, [])
      case None => Raises(Truncated)
      case Some((shape, r2)) =>
        match ParseNumber(r2, 4)
        case None => Raises(Truncated)
        case Some((len, r3)) => Ok((Param(name, shape, Taken(r3, len)), Left(r3, len)))
  }

  function ParseParam(codec: Codec, rest: Data): Result<(Param, Data), Error> {
    match ParseNumber(rest, 2)
    case None => Raises(Truncated)
    case Some((nameLen, r1)) =>
      match codec.unUtf8(Taken(r1, nameLen))
      case None => Raises(BadUtf8)
      case Some(name) => ParseTensor(Left(r1, nameLen), name)
  }

  datatype Params = Params(names: seq<string>, raw: map<string, Data>, shapes: map<string, seq<nat>>)

  function RawOf(p: Params, name: string): Data {
    if name in p.raw then p.raw[name] else []
  }

  function ShapeOf(p: Params, name: string): seq<nat> {
    if name in p.shapes then p.shapes[name] else []
  }

  function AddParam(acc: Params, p: Param): Params {
    Params(acc.names + [p.name], acc.raw[p.name := p.raw], acc.shapes[p.name := p.shape])
  }

  const NO_PARAMS: Params := Params([], map[], map[])

  function ParseParams(codec: Codec, rest: Data, n: nat, acc: Params): Result<(Params, Data), Error>
    decreases n
  {
    if n == 0 then Ok((acc, rest))
    else
      match ParseParam(codec, rest)
      case Raises(e) => Raises(e)
      case Ok((p, left)) => ParseParams(codec, left, n - 1, AddParam(acc, p))
  }

  datatype Parsed = Parsed(flags: nat, root: Data, params: Params, metadata: Option<Metadata>)

  function ParseMetadata(codec: Codec, rest: Data): Result<Option<Metadata>, Error> {
    match ParseNumber(rest, 4)
    case None => Raises(Truncated)
    case Some((len, left)) =>
      var bytes := Taken(left, len);
      if bytes == [] then Ok(None)
      else
        match codec.unJson(bytes)
        case None => Raises(BadJson)
        case Some(m) => Ok(Some(m))
  }

  function ParseBody(codec: Codec, flags: nat, rest: Data): Result<Parsed, Error> {
    match ParseNumber(Left(rest, 32), 4)
    case None => Raises(Truncated)
    case Some((n, left)) =>
      match ParseParams(codec, left, n, NO_PARAMS)
      case Raises(e) => Raises(e)
      case Ok((params, tail)) =>
        match ParseMetadata(codec, tail)
        case Raises(e) => Raises(e)
        case Ok(metadata) => Ok(Parsed(flags, Taken(rest, 32), params, metadata))
  }

  function Parse(codec: Codec, data: Data): Result<Parsed, Error> {
    if Taken(data, 4) != Magic() then Raises(BadMagic)
    else
      match ParseNumber(Left(data, 4), 1)
      case None => Raises(Truncated)
      case Some((version, r1)) =>
        if version != VERSION then Raises(BadVersion)
        else
          match ParseNumber(r1, 1)
          case None => Raises(Truncated)
          case Some((flags, r2)) => ParseBody(codec, flags, r2)
  }

  function ParsedLeaves(codec: Codec, hash: Hash, p: Params): (r: seq<Digest>)
    ensures |r| == |p.names|
    ensures forall i | 0 <= i < |p.names| :: r[i] == LeafHash(codec, hash, p.names[i], RawOf(p, p.names[i]))
  {
    seq(|p.names|, i requires 0 <= i < |p.names| => LeafHash(codec, hash, p.names[i], RawOf(p, p.names[i])))
  }

  function ParsedRoot(codec: Codec, hash: Hash, p: Params): Digest {
    WireRoot(hash, ParsedLeaves(codec, hash, p))
  }

  /** `torch.frombuffer` refuses an empty buffer and a ragged one; `reshape` refuses a wrong count. */
  predicate IsTensorData(raw: Data, shape: seq<nat>) {
    raw != [] && |raw| % 4 == 0 && Numel(shape) == |raw| / 4
  }

  function Rebuild(p: Params, names: seq<string>, acc: WireGradient): Result<WireGradient, Error> {
    if names == [] then Ok(acc)
    else if !IsTensorData(RawOf(p, names[0]), ShapeOf(p, names[0])) then Raises(BadTensor)
    else Rebuild(p, names[1..], acc[names[0] := WireTensor(ShapeOf(p, names[0]), BytesToWords(RawOf(p, names[0])))])
  }

  function Deserialize(p: Params): Result<WireGradient, Error> {
    Rebuild(p, p.names, map[])
  }

  /** `decompress_gradients` looks the metadata of every stored name up. */
  function Decompressed(z: Compressor, raw: map<string, Data>, m: Option<Metadata>): Result<WireGradient, Error> {
    if m.Some? && m.value.compression.Some? && forall name | name in raw :: name in m.value.compression.value
    then Ok(map name | name in raw :: z.decompress(raw[name], m.value.compression.value[name]))
    else if raw == map[] then Ok(map[])
    else Raises(NoCompressionMeta)
  }

  function Restore(c: Option<Compressor>, p: Parsed): Result<WireGradient, Error> {
    if p.flags % 2 == FLAG_COMPRESSED && c.Some? then Decompressed(c.value, p.params.raw, p.metadata)
    else Deserialize(p.params)
  }

  function Finish(codec: Codec, hash: Hash, c: Option<Compressor>, p: Parsed): Result<(WireGradient, Option<Metadata>), Error> {
    if ParsedRoot(codec, hash, p.params) != p.root then Raises(MerkleMismatch)
    else
      match Restore(c, p)
      case Raises(e) => Raises(e)
      case Ok(g) => Ok((g, p.metadata))
  }

  function DecodeSpec(codec: Codec, hash: Hash, c: Option<Compressor>, data: Data): Result<(WireGradient, Option<Metadata>), Error> {
    match Parse(codec, data)
    case Raises(e) => Raises(e)
    case Ok(p) => Finish(codec, hash, c, p)
  }

  // --- The cursor program ---

  method ReadDims(buf: BytesIO, n: nat) returns (r: Option<seq<nat>>)
    requires buf.Valid()
    modifies buf`pos
    ensures buf.Valid()
    ensures match ParseDims(old(buf.Rest()), n, [])
            case Some((shape, left)) => r == Some(shape) && buf.Rest() == left
            case None => r == None
  {
    var shape: seq<nat> := [];
    for i := 0 to n
      invariant buf.Valid()
      invariant ParseDims(old(buf.Rest()), n, []) == ParseDims(buf.Rest(), n - i, shape)
    {
      var d := buf.ReadNumber(4);
      if d.None? {
        return None;
      }
      shape := shape + [d.value];
    }
    r := Some(shape);
  }

  method ReadTensor(buf: BytesIO, name: string) returns (r: Result<Param, Error>)
    requires buf.Valid()
    modifies buf`pos
    ensures buf.Valid()
    ensures match ParseTensor(old(buf.Rest()), name)
            case Ok((p, left)) => r == Ok(p) && buf.Rest() == left
            case Raises(e) => r == Raises(e)
  {
    var nDims := buf.ReadNumber(4);
    if nDims.None? {
      return Raises(Truncated);
    }
    var shape := ReadDims(buf, nDims.value);
    if shape.None? {
      return Raises(Truncated);
    }
    var len := buf.ReadNumber(4);
    if len.None? {
      return Raises(Truncated);
    }
    var raw := buf.Read(len.value);
    r := Ok(Param(name, shape.value, raw));
  }

  method ReadParam(buf: BytesIO, codec: Codec) returns (r: Result<Param, Error>)
    requires buf.Valid()
    modifies buf`pos
    ensures buf.Valid()
    ensures match ParseParam(codec, old(buf.Rest()))
            case Ok((p, left)) => r == Ok(p) && buf.Rest() == left
            case Raises(e) => r == Raises(e)
  {
    var nameLen := buf.ReadNumber(2);
    if nameLen.None? {
      return Raises(Truncated);
    }
    var nameBytes := buf.Read(nameLen.value);
    var name := codec.unUtf8(nameBytes);
    if name.None? {
      return Raises(BadUtf8);
    }
    r := ReadTensor(buf, name.value);
  }

  method ReadParams(buf: BytesIO, codec: Codec, n: nat) returns (r: Result<Params, Error>)
    requires buf.Valid()
    modifies buf`pos
    ensures buf.Valid()
    ensures match ParseParams(codec, old(buf.Rest()), n, NO_PARAMS)
            case Ok((params, left)) => r == Ok(params) && buf.Rest() == left
            case Raises(e) => r == Raises(e)
  {
    var acc := NO_PARAMS;
    for i := 0 to n
      invariant buf.Valid()
      invariant ParseParams(codec, buf.Rest(), n - i, acc) == ParseParams(codec, old(buf.Rest()), n, NO_PARAMS)
    {
      var p := ReadParam(buf, codec);
      if p.Raises? {
        return Raises(p.error);
      }
      acc := AddParam(acc, p.value);
    }
    r := Ok(acc);
  }

  method ReadMetadata(buf: BytesIO, codec: Codec) returns (r: Result<Option<Metadata>, Error>)
    requires buf.Valid()
    modifies buf`pos
    ensures r == ParseMetadata(codec, old(buf.Rest()))
  {
    var len := buf.ReadNumber(4);
    if len.None? {
      return Raises(Truncated);
    }
    var bytes := buf.Read(len.value);
    if bytes == [] {
      return Ok(None);
    }
    var m := codec.unJson(bytes);
    r := if m.None? then Raises(BadJson) else Ok(m);
  }

  method ReadBody(buf: BytesIO, codec: Codec, flags: nat) returns (r: Result<Parsed, Error>)
    requires buf.Valid()
    modifies buf`pos
    ensures r == ParseBody(codec, flags, old(buf.Rest()))
  {
    var root := buf.Read(32);
    var n := buf.ReadNumber(4);
    if n.None? {
      return Raises(Truncated);
    }
    var params := ReadParams(buf, codec, n.value);
    if params.Raises? {
      return Raises(params.error);
    }
    var metadata := ReadMetadata(buf, codec);
    if metadata.Raises? {
      return Raises(metadata.error);
    }
    r := Ok(Parsed(flags, root, params.value, metadata.value));
  }

  method ReadMessage(buf: BytesIO, codec: Codec) returns (r: Result<Parsed, Error>)
    requires buf.Valid()
    modifies buf`pos
    ensures r == Parse(codec, old(buf.Rest()))
  {
    var magic := buf.Read(4);
    if magic != Magic() {
      return Raises(BadMagic);
    }
    var version := buf.ReadNumber(1);
    if version.None? {
      return Raises(Truncated);
    }
    if version.value != VERSION {
      return Raises(BadVersion);
    }
    var flags := buf.ReadNumber(1);
    if flags.None? {
      return Raises(Truncated);
    }
    r := ReadBody(buf, codec, flags.value);
  }

  method ParsedLeafHashes(codec: Codec, hash: Hash, p: Params) returns (leaves: seq<Digest>)
    ensures leaves == ParsedLeaves(codec, hash, p)
  {
    leaves := [];
    for i := 0 to |p.names|
      invariant |leaves| == i
      invariant forall k | 0 <= k < i :: leaves[k] == LeafHash(codec, hash, p.names[k], RawOf(p, p.names[k]))
    {
      leaves := leaves + [LeafHash(codec, hash, p.names[i], RawOf(p, p.names[i]))];
    }
  }

  method DeserializeAll(p: Params) returns (r: Result<WireGradient, Error>)
    ensures r == Deserialize(p)
  {
    var g: WireGradient := map[];
    for i := 0 to |p.names|
      invariant Rebuild(p, p.names[i..], g) == Deserialize(p)
    {
      var name := p.names[i];
      assert p.names[i..][0] == name && p.names[i..][1..] == p.names[i + 1..];
      if !IsTensorData(RawOf(p, name), ShapeOf(p, name)) {
        return Raises(BadTensor);
      }
      g := g[name := WireTensor(ShapeOf(p, name), BytesToWords(RawOf(p, name)))];
    }
    r := Ok(g);
  }

  /** The integrity check and the tensors. */
  method FinishDecode(codec: Codec, hash: Hash, c: Option<Compressor>, p: Parsed)
    returns (r: Result<(WireGradient, Option<Metadata>), Error>)
    ensures r == Finish(codec, hash, c, p)
  {
    var leaves := ParsedLeafHashes(codec, hash, p.params);
    var root := ComputeWireRoot(hash, leaves);
    if root != p.root {
      return Raises(MerkleMismatch);
    }
    var g: Result<WireGradient, Error>;
    if p.flags % 2 == FLAG_COMPRESSED && c.Some? {
      g := Decompressed(c.value, p.params.raw, p.metadata);
    } else {
      g := DeserializeAll(p.params);
    }
    r := if g.Raises? then Raises(g.error) else Ok((g.value, p.metadata));
  }

  /** `decode`. */
  method Decode(codec: Codec, hash: Hash, c: Option<Compressor>, data: Data)
    returns (r: Result<(WireGradient, Option<Metadata>), Error>)
    ensures r == DecodeSpec(codec, hash, c, data)
  {
    var buf := new BytesIO(data);
    assert buf.Rest() == data;
    var parsed := ReadMessage(buf, codec);
    if parsed.Raises? {
      return Raises(parsed.error);
    }
    r := FinishDecode(codec, hash, c, parsed.value);
  }

  // --- Reading what was written ---

  lemma Prefix(x: Data, tail: Data)
    ensures Taken(x + tail, |x|) == x && Left(x + tail, |x|) == tail
  {
  }

  lemma NumberThen(v: nat, width: nat, tail: Data)
    requires v < Pow256(width)
    ensures ParseNumber(ToLittleEndian(v, width) + tail, width) == Some((v, tail))
  {
    Prefix(ToLittleEndian(v, width), tail);
    LittleEndianRoundTrip(v, width);
  }

  lemma {:induction false} DimsThen(shape: seq<nat>, acc: seq<nat>, tail: Data)
    requires forall d | d in shape :: d < 0x1_0000_0000
    ensures ParseDims(DimBytes(shape) + tail, |shape|, acc) == Some((acc + shape, tail))
    decreases |shape|
  {
    if shape == [] {
      assert acc + shape == acc && DimBytes(shape) + tail == tail;
    } else {
      Pow256Values();
      assert shape[0] in shape;
      assert forall d | d in shape[1..] :: d in shape;
      NumberThen(shape[0], 4, DimBytes(shape[1..]) + tail);
      Associate(ToLittleEndian(shape[0], 4), DimBytes(shape[1..]), tail);
      DimsThen(shape[1..], acc + [shape[0]], tail);
      assert acc + [shape[0]] + shape[1..] == acc + shape;
    }
  }

  lemma TensorThen(name: string, shape: seq<nat>, payload: Data, tail: Data)
    requires |shape| < 0x1_0000_0000 && |payload| < 0x1_0000_0000 && forall d | d in shape :: d < 0x1_0000_0000
    ensures ParseTensor(ToLittleEndian(|shape|, 4) + (DimBytes(shape) + (ToLittleEndian(|payload|, 4) + (payload + tail))), name)
         == Ok((Param(name, shape, payload), tail))
  {
    Pow256Values();
    NumberThen(|shape|, 4, DimBytes(shape) + (ToLittleEndian(|payload|, 4) + (payload + tail)));
    DimsThen(shape, [], ToLittleEndian(|payload|, 4) + (payload + tail));
    assert [] + shape == shape;
    NumberThen(|payload|, 4, payload + tail);
    Prefix(payload, tail);
  }

  lemma SixAndTail<T>(a: seq<T>, b: seq<T>, c: seq<T>, d: seq<T>, e: seq<T>, f: seq<T>, tail: seq<T>)
    ensures a + b + c + d + e + f + tail == a + (b + (c + (d + (e + (f + tail)))))
  {
    Associate(a + b + c + d + e, f, tail);
    Associate(a + b + c + d, e, f + tail);
    Associate(a + b + c, d, e + (f + tail));
    Associate(a + b, c, d + (e + (f + tail)));
    Associate(a, b, c + (d + (e + (f + tail))));
  }

  lemma ParamThen(codec: Codec, name: string, shape: seq<nat>, payload: Data, tail: Data)
    requires Faithful(codec) && FitsParam(codec.utf8(name), shape, payload)
    ensures ParseParam(codec, ParamBytes(codec.utf8(name), shape, payload) + tail) == Ok((Param(name, shape, payload), tail))
  {
    var nameBytes := codec.utf8(name);
    var left := ToLittleEndian(|shape|, 4) + (DimBytes(shape) + (ToLittleEndian(|payload|, 4) + (payload + tail)));
    SixAndTail(ToLittleEndian(|nameBytes|, 2), nameBytes, ToLittleEndian(|shape|, 4), DimBytes(shape),
               ToLittleEndian(|payload|, 4), payload, tail);
    Pow256Values();
    NumberThen(|nameBytes|, 2, nameBytes + left);
    Prefix(nameBytes, left);
    TensorThen(name, shape, payload, tail);
  }

  function ParamOf(c: Option<Compressor>, g: WireGradient, name: string): Param
    requires name in g
  {
    Param(name, g[name].shape, Payload(c, g[name]))
  }

  /** What reading the parameters of `names` adds to `acc`. */
  ghost function Folded(c: Option<Compressor>, g: WireGradient, names: seq<string>, acc: Params): (r: Params)
    requires forall name | name in names :: name in g
    ensures r.names == acc.names + names
    decreases |names|
  {
    if names == [] then acc else Folded(c, g, names[1..], AddParam(acc, ParamOf(c, g, names[0])))
  }

  predicate FitsNamed(codec: Codec, c: Option<Compressor>, g: WireGradient, name: string) {
    name in g && FitsParam(codec.utf8(name), g[name].shape, Payload(c, g[name]))
  }

  lemma {:induction false} ParamsThen(codec: Codec, c: Option<Compressor>, g: WireGradient, names: seq<string>, acc: Params, tail: Data)
    requires Faithful(codec) && forall name | name in names :: name in g && FitsNamed(codec, c, g, name)
    ensures ParseParams(codec, ParamsBytes(codec, c, g, names) + tail, |names|, acc) == Ok((Folded(c, g, names, acc), tail))
    decreases |names|
  {
    if names == [] {
      assert ParamsBytes(codec, c, g, names) + tail == tail;
    } else {
      var name := names[0];
      assert name in names && FitsNamed(codec, c, g, name);
      assert forall other | other in names[1..] :: other in names;
      var first := ParamBytes(codec.utf8(name), g[name].shape, Payload(c, g[name]));
      Associate(first, ParamsBytes(codec, c, g, names[1..]), tail);
      ParamThen(codec, name, g[name].shape, Payload(c, g[name]), ParamsBytes(codec, c, g, names[1..]) + tail);
      ParamsThen(codec, c, g, names[1..], AddParam(acc, ParamOf(c, g, name)), tail);
    }
  }

  lemma {:induction false} FoldedKeys(c: Option<Compressor>, g: WireGradient, names: seq<string>, acc: Params, name: string)
    requires forall other | other in names :: other in g
    ensures name in Folded(c, g, names, acc).raw <==> name in acc.raw || name in names
    decreases |names|
  {
    if names != [] {
      FoldedKeys(c, g, names[1..], AddParam(acc, ParamOf(c, g, names[0])), name);
    }
  }

  lemma {:induction false} FoldedOutside(c: Option<Compressor>, g: WireGradient, names: seq<string>, acc: Params, name: string)
    requires (forall other | other in names :: other in g) && name !in names
    ensures RawOf(Folded(c, g, names, acc), name) == RawOf(acc, name)
    ensures ShapeOf(Folded(c, g, names, acc), name) == ShapeOf(acc, name)
    decreases |names|
  {
    if names != [] {
      FoldedOutside(c, g, names[1..], AddParam(acc, ParamOf(c, g, names[0])), name);
    }
  }

  /** Every name read carries its own payload and shape. */
  lemma {:induction false} FoldedInside(c: Option<Compressor>, g: WireGradient, names: seq<string>, acc: Params, name: string)
    requires (forall other | other in names :: other in g) && name in names
    ensures RawOf(Folded(c, g, names, acc), name) == Payload(c, g[name])
    ensures ShapeOf(Folded(c, g, names, acc), name) == g[name].shape
    decreases |names|
  {
    var acc' := AddParam(acc, ParamOf(c, g, names[0]));
    if name in names[1..] {
      FoldedInside(c, g, names[1..], acc', name);
    } else {
      FoldedOutside(c, g, names[1..], acc', name);
    }
  }

  lemma EightFields<T>(a: seq<T>, b: seq<T>, c: seq<T>, d: seq<T>, e: seq<T>, f: seq<T>, g: seq<T>, h: seq<T>)
    ensures a + b + c + d + e + f + g + h == a + (b + (c + (d + (e + (f + (g + h))))))
  {
    SixAndTail(a, b, c, d, e, f, g + h);
    Associate(a + b + c + d + e + f, g, h);
  }

  lemma MetadataThen(codec: Codec, meta: Metadata)
    requires Faithful(codec) && |codec.json(meta)| < 0x1_0000_0000
    ensures ParseMetadata(codec, ToLittleEndian(|codec.json(meta)|, 4) + codec.json(meta)) == Ok(Some(meta))
  {
    var json := codec.json(meta);
    Pow256Values();
    NumberThen(|json|, 4, json);
    assert Taken(json, |json|) == json;
  }

  /** A message from the root on. */
  function Body(codec: Codec, c: Option<Compressor>, g: WireGradient, names: seq<string>, root: Digest, meta: Metadata): Data
    requires forall name | name in names :: name in g
  {
    root + (ToLittleEndian(|names|, 4) + (ParamsBytes(codec, c, g, names)
      + (ToLittleEndian(|codec.json(meta)|, 4) + codec.json(meta))))
  }

  lemma BodyThen(codec: Codec, c: Option<Compressor>, g: WireGradient, names: seq<string>, flags: nat, root: Digest, meta: Metadata)
    requires Faithful(codec) && |names| < 0x1_0000_0000 && |codec.json(meta)| < 0x1_0000_0000
    requires forall name | name in names :: name in g && FitsNamed(codec, c, g, name)
    ensures ParseBody(codec, flags, Body(codec, c, g, names, root, meta))
         == Ok(Parsed(flags, root, Folded(c, g, names, NO_PARAMS), Some(meta)))
  {
    var tail := ToLittleEndian(|codec.json(meta)|, 4) + codec.json(meta);
    var left := ParamsBytes(codec, c, g, names) + tail;
    Pow256Values();
    Prefix(root, ToLittleEndian(|names|, 4) + left);
    NumberThen(|names|, 4, left);
    ParamsThen(codec, c, g, names, NO_PARAMS, tail);
    MetadataThen(codec, meta);
  }

  lemma MessageIs(codec: Codec, hash: Hash, c: Option<Compressor>, g: WireGradient, meta: Metadata)
    ensures var names := SortedNames(g.Keys);
      Message(codec, hash, c, g, meta) == Magic() + (ToLittleEndian(VERSION, 1) + (ToLittleEndian(Flags(c), 1)
        + Body(codec, c, g, names, GradientRoot(codec, hash, c, g, names), meta)))
  {
    var names, json := SortedNames(g.Keys), codec.json(meta);
    EightFields(Magic(), ToLittleEndian(VERSION, 1), ToLittleEndian(Flags(c), 1), GradientRoot(codec, hash, c, g, names),
                ToLittleEndian(|names|, 4), ParamsBytes(codec, c, g, names), ToLittleEndian(|json|, 4), json);
  }

  lemma HeaderThen(codec: Codec, flags: nat, body: Data)
    requires flags < 256
    ensures Parse(codec, Magic() + (ToLittleEndian(VERSION, 1) + (ToLittleEndian(flags, 1) + body))) == ParseBody(codec, flags, body)
  {
    Pow256Values();
    Prefix(Magic(), ToLittleEndian(VERSION, 1) + (ToLittleEndian(flags, 1) + body));
    NumberThen(VERSION, 1, ToLittleEndian(flags, 1) + body);
    NumberThen(flags, 1, body);
  }

  /** Parsing a message gives back everything that went into it. */
  lemma ParseMessage(codec: Codec, hash: Hash, c: Option<Compressor>, g: WireGradient, meta: Metadata)
    requires Faithful(codec) && FitsWire(codec, c, g, meta)
    ensures var names := SortedNames(g.Keys);
      Parse(codec, Message(codec, hash, c, g, meta)) ==
        Ok(Parsed(Flags(c), GradientRoot(codec, hash, c, g, names), Folded(c, g, names, NO_PARAMS), Some(meta)))
  {
    var names, root := SortedNames(g.Keys), GradientRoot(codec, hash, c, g, SortedNames(g.Keys));
    FitsByName(codec, c, g, meta);
    MessageIs(codec, hash, c, g, meta);
    HeaderThen(codec, Flags(c), Body(codec, c, g, names, root, meta));
    BodyThen(codec, c, g, names, Flags(c), root, meta);
  }

  // --- The round trip ---

  ghost predicate Carries(p: Params, c: Option<Compressor>, g: WireGradient) {
    && p.names == SortedNames(g.Keys) && p.raw.Keys == g.Keys
    && forall name | name in g :: RawOf(p, name) == Payload(c, g[name]) && ShapeOf(p, name) == g[name].shape
  }

  lemma FoldedCarries(c: Option<Compressor>, g: WireGradient)
    ensures Carries(Folded(c, g, SortedNames(g.Keys), NO_PARAMS), c, g)
  {
    var names := SortedNames(g.Keys);
    var acc := NO_PARAMS;
    var p := Folded(c, g, names, acc);
    assert [] + names == names;
    forall name ensures name in p.raw <==> name in g {
      FoldedKeys(c, g, names, acc, name);
    }
    forall name | name in g ensures RawOf(p, name) == Payload(c, g[name]) && ShapeOf(p, name) == g[name].shape {
      FoldedInside(c, g, names, acc, name);
    }
  }

  lemma RootAgrees(codec: Codec, hash: Hash, c: Option<Compressor>, g: WireGradient, p: Params)
    requires Carries(p, c, g)
    ensures ParsedRoot(codec, hash, p) == GradientRoot(codec, hash, c, g, SortedNames(g.Keys))
  {
    assert ParsedLeaves(codec, hash, p) == GradientLeaves(codec, hash, c, g, SortedNames(g.Keys));
  }

  lemma TensorBack(p: Params, g: WireGradient, name: string)
    requires Carries(p, None, g) && WellFormedWire(g) && name in g
    ensures IsTensorData(RawOf(p, name), ShapeOf(p, name)) <==> g[name].words != []
    ensures IsTensorData(RawOf(p, name), ShapeOf(p, name)) ==>
      WireTensor(ShapeOf(p, name), BytesToWords(RawOf(p, name))) == g[name]
  {
    WordsRoundTrip(g[name].words);
  }

  ghost predicate NoneEmpty(g: WireGradient, names: seq<string>) {
    forall name | name in names :: name in g && g[name].words != []
  }

  lemma {:induction false} RebuildAll(p: Params, g: WireGradient, names: seq<string>, acc: WireGradient)
    requires Carries(p, None, g) && WellFormedWire(g)
    requires forall name | name in names :: name in g
    requires forall name | name in acc :: name in g && acc[name] == g[name]
    ensures if NoneEmpty(g, names)
            then Rebuild(p, names, acc).Ok?
              && (forall name :: name in Rebuild(p, names, acc).value <==> name in acc || name in names)
              && (forall name | name in Rebuild(p, names, acc).value :: name in g && Rebuild(p, names, acc).value[name] == g[name])
            else Rebuild(p, names, acc) == Raises(BadTensor)
    decreases |names|
  {
    if names == [] {
    } else {
      assert names[0] in names && forall name :: name in names <==> name == names[0] || name in names[1..];
      TensorBack(p, g, names[0]);
      assert NoneEmpty(g, names) <==> g[names[0]].words != [] && NoneEmpty(g, names[1..]);
      if g[names[0]].words != [] {
        RebuildAll(p, g, names[1..], acc[names[0] := g[names[0]]]);
      }
    }
  }

  lemma SameMap(a: WireGradient, b: WireGradient)
    requires forall name :: name in a <==> name in b
    requires forall name | name in a :: a[name] == b[name]
    ensures a == b
  {
    assert a.Keys == b.Keys;
  }

  lemma DeserializeBack(p: Params, g: WireGradient)
    requires Carries(p, None, g) && WellFormedWire(g)
    ensures Deserialize(p) == if forall name | name in g :: g[name].words != [] then Ok(g) else Raises(BadTensor)
  {
    var names := SortedNames(g.Keys);
    var back := Rebuild(p, names, map[]);
    RebuildAll(p, g, names, map[]);
    if NoneEmpty(g, names) {
      SameMap(back.value, g);
    }
    assert NoneEmpty(g, names) <==> forall name | name in g :: g[name].words != [];
  }

  /** Decoding a message comes down to restoring the tensors it carries. */
  lemma DecodeMessage(codec: Codec, hash: Hash, c: Option<Compressor>, g: WireGradient, meta: Metadata) returns (p: Parsed)
    requires Faithful(codec) && FitsWire(codec, c, g, meta)
    ensures p.flags == Flags(c) && p.metadata == Some(meta) && Carries(p.params, c, g)
    ensures DecodeSpec(codec, hash, c, Message(codec, hash, c, g, meta)) ==
      match Restore(c, p)
      case Raises(e) => Raises(e)
      case Ok(back) => Ok((back, Some(meta)))
  {
    var params := Folded(c, g, SortedNames(g.Keys), NO_PARAMS);
    p := Parsed(Flags(c), GradientRoot(codec, hash, c, g, SortedNames(g.Keys)), params, Some(meta));
    ParseMessage(codec, hash, c, g, meta);
    FoldedCarries(c, g);
    RootAgrees(codec, hash, c, g, params);
  }

  /** Without a compressor, decoding what was encoded gives back the same tensors, bit for bit, and the
      same metadata exactly when every tensor has an element; an empty one makes it raise. */
  lemma RoundTripIff(codec: Codec, hash: Hash, g: WireGradient, meta: Metadata)
    requires Faithful(codec) && FitsWire(codec, None, g, meta) && WellFormedWire(g)
    ensures DecodeSpec(codec, hash, None, Message(codec, hash, None, g, meta)) ==
      if forall name | name in g :: g[name].words != [] then Ok((g, Some(meta))) else Raises(BadTensor)
  {
    var p := DecodeMessage(codec, hash, None, g, meta);
    DeserializeBack(p.params, g);
  }

  lemma DecompressedBack(z: Compressor, p: Params, g: WireGradient, meta: Metadata)
    requires Carries(p, Some(z), g)
    requires meta.compression == Some(map name | name in g :: z.compress(g[name]).1)
    ensures Decompressed(z, p.raw, Some(meta))
         == Ok(map name | name in g :: z.decompress(z.compress(g[name]).0, z.compress(g[name]).1))
  {
    forall name | name in g ensures p.raw[name] == z.compress(g[name]).0 {
      assert RawOf(p, name) == Payload(Some(z), g[name]);
    }
    assert (map name | name in p.raw :: z.decompress(p.raw[name], meta.compression.value[name]))
        == (map name | name in g :: z.decompress(z.compress(g[name]).0, z.compress(g[name]).1));
  }

  lemma RestoreCompressed(z: Compressor, p: Parsed, g: WireGradient, meta: Metadata)
    requires Carries(p.params, Some(z), g) && p.flags == FLAG_COMPRESSED && p.metadata == Some(meta)
    requires meta.compression == Some(map name | name in g :: z.compress(g[name]).1)
    ensures Restore(Some(z), p) == Ok(map name | name in g :: z.decompress(z.compress(g[name]).0, z.compress(g[name]).1))
  {
    DecompressedBack(z, p.params, g, meta);
  }

  /** With the compressor that encoded, decoding returns what that compressor makes of every tensor. */
  lemma CompressedRoundTrip(codec: Codec, hash: Hash, z: Compressor, g: WireGradient, roundId: string, peerId: string)
    requires Faithful(codec) && FitsWire(codec, Some(z), g, MetadataOf(Some(z), g, roundId, peerId))
    ensures var meta := MetadataOf(Some(z), g, roundId, peerId);
      DecodeSpec(codec, hash, Some(z), Message(codec, hash, Some(z), g, meta)) ==
      Ok((map name | name in g :: z.decompress(z.compress(g[name]).0, z.compress(g[name]).1), Some(meta)))
  {
    var meta := MetadataOf(Some(z), g, roundId, peerId);
    var p := DecodeMessage(codec, hash, Some(z), g, meta);
    RestoreCompressed(z, p, g, meta);
  }

  /** A tensor without elements cannot be read back, whatever the codec and the hash function. */
  lemma EmptyTensorRaises(codec: Codec, hash: Hash, name: string, meta: Metadata)
    requires Faithful(codec) && FitsWire(codec, None, map[name := WireTensor([0], [])], meta)
    ensures DecodeSpec(codec, hash, None, Message(codec, hash, None, map[name := WireTensor([0], [])], meta)) == Raises(BadTensor)
  {
    var g: WireGradient := map[name := WireTensor([0], [])];
    assert Numel([0]) == 0 && g[name].words == [];
    RoundTripIff(codec, hash, g, meta);
  }

  // --- Size ---

  function SumOver(names: seq<string>, f: string -> nat): nat {
    if names == [] then 0 else f(names[0]) + SumOver(names[1..], f)
  }

  function RawSize(g: WireGradient): string -> nat {
    name => if name in g then 4 * Numel(g[name].shape) else 0
  }

  function NameSize(codec: Codec): string -> nat {
    name => 2 + |codec.utf8(name)|
  }

  function ShapeSize(g: WireGradient): string -> nat {
    name => if name in g then 4 + 4 * |g[name].shape| + 4 else 0
  }

  /** `estimate_wire_size`, the uncompressed figure. */
  function EstimateWireSize(codec: Codec, g: WireGradient): nat {
    var names := SortedNames(g.Keys);
    (4 + 1 + 1 + 32 + 4) + SumOver(names, NameSize(codec)) + SumOver(names, ShapeSize(g)) + SumOver(names, RawSize(g))
  }

  lemma {:induction false} ParamsSize(codec: Codec, g: WireGradient, names: seq<string>)
    requires WellFormedWire(g) && forall name | name in names :: name in g
    ensures |ParamsBytes(codec, None, g, names)|
         == SumOver(names, NameSize(codec)) + SumOver(names, ShapeSize(g)) + SumOver(names, RawSize(g))
  {
    if names == [] {
    } else {
      ParamsSize(codec, g, names[1..]);
      var name := names[0];
      assert name in names;
      assert |WordBytes(g[name].words)| == 4 * Numel(g[name].shape);
    }
  }

  /** An uncompressed message is as long as estimated, plus the metadata and its length field. */
  lemma EstimateExact(codec: Codec, hash: Hash, g: WireGradient, meta: Metadata)
    requires WellFormedWire(g)
    ensures |Message(codec, hash, None, g, meta)| == EstimateWireSize(codec, g) + 4 + |codec.json(meta)|
  {
    SortedNamesFacts(g.Keys);
    assert |Header(GradientRoot(codec, hash, None, g, SortedNames(g.Keys)), None, |g|)| == 42;
    ParamsSize(codec, g, SortedNames(g.Keys));
  }
}
