/** The bytes of a gradient message, one by one, and what decoding makes of its flags. */
module WireLayout {
  import opened Bytes
  import opened Wrappers
  import opened Gradients
  import opened Merkle
  import opened Wire
  import opened WireDecode

  // --- Numbers ---

  lemma Quotients(v: nat)
    ensures v / 256 / 256 == v / 65536 && v / 256 / 256 / 256 == v / 16777216
  {
    assert v / 256 / 256 == v / 65536;
  }

  function Two(v: nat): (r: Data)
    ensures |r| == 2
  {
    [v % 256, v / 256 % 256]
  }

  function Four(v: nat): (r: Data)
    ensures |r| == 4
  {
    [v % 256, v / 256 % 256, v / 65536 % 256, v / 16777216 % 256]
  }

  /** Numbers are written least significant byte first. */
  lemma NumberBytes(v: nat)
    ensures ToLittleEndian(v, 1) == [v % 256] && ToLittleEndian(v, 2) == Two(v) && ToLittleEndian(v, 4) == Four(v)
  {
    var a, b, c := v / 256, v / 256 / 256, v / 256 / 256 / 256;
    Quotients(v);
    assert ToLittleEndian(c / 256, 0) == [];
    assert ToLittleEndian(c, 1) == [c % 256];
    assert ToLittleEndian(b, 1) == [b % 256] && ToLittleEndian(b, 2) == [b % 256, c % 256];
    assert ToLittleEndian(a, 1) == [a % 256] && ToLittleEndian(a, 3) == [a % 256, b % 256, c % 256];
  }

  lemma Count(n: nat)
    requires n < 256
    ensures ToLittleEndian(n, 4) == [n, 0, 0, 0]
  {
    NumberBytes(n);
  }

  // --- A message ---

  lemma TwoDims(d0: nat, d1: nat)
    ensures DimBytes([d0, d1]) == ToLittleEndian(d0, 4) + ToLittleEndian(d1, 4)
  {
    assert [d0, d1][1..] == [d1] && [d1][1..] == [];
    assert DimBytes([d1]) == ToLittleEndian(d1, 4) + DimBytes([]);
  }

  /** The record of a parameter: the length of its name in two bytes, the name, its rank, its dimensions and the length of its
      payload in four bytes each, the payload. */
  lemma RecordBytes(name: Data, d0: nat, d1: nat, payload: Data)
    ensures ParamBytes(name, [d0, d1], payload) ==
      Two(|name|) + name + [2, 0, 0, 0] + (Four(d0) + Four(d1)) + Four(|payload|) + payload
  {
    NumberBytes(|name|);
    Count(2);
    NumberBytes(d0);
    NumberBytes(d1);
    NumberBytes(|payload|);
    TwoDims(d0, d1);
  }

  /** A word of a tensor is four bytes. */
  lemma WordIs(w: Word)
    ensures WordBytes([w]) == Four(w)
  {
    NumberBytes(w);
    assert [w][1..] == [] && WordBytes([w]) == ToLittleEndian(w, 4) + WordBytes([]);
  }

  /** The header: four bytes of magic, version 1, flag 1 with a compressor and 0 without, the root, and the number of parameters
      in four bytes. */
  lemma HeaderBytes(root: Digest, c: Option<Compressor>, n: nat)
    requires n < 256
    ensures Header(root, c, n) == [0x4F, 0x43, 0x47, 0x52] + [1] + [if c.Some? then 1 else 0] + root + [n, 0, 0, 0]
  {
    NumberBytes(1);
    NumberBytes(0);
    Count(n);
  }

  /** The whole message: header, the records in the order of the names, and the metadata behind its length. */
  lemma MessageBytes(codec: Codec, hash: Hash, c: Option<Compressor>, g: WireGradient, meta: Metadata)
    requires |codec.json(meta)| < 256
    ensures var names := SortedNames(g.Keys);
      Message(codec, hash, c, g, meta) == Header(GradientRoot(codec, hash, c, g, names), c, |g|) + ParamsBytes(codec, c, g, names)
        + [|codec.json(meta)|, 0, 0, 0] + codec.json(meta)
  {
    SortedNamesFacts(g.Keys);
    Count(|codec.json(meta)|);
  }

  // --- What the flags decide ---

  /** With the lowest bit of the flags clear a message holds plain tensors, whatever compressor there is; the other bits mean
      nothing. */
  lemma PlainWithoutFlag(codec: Codec, hash: Hash, c: Option<Compressor>, data: Data, p: Parsed)
    requires Parse(codec, data) == Ok(p) && p.flags % 2 == 0
    ensures DecodeSpec(codec, hash, c, data) == DecodeSpec(codec, hash, None, data)
  {
  }

  /** With it set, a compressor, and the right root, every parameter is decompressed by its entry in the metadata, and a missing
      entry raises; without a compressor the bytes are read as they are. */
  lemma DecompressedWithFlag(codec: Codec, hash: Hash, z: Compressor, data: Data, p: Parsed)
    requires Parse(codec, data) == Ok(p) && p.flags % 2 == 1 && ParsedRoot(codec, hash, p.params) == p.root
    ensures var entries := if p.metadata.Some? && p.metadata.value.compression.Some? then p.metadata.value.compression.value else map[];
      DecodeSpec(codec, hash, Some(z), data) ==
        if forall name | name in p.params.raw :: name in entries
        then Ok((map name | name in p.params.raw :: z.decompress(p.params.raw[name], entries[name]), p.metadata))
        else Raises(NoCompressionMeta)
  {
  }
}
