/** Bytes, digests and the little-endian integers written into hash inputs and wire messages. */
module Bytes {

  type Byte = b: nat | b < 256

  type Data = seq<Byte>

  /** A SHA-256 digest; the hash function itself is a parameter wherever one is needed. */
  type Digest = d: seq<Byte> | |d| == 32 witness seq(32, _ => 0)

  function Pow256(width: nat): nat {
    if width == 0 then 1 else 256 * Pow256(width - 1)
  }

  function ToLittleEndian(value: nat, width: nat): (r: Data)
    ensures |r| == width
  {
    if width == 0 then [] else [value % 256] + ToLittleEndian(value / 256, width - 1)
  }

  function FromLittleEndian(data: Data): nat {
    if data == [] then 0 else data[0] + 256 * FromLittleEndian(data[1..])
  }

  lemma {:induction false} LittleEndianRoundTrip(value: nat, width: nat)
    requires value < Pow256(width)
    ensures FromLittleEndian(ToLittleEndian(value, width)) == value
  {
    if width == 0 {
    } else {
      LittleEndianRoundTrip(value / 256, width - 1);
      var data := ToLittleEndian(value, width);
      assert data[1..] == ToLittleEndian(value / 256, width - 1);
    }
  }
}
