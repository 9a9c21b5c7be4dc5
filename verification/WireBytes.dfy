/**
 Bytes and the big-endian integers of the wire format (pkg/dnsmsg/utils.go).
 */
module WireBytes {

  type byte = b: int | 0 <= b < 0x100
  type bytes = seq<byte>
  type uint16 = v: int | 0 <= v < 0x1_0000
  type uint32 = v: int | 0 <= v < 0x1_0000_0000

  /** packUint16 */
  function U16(v: uint16): (s: bytes)
    ensures |s| == 2
  {
    [v / 0x100, v % 0x100]
  }

  /** packUint32 */
  function U32(v: uint32): (s: bytes)
    ensures |s| == 4
  {
    U16(v / 0x1_0000) + U16(v % 0x1_0000)
  }

  /** unpackUint16 */
  function AsU16(s: bytes): uint16
    requires |s| == 2
  {
    (s[0] as int) * 0x100 + s[1]
  }

  /** binary.BigEndian.Uint32 */
  function AsU32(s: bytes): uint32
    requires |s| == 4
  {
    (AsU16(s[..2]) as int) * 0x1_0000 + AsU16(s[2..])
  }

  lemma U16RoundTrip(v: uint16)
    ensures AsU16(U16(v)) == v
  {
  }

  lemma U16Injective(s: bytes)
    requires |s| == 2
    ensures U16(AsU16(s)) == s
  {
  }

  lemma U32RoundTrip(v: uint32)
    ensures AsU32(U32(v)) == v
  {
    assert U32(v)[..2] == U16(v / 0x1_0000) && U32(v)[2..] == U16(v % 0x1_0000);
  }

  lemma U32Injective(s: bytes)
    requires |s| == 4
    ensures U32(AsU32(s)) == s
  {
    U16Injective(s[..2]);
    U16Injective(s[2..]);
    assert s == s[..2] + s[2..];
  }
}
