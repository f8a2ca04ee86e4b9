/**
 * Container sniffing: the first four bytes of a font stream, read as two
 * big-endian u16 values, tell a TrueType collection ("ttcf") and the two web
 * font wrappers ("wOFF", "wOF2") apart from a bare SFNT font.
 */
module KnownFontFiles {
  import opened BigEndian

  /** `(u >> 8) & 0xff` on a u16. */
  function HighByte(u: nat): nat requires IsU16(u) { (u / 0x100) % 0x100 }

  /** `u & 0xff` on a u16. */
  function LowByte(u: nat): nat requires IsU16(u) { u % 0x100 }

  /** True when the two u16s spell the collection tag 't' 't' 'c' 'f'. */
  predicate IsTtcf(u1: nat, u2: nat)
    requires IsU16(u1) && IsU16(u2)
    ensures IsTtcf(u1, u2) <==> u1 == 0x7474 && u2 == 0x6366
  {
    HighByte(u1) == 't' as nat && LowByte(u1) == 't' as nat &&
    HighByte(u2) == 'c' as nat && LowByte(u2) == 'f' as nat
  }

  /** True when the two u16s spell the WOFF signature 'w' 'O' 'F' 'F'. */
  predicate IsWoff(u1: nat, u2: nat)
    requires IsU16(u1) && IsU16(u2)
    ensures IsWoff(u1, u2) <==> u1 == 0x774F && u2 == 0x4646
  {
    HighByte(u1) == 'w' as nat && LowByte(u1) == 'O' as nat &&
    HighByte(u2) == 'F' as nat && LowByte(u2) == 'F' as nat
  }

  /** True when the two u16s spell the WOFF2 signature 'w' 'O' 'F' '2'. */
  predicate IsWoff2(u1: nat, u2: nat)
    requires IsU16(u1) && IsU16(u2)
    ensures IsWoff2(u1, u2) <==> u1 == 0x774F && u2 == 0x4632
  {
    HighByte(u1) == 'w' as nat && LowByte(u1) == 'O' as nat &&
    HighByte(u2) == 'F' as nat && LowByte(u2) == '2' as nat
  }

  /** At most one of the three container signatures matches any stream start. */
  lemma SignaturesExclusive(u1: nat, u2: nat)
    requires IsU16(u1) && IsU16(u2)
    ensures !(IsTtcf(u1, u2) && IsWoff(u1, u2))
    ensures !(IsTtcf(u1, u2) && IsWoff2(u1, u2))
    ensures !(IsWoff(u1, u2) && IsWoff2(u1, u2))
  {
  }

  /** The magic test on the first two u16s of a stream is the test that its first four bytes are ASCII "ttcf". */
  lemma TtcfMagicBytes(data: seq<byte>)
    requires |data| >= 4
    ensures IsTtcf(U16At(data, 0), U16At(data, 2)) <==>
            data[..4] == ['t' as byte, 't' as byte, 'c' as byte, 'f' as byte]
  {
    if IsTtcf(U16At(data, 0), U16At(data, 2)) {
      U16BytesOfRead(data, 0);
      U16BytesOfRead(data, 2);
      assert data[..4] == data[0..2] + data[2..4];
    }
  }
}
