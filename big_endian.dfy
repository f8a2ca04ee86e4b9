/**
 * The byte-order reader: fixed-width big-endian integers read from a byte
 * sequence at an explicit cursor. A read that needs more bytes than remain
 * fails (`None`); a successful read returns the value and the new cursor.
 * Encoders are the partners: every reader is proved to invert its encoder.
 */
module BigEndian {
  import opened Wrappers

  type byte = x: int | 0 <= x < 0x100

  const U16_LIMIT: nat := 0x1_0000
  const U32_LIMIT: nat := 0x1_0000_0000
  const I32_LIMIT: nat := 0x8000_0000

  predicate IsU16(v: int) { 0 <= v < U16_LIMIT }
  predicate IsU32(v: int) { 0 <= v < U32_LIMIT }
  predicate IsI32(v: int) { -(I32_LIMIT as int) <= v < I32_LIMIT }

  /** The unsigned 16-bit value whose high byte is at `pos`. */
  function U16At(data: seq<byte>, pos: nat): (v: nat)
    requires pos + 2 <= |data|
    ensures IsU16(v)
  {
    (data[pos] as int) * 0x100 + (data[pos + 1] as int)
  }

  /** The unsigned 32-bit value whose most significant byte is at `pos`. */
  function U32At(data: seq<byte>, pos: nat): (v: nat)
    requires pos + 4 <= |data|
    ensures IsU32(v)
  {
    U16At(data, pos) * 0x1_0000 + U16At(data, pos + 2)
  }

  /** The signed (two's complement) 32-bit value stored at `pos`. */
  function I32At(data: seq<byte>, pos: nat): (v: int)
    requires pos + 4 <= |data|
    ensures IsI32(v)
    ensures v >= 0 <==> U32At(data, pos) < I32_LIMIT
  {
    var u := U32At(data, pos);
    if u < I32_LIMIT then u else u - U32_LIMIT
  }

  /** Reads a u16 at the cursor; on success the cursor moves by two bytes. */
  function ReadU16(data: seq<byte>, pos: nat): (r: Option<(nat, nat)>)
    ensures r.Some? <==> pos + 2 <= |data|
    ensures r.Some? ==> IsU16(r.value.0) && r.value.1 == pos + 2
  {
    if pos + 2 <= |data| then Some((U16At(data, pos), pos + 2)) else None
  }

  /** Reads a u32 at the cursor; on success the cursor moves by four bytes. */
  function ReadU32(data: seq<byte>, pos: nat): (r: Option<(nat, nat)>)
    ensures r.Some? <==> pos + 4 <= |data|
    ensures r.Some? ==> IsU32(r.value.0) && r.value.1 == pos + 4
  {
    if pos + 4 <= |data| then Some((U32At(data, pos), pos + 4)) else None
  }

  /** Reads an i32 at the cursor; on success the cursor moves by four bytes. */
  function ReadI32(data: seq<byte>, pos: nat): (r: Option<(int, nat)>)
    ensures r.Some? <==> pos + 4 <= |data|
    ensures r.Some? ==> IsI32(r.value.0) && r.value.1 == pos + 4
  {
    if pos + 4 <= |data| then Some((I32At(data, pos), pos + 4)) else None
  }

  /** The two bytes of `v`, most significant first. */
  function U16Bytes(v: nat): (b: seq<byte>)
    requires IsU16(v)
    ensures |b| == 2
  {
    [v / 0x100, v % 0x100]
  }

  /** The four bytes of `v`, most significant first. */
  function U32Bytes(v: nat): (b: seq<byte>)
    requires IsU32(v)
    ensures |b| == 4
  {
    U16Bytes(v / 0x1_0000) + U16Bytes(v % 0x1_0000)
  }

  /** The four bytes of `v` in two's complement, most significant first. */
  function I32Bytes(v: int): (b: seq<byte>)
    requires IsI32(v)
    ensures |b| == 4
  {
    U32Bytes(if v < 0 then v + U32_LIMIT else v)
  }

  /** Three pieces stored back to back at `pos` are found at their own offsets. */
  lemma Pieces(data: seq<byte>, pos: nat, a: seq<byte>, b: seq<byte>, c: seq<byte>)
    requires pos + |a| + |b| + |c| <= |data| && data[pos..pos + |a| + |b| + |c|] == a + b + c
    ensures data[pos..pos + |a|] == a
    ensures data[pos + |a|..pos + |a| + |b|] == b
    ensures data[pos + |a| + |b|..pos + |a| + |b| + |c|] == c
  {
    var end := pos + |a| + |b| + |c|;
    SubSlice(data, pos, end, 0, |a|);
    SubSlice(data, pos, end, |a|, |a| + |b|);
    SubSlice(data, pos, end, |a| + |b|, |a| + |b| + |c|);
    assert (a + b + c)[0..|a|] == a;
    assert (a + b + c)[|a|..|a| + |b|] == b;
    assert (a + b + c)[|a| + |b|..|a| + |b| + |c|] == c;
  }

  /** A slice of a slice is a slice of the whole. */
  lemma SubSlice(data: seq<byte>, lo: nat, hi: nat, i: nat, j: nat)
    requires lo <= hi <= |data| && i <= j <= hi - lo
    ensures data[lo..hi][i..j] == data[lo + i..lo + j]
  {
    assert forall k :: 0 <= k < j - i ==> data[lo..hi][i..j][k] == data[lo + i..lo + j][k];
  }

  /** Reading a u16 back from its encoding gives the value, and nothing else is consumed. */
  lemma ReadU16Encoded(data: seq<byte>, pos: nat, v: nat)
    requires IsU16(v) && pos + 2 <= |data| && data[pos..pos + 2] == U16Bytes(v)
    ensures ReadU16(data, pos) == Some((v, pos + 2))
  {
    assert data[pos] == data[pos..pos + 2][0];
    assert data[pos + 1] == data[pos..pos + 2][1];
  }

  /** The encoding of the value read is exactly the bytes it was read from. */
  lemma U16BytesOfRead(data: seq<byte>, pos: nat)
    requires pos + 2 <= |data|
    ensures U16Bytes(U16At(data, pos)) == data[pos..pos + 2]
  {
  }

  lemma ReadU32Encoded(data: seq<byte>, pos: nat, v: nat)
    requires IsU32(v) && pos + 4 <= |data| && data[pos..pos + 4] == U32Bytes(v)
    ensures ReadU32(data, pos) == Some((v, pos + 4))
  {
    assert data[pos..pos + 2] == data[pos..pos + 4][..2];
    assert data[pos + 2..pos + 4] == data[pos..pos + 4][2..];
    ReadU16Encoded(data, pos, v / 0x1_0000);
    ReadU16Encoded(data, pos + 2, v % 0x1_0000);
  }

  lemma U32BytesOfRead(data: seq<byte>, pos: nat)
    requires pos + 4 <= |data|
    ensures U32Bytes(U32At(data, pos)) == data[pos..pos + 4]
  {
    var v := U32At(data, pos);
    assert v / 0x1_0000 == U16At(data, pos);
    assert v % 0x1_0000 == U16At(data, pos + 2);
    U16BytesOfRead(data, pos);
    U16BytesOfRead(data, pos + 2);
    assert data[pos..pos + 4] == data[pos..pos + 2] + data[pos + 2..pos + 4];
  }

  lemma ReadI32Encoded(data: seq<byte>, pos: nat, v: int)
    requires IsI32(v) && pos + 4 <= |data| && data[pos..pos + 4] == I32Bytes(v)
    ensures ReadI32(data, pos) == Some((v, pos + 4))
  {
    ReadU32Encoded(data, pos, if v < 0 then v + U32_LIMIT else v);
  }

  lemma I32BytesOfRead(data: seq<byte>, pos: nat)
    requires pos + 4 <= |data|
    ensures I32Bytes(I32At(data, pos)) == data[pos..pos + 4]
  {
    U32BytesOfRead(data, pos);
  }
}
