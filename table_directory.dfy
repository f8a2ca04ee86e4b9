/**
 * The SFNT offset table and table directory: `tableCount`, the three binary
 * search hints, then `tableCount` 16-byte table records in file order.
 */
module TableDirectory {
  import opened Wrappers
  import opened BigEndian

  /** A table tag: four ASCII bytes read as one big-endian u32. */
  type Tag = nat

  // The tags the typeface reader asks for (the ASCII spelling is in each comment).
  const OS2: Tag := 0x4F532F32   // 'OS/2'
  const NAME: Tag := 0x6E616D65  // 'name'
  const HEAD: Tag := 0x68656164  // 'head'
  const MAXP: Tag := 0x6D617870  // 'maxp'
  const HHEA: Tag := 0x68686561  // 'hhea'
  const HMTX: Tag := 0x686D7478  // 'hmtx'
  const POST: Tag := 0x706F7374  // 'post'
  const CFF: Tag := 0x43464620   // 'CFF '
  const CMAP: Tag := 0x636D6170  // 'cmap'
  const LOCA: Tag := 0x6C6F6361  // 'loca'
  const GLYF: Tag := 0x676C7966  // 'glyf'
  const GASP: Tag := 0x67617370  // 'gasp'
  const VDMX: Tag := 0x56444D58  // 'VDMX'
  const KERN: Tag := 0x6B65726E  // 'kern'
  const GDEF: Tag := 0x47444546  // 'GDEF'
  const GSUB: Tag := 0x47535542  // 'GSUB'
  const GPOS: Tag := 0x47504F53  // 'GPOS'
  const BASE: Tag := 0x42415345  // 'BASE'
  const COLR: Tag := 0x434F4C52  // 'COLR'
  const CPAL: Tag := 0x4350414C  // 'CPAL'
  const VHEA: Tag := 0x76686561  // 'vhea'
  const VMTX: Tag := 0x766D7478  // 'vmtx'
  const MATH: Tag := 0x4D415448  // 'MATH'
  const EBLC: Tag := 0x45424C43  // 'EBLC'
  const FPGM: Tag := 0x6670676D  // 'fpgm'
  const CVT: Tag := 0x63767420   // 'cvt '
  const PREP: Tag := 0x70726570  // 'prep'
  const SVG: Tag := 0x53564720   // 'SVG '

  /** The tag spelled by four byte-sized characters, first character most significant. */
  function TagOf(s: string): (t: Tag)
    requires |s| == 4 && forall i :: 0 <= i < 4 ==> s[i] as int < 0x100
    ensures IsU32(t)
  {
    ((s[0] as int * 0x100 + s[1] as int) * 0x100 + s[2] as int) * 0x100 + s[3] as int
  }

  /** One table record: where a table lives in the file and how long it is. */
  datatype TableHeader = TableHeader(tag: Tag, checkSum: nat, offset: nat, length: nat)

  predicate ValidHeader(h: TableHeader)
  {
    IsU32(h.tag) && IsU32(h.checkSum) && IsU32(h.offset) && IsU32(h.length)
  }

  /** The record stored at `pos`: tag, checksum, offset, length, four big-endian u32s. */
  function TableHeaderAt(data: seq<byte>, pos: nat): (h: TableHeader)
    requires pos + 16 <= |data|
    ensures ValidHeader(h)
  {
    TableHeader(U32At(data, pos), U32At(data, pos + 4), U32At(data, pos + 8), U32At(data, pos + 12))
  }

  /** Reads one table record at the cursor and moves past its 16 bytes. */
  function ReadTableHeader(data: seq<byte>, pos: nat): (r: Option<(TableHeader, nat)>)
    ensures r.Some? <==> pos + 16 <= |data|
    ensures r.Some? ==> ValidHeader(r.value.0) && r.value.1 == pos + 16
  {
    if pos + 16 <= |data| then Some((TableHeaderAt(data, pos), pos + 16)) else None
  }

  function EncodeTableHeader(h: TableHeader): (b: seq<byte>)
    requires ValidHeader(h)
    ensures |b| == 16
  {
    U32Bytes(h.tag) + U32Bytes(h.checkSum) + U32Bytes(h.offset) + U32Bytes(h.length)
  }

  /** A table record reads back as the record that was encoded. */
  lemma {:induction false} TableHeaderRoundTrip(data: seq<byte>, pos: nat, h: TableHeader)
    requires ValidHeader(h) && pos + 16 <= |data| && data[pos..pos + 16] == EncodeTableHeader(h)
    ensures ReadTableHeader(data, pos) == Some((h, pos + 16))
  {
    var e := EncodeTableHeader(h);
    SubSlice(data, pos, pos + 16, 0, 4);
    SubSlice(data, pos, pos + 16, 4, 8);
    SubSlice(data, pos, pos + 16, 8, 12);
    SubSlice(data, pos, pos + 16, 12, 16);
    assert e[0..4] == U32Bytes(h.tag);
    assert e[4..8] == U32Bytes(h.checkSum);
    assert e[8..12] == U32Bytes(h.offset);
    assert e[12..16] == U32Bytes(h.length);
    ReadU32Encoded(data, pos, h.tag);
    ReadU32Encoded(data, pos + 4, h.checkSum);
    ReadU32Encoded(data, pos + 8, h.offset);
    ReadU32Encoded(data, pos + 12, h.length);
  }

  /** The offset table that starts each SFNT font (after its 4-byte version). */
  datatype OffsetTable = OffsetTable(
    tableCount: nat,
    searchRange: nat,
    entrySelector: nat,
    rangeShift: nat,
    records: seq<TableHeader>)

  predicate ValidOffsetTable(ot: OffsetTable)
  {
    IsU16(ot.tableCount) && IsU16(ot.searchRange) && IsU16(ot.entrySelector) && IsU16(ot.rangeShift) &&
    |ot.records| == ot.tableCount &&
    forall i :: 0 <= i < |ot.records| ==> ValidHeader(ot.records[i])
  }

  /**
   * Parses the offset table at `pos` (the byte after the version field):
   * four u16 fields, then `tableCount` table records read one after another.
   * Fails when the stream ends before the last record.
   */
  function ParseOffsetTable(data: seq<byte>, pos: nat): (r: Option<(OffsetTable, nat)>)
    ensures r.Some? ==> ValidOffsetTable(r.value.0) && r.value.1 == pos + 8 + 16 * r.value.0.tableCount <= |data|
  {
    if pos + 8 > |data| then None
    else
      var n := U16At(data, pos);
      if pos + 8 + 16 * n > |data| then None
      else
        var records := seq(n, i requires 0 <= i < n => TableHeaderAt(data, pos + 8 + 16 * i));
        Some((OffsetTable(n, U16At(data, pos + 2), U16At(data, pos + 4), U16At(data, pos + 6), records),
              pos + 8 + 16 * n))
  }

  /** The directory holds exactly `tableCount` records, record i read at `pos + 8 + 16*i`, and nothing past the last record is consumed. */
  lemma OffsetTableLayout(data: seq<byte>, pos: nat)
    requires ParseOffsetTable(data, pos).Some?
    ensures var (ot, next) := ParseOffsetTable(data, pos).value;
      ValidOffsetTable(ot) && ot.tableCount == U16At(data, pos) &&
      next == pos + 8 + 16 * ot.tableCount && next <= |data| &&
      forall i :: 0 <= i < ot.tableCount ==> ot.records[i] == TableHeaderAt(data, pos + 8 + 16 * i)
  {
  }

  /** The parse fails exactly when the stream is too short for the count fields or for the records they announce. */
  lemma OffsetTableFailure(data: seq<byte>, pos: nat)
    ensures ParseOffsetTable(data, pos).None? <==>
      pos + 8 > |data| || pos + 8 + 16 * U16At(data, pos) > |data|
  {
  }

  /** The records in file order, 16 bytes each. */
  function EncodeRecords(rs: seq<TableHeader>): (b: seq<byte>)
    requires forall i :: 0 <= i < |rs| ==> ValidHeader(rs[i])
    ensures |b| == 16 * |rs|
  {
    if rs == [] then [] else EncodeRecords(rs[..|rs| - 1]) + EncodeTableHeader(rs[|rs| - 1])
  }

  lemma {:induction false} EncodeRecordsAt(rs: seq<TableHeader>, i: nat)
    requires forall j :: 0 <= j < |rs| ==> ValidHeader(rs[j])
    requires i < |rs|
    ensures EncodeRecords(rs)[16 * i..16 * i + 16] == EncodeTableHeader(rs[i])
  {
    var init := rs[..|rs| - 1];
    if i < |rs| - 1 {
      EncodeRecordsAt(init, i);
      assert EncodeRecords(rs)[16 * i..16 * i + 16] == EncodeRecords(init)[16 * i..16 * i + 16];
    } else {
      assert EncodeRecords(rs)[16 * i..16 * i + 16] == EncodeRecords(rs)[16 * |init|..];
    }
  }

  function EncodeOffsetTable(ot: OffsetTable): (b: seq<byte>)
    requires ValidOffsetTable(ot)
    ensures |b| == 8 + 16 * ot.tableCount
  {
    U16Bytes(ot.tableCount) + U16Bytes(ot.searchRange) + U16Bytes(ot.entrySelector) +
    U16Bytes(ot.rangeShift) + EncodeRecords(ot.records)
  }

  /** Records encoded back to back read back one by one, record i at `pos + 16*i`. */
  lemma {:induction false} RecordsRoundTrip(data: seq<byte>, pos: nat, rs: seq<TableHeader>)
    requires forall j :: 0 <= j < |rs| ==> ValidHeader(rs[j])
    requires pos + 16 * |rs| <= |data| && data[pos..pos + 16 * |rs|] == EncodeRecords(rs)
    ensures forall i :: 0 <= i < |rs| ==> TableHeaderAt(data, pos + 16 * i) == rs[i]
  {
    forall i | 0 <= i < |rs|
      ensures TableHeaderAt(data, pos + 16 * i) == rs[i]
    {
      EncodeRecordsAt(rs, i);
      SubSlice(data, pos, pos + 16 * |rs|, 16 * i, 16 * i + 16);
      TableHeaderRoundTrip(data, pos + 16 * i, rs[i]);
    }
  }

  lemma {:induction false} FixedFieldsRoundTrip(data: seq<byte>, pos: nat, end: nat, ot: OffsetTable)
    requires ValidOffsetTable(ot) && pos + 8 <= end <= |data|
    requires data[pos..end][..8] ==
      U16Bytes(ot.tableCount) + U16Bytes(ot.searchRange) + U16Bytes(ot.entrySelector) + U16Bytes(ot.rangeShift)
    ensures U16At(data, pos) == ot.tableCount && U16At(data, pos + 2) == ot.searchRange
    ensures U16At(data, pos + 4) == ot.entrySelector && U16At(data, pos + 6) == ot.rangeShift
  {
    SubSlice(data, pos, end, 0, 8);
    var f := data[pos..pos + 8];
    SubSlice(data, pos, pos + 8, 0, 2);
    SubSlice(data, pos, pos + 8, 2, 4);
    SubSlice(data, pos, pos + 8, 4, 6);
    SubSlice(data, pos, pos + 8, 6, 8);
    ReadU16Encoded(data, pos, ot.tableCount);
    ReadU16Encoded(data, pos + 2, ot.searchRange);
    ReadU16Encoded(data, pos + 4, ot.entrySelector);
    ReadU16Encoded(data, pos + 6, ot.rangeShift);
  }

  /** The fixed fields and the records of an encoded offset table read back one by one. */
  lemma {:induction false} OffsetTableFieldsRoundTrip(data: seq<byte>, pos: nat, ot: OffsetTable)
    requires ValidOffsetTable(ot)
    requires pos + 8 + 16 * ot.tableCount <= |data|
    requires data[pos..pos + 8 + 16 * ot.tableCount] == EncodeOffsetTable(ot)
    ensures U16At(data, pos) == ot.tableCount && U16At(data, pos + 2) == ot.searchRange
    ensures U16At(data, pos + 4) == ot.entrySelector && U16At(data, pos + 6) == ot.rangeShift
    ensures forall i :: 0 <= i < ot.tableCount ==> TableHeaderAt(data, pos + 8 + 16 * i) == ot.records[i]
  {
    var end := pos + 8 + 16 * ot.tableCount;
    var fixed := U16Bytes(ot.tableCount) + U16Bytes(ot.searchRange) + U16Bytes(ot.entrySelector) + U16Bytes(ot.rangeShift);
    assert data[pos..end][..8] == fixed && data[pos..end][8..] == EncodeRecords(ot.records) by {
      assert EncodeOffsetTable(ot) == fixed + EncodeRecords(ot.records);
    }
    FixedFieldsRoundTrip(data, pos, end, ot);
    assert data[pos + 8..end] == EncodeRecords(ot.records) by {
      SubSlice(data, pos, end, 8, 8 + 16 * ot.tableCount);
    }
    RecordsRoundTrip(data, pos + 8, ot.records);
  }

  /** An offset table whose fields are all found where the parser looks is what the parser returns. */
  lemma {:induction false} OffsetTableFromFields(data: seq<byte>, pos: nat, ot: OffsetTable)
    requires ValidOffsetTable(ot) && pos + 8 + 16 * ot.tableCount <= |data|
    requires U16At(data, pos) == ot.tableCount && U16At(data, pos + 2) == ot.searchRange
    requires U16At(data, pos + 4) == ot.entrySelector && U16At(data, pos + 6) == ot.rangeShift
    requires forall i :: 0 <= i < ot.tableCount ==> TableHeaderAt(data, pos + 8 + 16 * i) == ot.records[i]
    ensures ParseOffsetTable(data, pos) == Some((ot, pos + 8 + 16 * ot.tableCount))
  {
    var n := ot.tableCount;
    var records := seq(n, i requires 0 <= i < n => TableHeaderAt(data, pos + 8 + 16 * i));
    assert records == ot.records;
  }

  /** Parsing an encoded offset table gives it back and consumes exactly its bytes. */
  lemma {:induction false} OffsetTableRoundTrip(data: seq<byte>, pos: nat, ot: OffsetTable)
    requires ValidOffsetTable(ot)
    requires pos + 8 + 16 * ot.tableCount <= |data|
    requires data[pos..pos + 8 + 16 * ot.tableCount] == EncodeOffsetTable(ot)
    ensures ParseOffsetTable(data, pos) == Some((ot, pos + 8 + 16 * ot.tableCount))
  {
    OffsetTableFieldsRoundTrip(data, pos, ot);
    OffsetTableFromFields(data, pos, ot);
  }
}
