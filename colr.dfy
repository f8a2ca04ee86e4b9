/**
 * The color-layer table, version 0 of COLR in the OpenType specification: a
 * 14-byte header, then base glyph records and layer records, each array at
 * an offset relative to the start of the table.
 */
module Colr {
  import opened Wrappers
  import opened BigEndian

  /** The five header fields, in file order. */
  datatype ColrHeader = ColrHeader(
    version: nat,
    numBaseGlyphRecords: nat,
    baseGlyphRecordsOffset: nat,
    layerRecordsOffset: nat,
    numLayerRecords: nat)

  /** A colored glyph: its layers are `numLayers` layer records from `firstLayerIndex`. */
  datatype BaseGlyphRecord = BaseGlyphRecord(glyphId: nat, firstLayerIndex: nat, numLayers: nat)

  /** One layer: the glyph drawn and the palette entry it is painted with. */
  datatype LayerRecord = LayerRecord(glyphId: nat, paletteIndex: nat)

  /** The decoded table: the header and both record arrays. */
  datatype ColrTable = ColrTable(
    header: ColrHeader,
    baseGlyphRecords: seq<BaseGlyphRecord>,
    layerRecords: seq<LayerRecord>)

  const HEADER_SIZE: nat := 14
  const BASE_GLYPH_RECORD_SIZE: nat := 6
  const LAYER_RECORD_SIZE: nat := 4

  /** The header at `start`: version u16, count u16, two u32 offsets, count u16. */
  function ParseColrHeader(data: seq<byte>, start: nat): (r: Option<ColrHeader>)
  {
    if start + HEADER_SIZE > |data| then None
    else Some(ColrHeader(U16At(data, start), U16At(data, start + 2), U32At(data, start + 4),
                         U32At(data, start + 8), U16At(data, start + 12)))
  }

  function BaseGlyphRecordAt(data: seq<byte>, pos: nat): BaseGlyphRecord
    requires pos + BASE_GLYPH_RECORD_SIZE <= |data|
  {
    BaseGlyphRecord(U16At(data, pos), U16At(data, pos + 2), U16At(data, pos + 4))
  }

  function LayerRecordAt(data: seq<byte>, pos: nat): LayerRecord
    requires pos + LAYER_RECORD_SIZE <= |data|
  {
    LayerRecord(U16At(data, pos), U16At(data, pos + 2))
  }

  /** `n` base glyph records packed from `pos` (no byte is needed when `n` is 0). */
  function BaseGlyphRecordsAt(data: seq<byte>, pos: nat, n: nat): (rs: seq<BaseGlyphRecord>)
    requires n == 0 || pos + BASE_GLYPH_RECORD_SIZE * n <= |data|
    ensures |rs| == n
  {
    seq(n, i requires 0 <= i < n => BaseGlyphRecordAt(data, pos + BASE_GLYPH_RECORD_SIZE * i))
  }

  /** `n` layer records packed from `pos`. */
  function LayerRecordsAt(data: seq<byte>, pos: nat, n: nat): (rs: seq<LayerRecord>)
    requires n == 0 || pos + LAYER_RECORD_SIZE * n <= |data|
    ensures |rs| == n
  {
    seq(n, i requires 0 <= i < n => LayerRecordAt(data, pos + LAYER_RECORD_SIZE * i))
  }

  /**
   * The table whose first byte is at `start`: the header, then the base glyph
   * records at `start + baseGlyphRecordsOffset` and the layer records at
   * `start + layerRecordsOffset`. Fails when a record runs past the data.
   */
  function ParseColr(data: seq<byte>, start: nat): (r: Option<ColrTable>)
    ensures r.Some? ==> start + HEADER_SIZE <= |data|
    ensures r.Some? ==>
      |r.value.baseGlyphRecords| == r.value.header.numBaseGlyphRecords &&
      |r.value.layerRecords| == r.value.header.numLayerRecords
  {
    match ParseColrHeader(data, start)
    case None => None
    case Some(h) =>
      var basePos := start + h.baseGlyphRecordsOffset;
      var layerPos := start + h.layerRecordsOffset;
      if h.numBaseGlyphRecords > 0 && basePos + BASE_GLYPH_RECORD_SIZE * h.numBaseGlyphRecords > |data| then None
      else if h.numLayerRecords > 0 && layerPos + LAYER_RECORD_SIZE * h.numLayerRecords > |data| then None
      else Some(ColrTable(h, BaseGlyphRecordsAt(data, basePos, h.numBaseGlyphRecords),
                          LayerRecordsAt(data, layerPos, h.numLayerRecords)))
  }

  lemma BaseGlyphRecordsSnoc(data: seq<byte>, pos: nat, i: nat)
    requires pos + BASE_GLYPH_RECORD_SIZE * (i + 1) <= |data|
    ensures BaseGlyphRecordsAt(data, pos, i + 1) ==
      BaseGlyphRecordsAt(data, pos, i) + [BaseGlyphRecordAt(data, pos + BASE_GLYPH_RECORD_SIZE * i)]
  {
  }

  lemma MapUnionUpdate(a: map<nat, nat>, b: map<nat, nat>, k: nat, v: nat)
    ensures (a + b)[k := v] == a + b[k := v]
  {
  }

  /** Base glyph id to first layer index, inserted record by record: a repeated glyph id keeps its last record. */
  function LayerIndexMap(rs: seq<BaseGlyphRecord>): (m: map<nat, nat>)
    ensures m.Keys <= GlyphIds(rs)
  {
    if rs == [] then map[]
    else LayerIndexMap(rs[..|rs| - 1])[rs[|rs| - 1].glyphId := rs[|rs| - 1].firstLayerIndex]
  }

  /** Base glyph id to layer count, inserted record by record. */
  function LayerCountMap(rs: seq<BaseGlyphRecord>): (m: map<nat, nat>)
    ensures m.Keys <= GlyphIds(rs)
  {
    if rs == [] then map[]
    else LayerCountMap(rs[..|rs| - 1])[rs[|rs| - 1].glyphId := rs[|rs| - 1].numLayers]
  }

  function GlyphIds(rs: seq<BaseGlyphRecord>): set<nat>
  {
    set i | 0 <= i < |rs| :: rs[i].glyphId
  }

  /**
   * Both maps are keyed by exactly the glyph ids of the records (so a glyph id
   * without a record has no entry), and hold at most one key per record.
   */
  lemma {:induction false} LayerMapKeys(rs: seq<BaseGlyphRecord>)
    ensures LayerIndexMap(rs).Keys == GlyphIds(rs) && LayerCountMap(rs).Keys == GlyphIds(rs)
    ensures |LayerIndexMap(rs)| <= |rs|
  {
    if rs != [] {
      var init := rs[..|rs| - 1];
      LayerMapKeys(init);
      GlyphIdsSnoc(rs);
      assert LayerIndexMap(rs).Keys == LayerIndexMap(init).Keys + {rs[|rs| - 1].glyphId};
    }
  }

  lemma GlyphIdsSnoc(rs: seq<BaseGlyphRecord>)
    requires rs != []
    ensures GlyphIds(rs) == GlyphIds(rs[..|rs| - 1]) + {rs[|rs| - 1].glyphId}
  {
    var init := rs[..|rs| - 1];
    assert forall i :: 0 <= i < |init| ==> init[i] == rs[i];
  }

  /** Every glyph id maps to the values of its last record. */
  lemma {:induction false} LayerMapsLastRecordWins(rs: seq<BaseGlyphRecord>, i: nat)
    requires i < |rs|
    requires forall j :: i < j < |rs| ==> rs[j].glyphId != rs[i].glyphId
    ensures rs[i].glyphId in LayerIndexMap(rs) && LayerIndexMap(rs)[rs[i].glyphId] == rs[i].firstLayerIndex
    ensures rs[i].glyphId in LayerCountMap(rs) && LayerCountMap(rs)[rs[i].glyphId] == rs[i].numLayers
  {
    if i < |rs| - 1 {
      LayerMapsLastRecordWins(rs[..|rs| - 1], i);
    }
  }

  /** The two header counts bound the decoded arrays, and every record sits at its table-relative position. */
  lemma ColrLayout(data: seq<byte>, start: nat)
    requires ParseColr(data, start).Some?
    ensures var c := ParseColr(data, start).value;
      start + HEADER_SIZE <= |data| &&
      c.header.version == U16At(data, start) &&
      c.header.numBaseGlyphRecords == U16At(data, start + 2) &&
      c.header.baseGlyphRecordsOffset == U32At(data, start + 4) &&
      c.header.layerRecordsOffset == U32At(data, start + 8) &&
      c.header.numLayerRecords == U16At(data, start + 12) &&
      |c.baseGlyphRecords| == c.header.numBaseGlyphRecords &&
      |c.layerRecords| == c.header.numLayerRecords &&
      (forall i :: 0 <= i < |c.baseGlyphRecords| ==>
        c.baseGlyphRecords[i] == BaseGlyphRecordAt(data, start + c.header.baseGlyphRecordsOffset + 6 * i)) &&
      (forall j :: 0 <= j < |c.layerRecords| ==>
        c.layerRecords[j] == LayerRecordAt(data, start + c.header.layerRecordsOffset + 4 * j))
  {
  }

  /**
   * The well-formedness the decoder does not check: every base glyph's layer
   * run lies inside the layer array.
   */
  predicate LayerRunsInRange(c: ColrTable)
  {
    forall i :: 0 <= i < |c.baseGlyphRecords| ==>
      c.baseGlyphRecords[i].firstLayerIndex + c.baseGlyphRecords[i].numLayers <= c.header.numLayerRecords
  }

  /** The layers a glyph is drawn with, when it has a record whose run lies inside the layer array. */
  function ColorLayers(c: ColrTable, glyphId: nat): (r: Option<seq<LayerRecord>>)
    ensures r.Some? ==> glyphId in GlyphIds(c.baseGlyphRecords)
    ensures r.Some? ==> forall j :: 0 <= j < |r.value| ==> r.value[j] in c.layerRecords
  {
    var indices := LayerIndexMap(c.baseGlyphRecords);
    var counts := LayerCountMap(c.baseGlyphRecords);
    if glyphId in indices && glyphId in counts && indices[glyphId] + counts[glyphId] <= |c.layerRecords| then
      Some(c.layerRecords[indices[glyphId]..indices[glyphId] + counts[glyphId]])
    else None
  }

  /** A two-glyph, three-layer table: glyph 5 is drawn with layers 0 and 1, glyph 9 with layer 2. */
  const SAMPLE: seq<byte> := [
    0x00, 0x00,  0x00, 0x02,  0x00, 0x00, 0x00, 0x0E,  0x00, 0x00, 0x00, 0x1A,  0x00, 0x03,
    0x00, 0x05,  0x00, 0x00,  0x00, 0x02,
    0x00, 0x09,  0x00, 0x02,  0x00, 0x01,
    0x00, 0x64,  0x00, 0x00,
    0x00, 0x65,  0x00, 0x01,
    0x00, 0x66,  0x00, 0x00]

  const SAMPLE_TABLE: ColrTable := ColrTable(
    ColrHeader(0, 2, 14, 26, 3),
    [BaseGlyphRecord(5, 0, 2), BaseGlyphRecord(9, 2, 1)],
    [LayerRecord(100, 0), LayerRecord(101, 1), LayerRecord(102, 0)])

  lemma SampleBaseGlyphRecords()
    ensures BaseGlyphRecordsAt(SAMPLE, 14, 2) == SAMPLE_TABLE.baseGlyphRecords
  {
    assert BaseGlyphRecordAt(SAMPLE, 14) == BaseGlyphRecord(5, 0, 2);
    assert BaseGlyphRecordAt(SAMPLE, 20) == BaseGlyphRecord(9, 2, 1);
  }

  lemma SampleLayerRecords()
    ensures LayerRecordsAt(SAMPLE, 26, 3) == SAMPLE_TABLE.layerRecords
  {
    assert LayerRecordAt(SAMPLE, 26) == LayerRecord(100, 0);
    assert LayerRecordAt(SAMPLE, 30) == LayerRecord(101, 1);
    assert LayerRecordAt(SAMPLE, 34) == LayerRecord(102, 0);
  }

  lemma SampleParses()
    ensures ParseColr(SAMPLE, 0) == Some(SAMPLE_TABLE)
  {
    assert ParseColrHeader(SAMPLE, 0) == Some(ColrHeader(0, 2, 14, 26, 3));
    SampleBaseGlyphRecords();
    SampleLayerRecords();
  }

  /** The sample decodes to the expected layers, and a glyph without a record has none. */
  lemma SampleDecodes(other: nat)
    requires other != 5 && other != 9
    ensures ParseColr(SAMPLE, 0).Some?
    ensures var c := ParseColr(SAMPLE, 0).value;
      LayerRunsInRange(c) &&
      ColorLayers(c, 5) == Some([LayerRecord(100, 0), LayerRecord(101, 1)]) &&
      ColorLayers(c, 9) == Some([LayerRecord(102, 0)]) &&
      ColorLayers(c, other) == None
  {
    SampleParses();
    var rs := SAMPLE_TABLE.baseGlyphRecords;
    assert rs[..1] == [BaseGlyphRecord(5, 0, 2)];
    assert LayerIndexMap(rs) == map[5 := 0, 9 := 2];
    assert LayerCountMap(rs) == map[5 := 2, 9 := 1];
    var layers := SAMPLE_TABLE.layerRecords;
    assert layers[0..2] == [LayerRecord(100, 0), LayerRecord(101, 1)];
    assert layers[2..3] == [LayerRecord(102, 0)];
  }

  /** A table the decoder accepts although its only layer run ends past the layer array. */
  lemma UncheckedLayerRun()
    ensures var data := [0, 0, 0, 1, 0, 0, 0, 14, 0, 0, 0, 20, 0, 0, 0, 7, 0, 0, 0, 1];
      ParseColr(data, 0).Some? && !LayerRunsInRange(ParseColr(data, 0).value)
  {
    var data: seq<byte> := [0, 0, 0, 1, 0, 0, 0, 14, 0, 0, 0, 20, 0, 0, 0, 7, 0, 0, 0, 1];
    var c := ParseColr(data, 0).value;
    assert c.baseGlyphRecords[0] == BaseGlyphRecord(7, 0, 1);
  }

  /**
   * The decoded state of one COLR table: the two parallel layer arrays and
   * the two dictionaries keyed by base glyph id.
   */
  class COLR {
    var glyphLayers: array<nat>
    var glyphPalettes: array<nat>
    var layerIndices: map<nat, nat>
    var layerCounts: map<nat, nat>

    constructor ()
      ensures layerIndices == map[] && layerCounts == map[]
      ensures glyphLayers.Length == 0 && glyphPalettes.Length == 0
    {
      glyphLayers := new nat[0];
      glyphPalettes := new nat[0];
      layerIndices := map[];
      layerCounts := map[];
    }

    /**
     * Decodes the table whose first byte is at `tableStart`: allocates the two
     * layer arrays, inserts one dictionary entry per base glyph record, then
     * fills the arrays from the layer records. `ok` is false when the data ends
     * before a field the decoder reads.
     */
    method ReadContentFrom(data: seq<byte>, tableStart: nat) returns (ok: bool)
      modifies this
      ensures ok == ParseColr(data, tableStart).Some?
      ensures ok ==> var c := ParseColr(data, tableStart).value;
        fresh(glyphLayers) && fresh(glyphPalettes) &&
        glyphLayers.Length == glyphPalettes.Length == c.header.numLayerRecords &&
        (forall j :: 0 <= j < |c.layerRecords| ==>
          glyphLayers[j] == c.layerRecords[j].glyphId && glyphPalettes[j] == c.layerRecords[j].paletteIndex) &&
        layerIndices == old(layerIndices) + LayerIndexMap(c.baseGlyphRecords) &&
        layerCounts == old(layerCounts) + LayerCountMap(c.baseGlyphRecords)
    {
      var offset := tableStart;
      var version := ReadU16(data, offset);
      if version.None? { return false; }
      var glyphCount := ReadU16(data, version.value.1);
      if glyphCount.None? { return false; }
      var glyphsOffset := ReadU32(data, glyphCount.value.1);
      if glyphsOffset.None? { return false; }
      var layersOffset := ReadU32(data, glyphsOffset.value.1);
      if layersOffset.None? { return false; }
      var layersCount := ReadU16(data, layersOffset.value.1);
      if layersCount.None? { return false; }
      ghost var h := ParseColrHeader(data, tableStart).value;
      assert h == ColrHeader(version.value.0, glyphCount.value.0, glyphsOffset.value.0,
                             layersOffset.value.0, layersCount.value.0);
      var layers := new nat[layersCount.value.0];
      var palettes := new nat[layersCount.value.0];
      glyphLayers, glyphPalettes := layers, palettes;

      ok := ReadBaseGlyphRecords(data, offset + glyphsOffset.value.0, glyphCount.value.0);
      if !ok { return; }
      ok := ReadLayerRecords(data, offset + layersOffset.value.0, layers, palettes);
    }
    /** The first loop: one dictionary entry per base glyph record, read from `basePos` on. */
    method ReadBaseGlyphRecords(data: seq<byte>, basePos: nat, n: nat) returns (ok: bool)
      modifies this`layerIndices, this`layerCounts
      ensures ok == (n == 0 || basePos + BASE_GLYPH_RECORD_SIZE * n <= |data|)
      ensures ok ==>
        layerIndices == old(layerIndices) + LayerIndexMap(BaseGlyphRecordsAt(data, basePos, n)) &&
        layerCounts == old(layerCounts) + LayerCountMap(BaseGlyphRecordsAt(data, basePos, n))
    {
      var cursor := basePos;
      for i := 0 to n
        invariant cursor == basePos + 6 * i
        invariant i == 0 || cursor <= |data|
        invariant layerIndices == old(layerIndices) + LayerIndexMap(BaseGlyphRecordsAt(data, basePos, i))
        invariant layerCounts == old(layerCounts) + LayerCountMap(BaseGlyphRecordsAt(data, basePos, i))
      {
        var gid := ReadU16(data, cursor);
        if gid.None? { return false; }
        var index := ReadU16(data, gid.value.1);
        if index.None? { return false; }
        var count := ReadU16(data, index.value.1);
        if count.None? { return false; }
        BaseGlyphRecordsSnoc(data, basePos, i);
        var record := BaseGlyphRecord(gid.value.0, index.value.0, count.value.0);
        assert record == BaseGlyphRecordAt(data, basePos + 6 * i);
        MapUnionUpdate(old(layerIndices), LayerIndexMap(BaseGlyphRecordsAt(data, basePos, i)), record.glyphId, record.firstLayerIndex);
        MapUnionUpdate(old(layerCounts), LayerCountMap(BaseGlyphRecordsAt(data, basePos, i)), record.glyphId, record.numLayers);
        layerIndices := layerIndices[gid.value.0 := index.value.0];
        layerCounts := layerCounts[gid.value.0 := count.value.0];
        cursor := count.value.1;
      }
      ok := true;
    }
  }

  /** The second loop: layer record j fills slot j of both arrays, read from `layerPos` on. */
  method ReadLayerRecords(data: seq<byte>, layerPos: nat, layers: array<nat>, palettes: array<nat>)
    returns (ok: bool)
    requires layers.Length == palettes.Length && layers != palettes
    modifies layers, palettes
    ensures ok == (layers.Length == 0 || layerPos + LAYER_RECORD_SIZE * layers.Length <= |data|)
    ensures ok ==> forall j :: 0 <= j < layers.Length ==>
      layers[j] == LayerRecordAt(data, layerPos + 4 * j).glyphId &&
      palettes[j] == LayerRecordAt(data, layerPos + 4 * j).paletteIndex
  {
    var cursor := layerPos;
    for i := 0 to layers.Length
      invariant cursor == layerPos + 4 * i
      invariant i == 0 || cursor <= |data|
      invariant forall k :: 0 <= k < i ==>
        layers[k] == LayerRecordAt(data, layerPos + 4 * k).glyphId &&
        palettes[k] == LayerRecordAt(data, layerPos + 4 * k).paletteIndex
    {
      var layerGlyph := ReadU16(data, cursor);
      if layerGlyph.None? { return false; }
      var palette := ReadU16(data, layerGlyph.value.1);
      if palette.None? { return false; }
      layers[i] := layerGlyph.value.0;
      palettes[i] := palette.value.0;
      cursor := palette.value.1;
    }
    ok := true;
  }
}
