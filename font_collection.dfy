/**
 * TrueType collections: the TTC header (versions 1.0 and 2.0 of the "TTC
 * Header" in the OpenType font file chapter) that follows the 'ttcf' tag,
 * and the display name the reader builds for a collection from its members.
 */
module FontCollection {
  import opened Wrappers
  import opened BigEndian

  /** The TTC header after its 'ttcf' tag; the three DSIG fields stay 0 unless the major version is 2. */
  datatype CollectionHeader = CollectionHeader(
    majorVersion: nat,
    minorVersion: nat,
    numFonts: nat,
    offsetTables: seq<int>,
    dsigTag: nat,
    dsigLength: nat,
    dsigOffset: nat)

  /** 'DSIG': the version-2 marker that a signature block exists (the block itself is never decoded). */
  const DSIG_TAG: nat := 0x44534947

  /**
   * The header parsed at `pos`, the byte after the 'ttcf' tag: major and minor
   * version (u16), `numFonts` (u32), `numFonts` i32 offsets, then three u32
   * DSIG fields when the major version is 2. Fails on a truncated stream.
   */
  function ParseTTCHeader(data: seq<byte>, pos: nat): (r: Option<(CollectionHeader, nat)>)
    ensures r.Some? ==> ValidCollectionHeader(r.value.0) && r.value.1 <= |data|
  {
    if pos + 8 > |data| then None
    else
      var n := U32At(data, pos + 4);
      var afterOffsets := pos + 8 + 4 * n;
      if afterOffsets > |data| then None
      else
        var offsets := seq(n, i requires 0 <= i < n => I32At(data, pos + 8 + 4 * i));
        var major := U16At(data, pos);
        var minor := U16At(data, pos + 2);
        if major == 2 then
          if afterOffsets + 12 > |data| then None
          else
            Some((CollectionHeader(major, minor, n, offsets,
                    U32At(data, afterOffsets), U32At(data, afterOffsets + 4), U32At(data, afterOffsets + 8)),
                  afterOffsets + 12))
        else
          Some((CollectionHeader(major, minor, n, offsets, 0, 0, 0), afterOffsets))
  }

  /**
   * Reads the TTC header the way the reader does, field after field, filling
   * an array of `numFonts` offsets in a loop.
   */
  method ReadTTCHeader(data: seq<byte>, pos: nat) returns (r: Option<(CollectionHeader, nat)>)
    ensures r == ParseTTCHeader(data, pos)
  {
    var major := ReadU16(data, pos);
    if major.None? { return None; }
    var minor := ReadU16(data, major.value.1);
    if minor.None? { return None; }
    var count := ReadU32(data, minor.value.1);
    if count.None? { return None; }
    var numFonts := count.value.0;
    var cursor := count.value.1;
    var offsetTables := new int[numFonts];
    for i := 0 to numFonts
      invariant cursor == pos + 8 + 4 * i <= |data|
      invariant forall k :: 0 <= k < i ==> offsetTables[k] == I32At(data, pos + 8 + 4 * k)
    {
      var offset := ReadI32(data, cursor);
      if offset.None? { return None; }
      offsetTables[i] := offset.value.0;
      cursor := offset.value.1;
    }
    assert offsetTables[..] == seq(numFonts, i requires 0 <= i < numFonts => I32At(data, pos + 8 + 4 * i));
    var header := CollectionHeader(major.value.0, minor.value.0, numFonts, offsetTables[..], 0, 0, 0);
    if header.majorVersion == 2 {
      var tag := ReadU32(data, cursor);
      if tag.None? { return None; }
      var length := ReadU32(data, tag.value.1);
      if length.None? { return None; }
      var offset := ReadU32(data, length.value.1);
      if offset.None? { return None; }
      header := header.(dsigTag := tag.value.0, dsigLength := length.value.0, dsigOffset := offset.value.0);
      cursor := offset.value.1;
    }
    r := Some((header, cursor));
  }

  /**
   * The header holds `numFonts` offsets, offset i being the i-th big-endian
   * i32 after `numFonts`, and consumes `8 + 4*numFonts` bytes, plus 12 more
   * exactly when the major version is 2.
   */
  lemma TTCHeaderLayout(data: seq<byte>, pos: nat)
    requires ParseTTCHeader(data, pos).Some?
    ensures var (h, next) := ParseTTCHeader(data, pos).value;
      h.majorVersion == U16At(data, pos) && h.numFonts == U32At(data, pos + 4) &&
      |h.offsetTables| == h.numFonts &&
      (forall i :: 0 <= i < h.numFonts ==> h.offsetTables[i] == I32At(data, pos + 8 + 4 * i)) &&
      next == pos + 8 + 4 * h.numFonts + (if h.majorVersion == 2 then 12 else 0) &&
      next <= |data|
  {
  }

  predicate ValidCollectionHeader(h: CollectionHeader)
  {
    IsU16(h.majorVersion) && IsU16(h.minorVersion) && IsU32(h.numFonts) &&
    |h.offsetTables| == h.numFonts &&
    (forall i :: 0 <= i < |h.offsetTables| ==> IsI32(h.offsetTables[i])) &&
    IsU32(h.dsigTag) && IsU32(h.dsigLength) && IsU32(h.dsigOffset) &&
    (h.majorVersion != 2 ==> h.dsigTag == 0 && h.dsigLength == 0 && h.dsigOffset == 0)
  }

  /** The offsets back to back, four bytes each. */
  function EncodeOffsets(offsets: seq<int>): (b: seq<byte>)
    requires forall i :: 0 <= i < |offsets| ==> IsI32(offsets[i])
    ensures |b| == 4 * |offsets|
  {
    if offsets == [] then [] else EncodeOffsets(offsets[..|offsets| - 1]) + I32Bytes(offsets[|offsets| - 1])
  }

  function EncodeTTCHeader(h: CollectionHeader): (b: seq<byte>)
    requires ValidCollectionHeader(h)
    ensures |b| == 8 + 4 * h.numFonts + (if h.majorVersion == 2 then 12 else 0)
  {
    U16Bytes(h.majorVersion) + U16Bytes(h.minorVersion) + U32Bytes(h.numFonts) +
    EncodeOffsets(h.offsetTables) +
    (if h.majorVersion == 2 then U32Bytes(h.dsigTag) + U32Bytes(h.dsigLength) + U32Bytes(h.dsigOffset) else [])
  }

  lemma {:induction false} EncodeOffsetsAt(offsets: seq<int>, i: nat)
    requires forall j :: 0 <= j < |offsets| ==> IsI32(offsets[j])
    requires i < |offsets|
    ensures EncodeOffsets(offsets)[4 * i..4 * i + 4] == I32Bytes(offsets[i])
  {
    var init := offsets[..|offsets| - 1];
    if i < |offsets| - 1 {
      EncodeOffsetsAt(init, i);
      assert EncodeOffsets(offsets)[4 * i..4 * i + 4] == EncodeOffsets(init)[4 * i..4 * i + 4];
    } else {
      assert EncodeOffsets(offsets)[4 * i..4 * i + 4] == EncodeOffsets(offsets)[4 * |init|..];
    }
  }

  /** Offsets encoded back to back read back one by one. */
  lemma {:induction false} OffsetsRoundTrip(data: seq<byte>, pos: nat, offsets: seq<int>)
    requires forall j :: 0 <= j < |offsets| ==> IsI32(offsets[j])
    requires pos + 4 * |offsets| <= |data| && data[pos..pos + 4 * |offsets|] == EncodeOffsets(offsets)
    ensures OffsetsAt(data, pos, offsets)
  {
    forall i | 0 <= i < |offsets|
      ensures I32At(data, pos + 4 * i) == offsets[i]
    {
      EncodeOffsetsAt(offsets, i);
      SubSlice(data, pos, pos + 4 * |offsets|, 4 * i, 4 * i + 4);
      ReadI32Encoded(data, pos + 4 * i, offsets[i]);
    }
  }

  lemma {:induction false} TTCFixedFieldsRoundTrip(data: seq<byte>, pos: nat, h: CollectionHeader)
    requires ValidCollectionHeader(h) && pos + 8 <= |data|
    requires data[pos..pos + 8] == U16Bytes(h.majorVersion) + U16Bytes(h.minorVersion) + U32Bytes(h.numFonts)
    ensures U16At(data, pos) == h.majorVersion && U16At(data, pos + 2) == h.minorVersion
    ensures U32At(data, pos + 4) == h.numFonts
  {
    SubSlice(data, pos, pos + 8, 0, 2);
    SubSlice(data, pos, pos + 8, 2, 4);
    SubSlice(data, pos, pos + 8, 4, 8);
    ReadU16Encoded(data, pos, h.majorVersion);
    ReadU16Encoded(data, pos + 2, h.minorVersion);
    ReadU32Encoded(data, pos + 4, h.numFonts);
  }

  /** The offsets are the i32s stored back to back from `pos`. */
  ghost predicate OffsetsAt(data: seq<byte>, pos: nat, offsets: seq<int>)
  {
    pos + 4 * |offsets| <= |data| &&
    forall i :: 0 <= i < |offsets| ==> I32At(data, pos + 4 * i) == offsets[i]
  }

  /** The three DSIG fields of `h` are the u32s stored from `p`. */
  ghost predicate DsigAt(data: seq<byte>, p: nat, h: CollectionHeader)
  {
    p + 12 <= |data| &&
    U32At(data, p) == h.dsigTag && U32At(data, p + 4) == h.dsigLength && U32At(data, p + 8) == h.dsigOffset
  }

  lemma {:induction false} DsigRoundTrip(data: seq<byte>, p: nat, h: CollectionHeader)
    requires ValidCollectionHeader(h) && p + 12 <= |data|
    requires data[p..p + 12] == U32Bytes(h.dsigTag) + U32Bytes(h.dsigLength) + U32Bytes(h.dsigOffset)
    ensures DsigAt(data, p, h)
  {
    SubSlice(data, p, p + 12, 0, 4);
    SubSlice(data, p, p + 12, 4, 8);
    SubSlice(data, p, p + 12, 8, 12);
    ReadU32Encoded(data, p, h.dsigTag);
    ReadU32Encoded(data, p + 4, h.dsigLength);
    ReadU32Encoded(data, p + 8, h.dsigOffset);
  }

  /** An encoded TTC header splits into its fixed fields, its offsets and its DSIG fields. */
  lemma {:induction false} TTCHeaderSlices(data: seq<byte>, pos: nat, h: CollectionHeader)
    requires ValidCollectionHeader(h)
    requires pos + |EncodeTTCHeader(h)| <= |data|
    requires data[pos..pos + |EncodeTTCHeader(h)|] == EncodeTTCHeader(h)
    ensures data[pos..pos + 8] == U16Bytes(h.majorVersion) + U16Bytes(h.minorVersion) + U32Bytes(h.numFonts)
    ensures data[pos + 8..pos + 8 + 4 * h.numFonts] == EncodeOffsets(h.offsetTables)
    ensures h.majorVersion == 2 ==> var p := pos + 8 + 4 * h.numFonts;
      data[p..p + 12] == U32Bytes(h.dsigTag) + U32Bytes(h.dsigLength) + U32Bytes(h.dsigOffset)
  {
    var fixed := U16Bytes(h.majorVersion) + U16Bytes(h.minorVersion) + U32Bytes(h.numFonts);
    var offsets := EncodeOffsets(h.offsetTables);
    var dsig := if h.majorVersion == 2 then U32Bytes(h.dsigTag) + U32Bytes(h.dsigLength) + U32Bytes(h.dsigOffset) else [];
    assert EncodeTTCHeader(h) == fixed + offsets + dsig;
    assert |fixed| == 8 && |offsets| == 4 * h.numFonts;
    Pieces(data, pos, fixed, offsets, dsig);
  }

  /** Every field of `h` is found where the parser looks for it. */
  ghost predicate TTCFieldsAt(data: seq<byte>, pos: nat, h: CollectionHeader)
  {
    ValidCollectionHeader(h) &&
    pos + 8 + 4 * h.numFonts + (if h.majorVersion == 2 then 12 else 0) <= |data| &&
    U16At(data, pos) == h.majorVersion && U16At(data, pos + 2) == h.minorVersion &&
    U32At(data, pos + 4) == h.numFonts &&
    OffsetsAt(data, pos + 8, h.offsetTables) &&
    (h.majorVersion == 2 ==> DsigAt(data, pos + 8 + 4 * h.numFonts, h))
  }

  lemma {:induction false} TTCFieldsFromSlices(data: seq<byte>, pos: nat, h: CollectionHeader)
    requires ValidCollectionHeader(h)
    requires pos + 8 + 4 * h.numFonts + (if h.majorVersion == 2 then 12 else 0) <= |data|
    requires data[pos..pos + 8] == U16Bytes(h.majorVersion) + U16Bytes(h.minorVersion) + U32Bytes(h.numFonts)
    requires data[pos + 8..pos + 8 + 4 * h.numFonts] == EncodeOffsets(h.offsetTables)
    requires h.majorVersion == 2 ==> var p := pos + 8 + 4 * h.numFonts;
      data[p..p + 12] == U32Bytes(h.dsigTag) + U32Bytes(h.dsigLength) + U32Bytes(h.dsigOffset)
    ensures TTCFieldsAt(data, pos, h)
  {
    TTCFixedFieldsRoundTrip(data, pos, h);
    OffsetsRoundTrip(data, pos + 8, h.offsetTables);
    if h.majorVersion == 2 {
      DsigRoundTrip(data, pos + 8 + 4 * h.numFonts, h);
    }
  }

  /** A header whose fields are all found where the parser looks is what the parser returns. */
  lemma {:induction false} TTCHeaderFromFields(data: seq<byte>, pos: nat, h: CollectionHeader)
    requires TTCFieldsAt(data, pos, h)
    ensures ParseTTCHeader(data, pos) == Some((h, pos + 8 + 4 * h.numFonts + (if h.majorVersion == 2 then 12 else 0)))
  {
    var n := h.numFonts;
    var offsets := seq(n, i requires 0 <= i < n => I32At(data, pos + 8 + 4 * i));
    assert offsets == h.offsetTables;
  }

  /** Parsing an encoded TTC header gives it back and consumes exactly its bytes. */
  lemma {:induction false} TTCHeaderRoundTrip(data: seq<byte>, pos: nat, h: CollectionHeader)
    requires ValidCollectionHeader(h)
    requires pos + |EncodeTTCHeader(h)| <= |data|
    requires data[pos..pos + |EncodeTTCHeader(h)|] == EncodeTTCHeader(h)
    ensures ParseTTCHeader(data, pos) == Some((h, pos + |EncodeTTCHeader(h)|))
  {
    TTCHeaderSlices(data, pos, h);
    TTCFieldsFromSlices(data, pos, h);
    TTCHeaderFromFields(data, pos, h);
  }

  // ---------------------------------------------------------------------
  // Preview records and the collection display name
  // ---------------------------------------------------------------------

  /**
   * What a preview read yields: a member font's names, weight and the stream
   * offset it was read from, or, for a collection, its display name and members.
   */
  datatype PreviewFontInfo = PreviewFontInfo(
    name: string,
    subFamilyName: string,
    weight: nat,
    actualStreamOffset: int,
    ttcfMembers: Option<seq<PreviewFontInfo>>)

  /** The members' names, in member order. */
  function Names(members: seq<PreviewFontInfo>): seq<string>
  {
    seq(|members|, i requires 0 <= i < |members| => members[i].name)
  }

  /** The names with repeats dropped, each kept at its first occurrence. */
  function Distinct(names: seq<string>): (d: seq<string>)
    ensures |d| <= |names| && forall x :: x in d ==> x in names
    ensures names != [] ==> d != [] && d[0] == names[0]
  {
    if names == [] then []
    else
      var init := Distinct(names[..|names| - 1]);
      var last := names[|names| - 1];
      if last in init then init else init + [last]
  }

  /** The index of the first occurrence of `x`. */
  function FirstIndex(s: seq<string>, x: string): (k: nat)
    requires x in s
    ensures k < |s| && s[k] == x && forall j :: 0 <= j < k ==> s[j] != x
  {
    if s[0] == x then 0 else 1 + FirstIndex(s[1..], x)
  }

  lemma {:induction false} FirstIndexSnoc(s: seq<string>, x: string, y: string)
    requires y in s
    ensures FirstIndex(s + [x], y) == FirstIndex(s, y)
  {
    if s[0] != y {
      assert (s + [x])[1..] == s[1..] + [x];
      FirstIndexSnoc(s[1..], x, y);
    }
  }

  /** `Distinct` keeps every name exactly once, and nothing else. */
  lemma {:induction false} DistinctElements(names: seq<string>)
    ensures forall x :: x in Distinct(names) <==> x in names
    ensures forall i, j :: 0 <= i < j < |Distinct(names)| ==> Distinct(names)[i] != Distinct(names)[j]
  {
    if names != [] {
      var init := names[..|names| - 1];
      DistinctElements(init);
      assert names == init + [names[|names| - 1]];
    }
  }

  /** `Distinct` lists the names in order of their first occurrence. */
  lemma {:induction false} DistinctFirstOccurrenceOrder(names: seq<string>)
    ensures forall x :: x in Distinct(names) ==> x in names
    ensures forall i, j :: 0 <= i < j < |Distinct(names)| ==>
      FirstIndex(names, Distinct(names)[i]) < FirstIndex(names, Distinct(names)[j])
  {
    DistinctElements(names);
    if names != [] {
      var init := names[..|names| - 1];
      var last := names[|names| - 1];
      var d := Distinct(init);
      DistinctFirstOccurrenceOrder(init);
      DistinctElements(init);
      assert names == init + [last];
      forall x | x in d
        ensures FirstIndex(names, x) == FirstIndex(init, x)
      {
        FirstIndexSnoc(init, last, x);
      }
      if last !in d {
        assert last !in init;
        assert FirstIndex(names, last) == |init|;
      }
    }
  }

  /** A list without repeats is its own `Distinct`. */
  lemma {:induction false} DistinctOfDistinct(names: seq<string>)
    requires forall i, j :: 0 <= i < j < |names| ==> names[i] != names[j]
    ensures Distinct(names) == names
  {
    if names != [] {
      var init := names[..|names| - 1];
      DistinctOfDistinct(init);
      assert names[|names| - 1] !in init;
    }
  }

  /** Each name preceded by a comma. */
  function CommaJoined(names: seq<string>): string
  {
    if names == [] then [] else CommaJoined(names[..|names| - 1]) + "," + names[|names| - 1]
  }

  function Digit(d: nat): char
    requires d < 10
  {
    "0123456789"[d]
  }

  /** The decimal spelling of `n`, as `int.ToString()` gives it. */
  function DecimalString(n: nat): (s: string)
    ensures |s| > 0 && forall i :: 0 <= i < |s| ==> '0' <= s[i] <= '9'
    ensures |s| > 1 ==> s[0] != '0'
  {
    if n < 10 then [Digit(n)] else DecimalString(n / 10) + [Digit(n % 10)]
  }

  /** The number a string of decimal digits denotes. */
  function DecimalValue(s: string): nat
    requires forall i :: 0 <= i < |s| ==> '0' <= s[i] <= '9'
  {
    if s == [] then 0 else DecimalValue(s[..|s| - 1]) * 10 + (s[|s| - 1] - '0') as nat
  }

  /** The decimal spelling reads back as the number. */
  lemma {:induction false} DecimalRoundTrip(n: nat)
    ensures DecimalValue(DecimalString(n)) == n
  {
    if n >= 10 {
      DecimalRoundTrip(n / 10);
      var s := DecimalString(n);
      assert s[..|s| - 1] == DecimalString(n / 10);
    }
  }

  /** The display name of a collection: "TTCF: " and the member count, then "," and each distinct member name in order of first occurrence. */
  function TtcfName(members: seq<PreviewFontInfo>): (name: string)
    ensures |name| > 6 && name[..6] == "TTCF: "
  {
    "TTCF: " + DecimalString(|members|) + CommaJoined(Distinct(Names(members)))
  }

  lemma CommaJoinedSnoc(prefix: string, d: seq<string>, x: string)
    ensures prefix + CommaJoined(d + [x]) == prefix + CommaJoined(d) + ("," + x)
  {
    assert (d + [x])[..|d|] == d;
  }

  /** Builds the collection display name with a string builder and a set of names already seen. */
  method BuildTtcfName(members: seq<PreviewFontInfo>) returns (name: string)
    ensures name == TtcfName(members)
  {
    var names := Names(members);
    var builder := "TTCF: " + DecimalString(|members|);
    ghost var prefix := builder;
    var uniqueNames: map<string, bool> := map[];
    for i := 0 to |members|
      invariant forall x :: x in uniqueNames <==> x in names[..i]
      invariant builder == prefix + CommaJoined(Distinct(names[..i]))
    {
      var member := members[i];
      ghost var seen := names[..i];
      assert names[..i + 1] == seen + [member.name];
      DistinctElements(seen);
      if member.name !in uniqueNames {
        CommaJoinedSnoc(prefix, Distinct(seen), member.name);
        uniqueNames := uniqueNames[member.name := true];
        builder := builder + ("," + member.name);
      }
    }
    assert names[..|members|] == names;
    name := builder;
  }
}
