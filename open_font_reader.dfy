/**
 * The font reader's entry points: reading a whole font from a stream
 * (collections are refused, their members are read by offset), and the
 * preview read, which decodes only the naming and OS/2 tables of a font or
 * of every member of a collection.
 *
 * A stream is the byte sequence `data`, position 0 being where the reader
 * starts. Seeking past the end is allowed (the next read then fails); only
 * a seek to a negative position fails.
 */
module OpenFontReader {
  import opened Wrappers
  import opened BigEndian
  import opened KnownFontFiles
  import opened TableDirectory
  import opened TableRegistry
  import opened FontCollection
  import opened TypefaceAssembly

  // ---------------------------------------------------------------------
  // The table directory
  // ---------------------------------------------------------------------

  /**
   * The registry a directory fills: one unread slot per record. Two records
   * with the same tag are taken to leave the later one in the slot.
   */
  ghost function DirectoryAt<D>(data: seq<byte>, pos: nat): Option<map<Tag, Entry<D>>>
  {
    match ParseOffsetTable(data, pos)
    case None => None
    case Some((ot, _)) => Some(UnreadEntries<D>(ot.records))
  }

  /** Every slot of a freshly read directory is unread and filed under its own tag. */
  lemma DirectoryUnread<D>(data: seq<byte>, pos: nat)
    requires DirectoryAt<D>(data, pos).Some?
    ensures AllUnread(DirectoryAt<D>(data, pos).value) && WellKeyed(DirectoryAt<D>(data, pos).value)
  {
    UnreadEntriesShape<D>(ParseOffsetTable(data, pos).value.0.records);
  }

  /**
   * Reads the four count fields and then `tableCount` table records one by
   * one, filing each as an unread slot of a fresh registry. Fails, as the
   * stream does, when a field or record runs past the end.
   */
  method ReadTableDirectory<D>(data: seq<byte>, pos: nat) returns (r: Result<TableEntryCollection<D>, ReadError>)
    ensures r.Err? <==> ParseOffsetTable(data, pos).None?
    ensures r.Err? ==> r.error == Truncated
    ensures r.Ok? ==> fresh(r.value)
    ensures r.Ok? ==> r.value.requested == []
    ensures r.Ok? ==> r.value.entries == UnreadEntries<D>(ParseOffsetTable(data, pos).value.0.records)
  {
    var tableCount := ReadU16(data, pos);
    if tableCount.None? { return Err(Truncated); }
    var searchRange := ReadU16(data, pos + 2);
    if searchRange.None? { return Err(Truncated); }
    var entrySelector := ReadU16(data, pos + 4);
    if entrySelector.None? { return Err(Truncated); }
    var rangeShift := ReadU16(data, pos + 6);
    if rangeShift.None? { return Err(Truncated); }
    var n := tableCount.value.0;
    var cursor := pos + 8;
    var tables := new TableEntryCollection<D>();
    ghost var records: seq<TableHeader> := [];
    for i := 0 to n
      invariant cursor == pos + 8 + 16 * i && |records| == i
      invariant forall j :: 0 <= j < i ==> pos + 8 + 16 * j + 16 <= |data| && records[j] == TableHeaderAt(data, pos + 8 + 16 * j)
      invariant tables.entries == UnreadEntries<D>(records) && tables.requested == []
    {
      var header := ReadTableHeader(data, cursor);
      if header.None? {
        assert pos + 8 + 16 * n > |data|;
        return Err(Truncated);
      }
      var h := header.value.0;
      assert (records + [h])[..i] == records;
      records := records + [h];
      tables.AddEntry(h);
      cursor := header.value.1;
    }
    OffsetTableLayout(data, pos);
    assert records == ParseOffsetTable(data, pos).value.0.records;
    r := Ok(tables);
  }

  // ---------------------------------------------------------------------
  // Reading one font
  // ---------------------------------------------------------------------

  /**
   * Where reading starts: the requested offset when it is positive, else
   * where the stream already stands, which the model takes to be position 0.
   */
  function StartOf(streamStartOffset: int): nat
  {
    if streamStartOffset > 0 then streamStartOffset else 0
  }

  /** The stream at `s` begins with the collection tag. */
  predicate TtcfAt(data: seq<byte>, s: nat)
  {
    s + 4 <= |data| && IsTtcf(U16At(data, s), U16At(data, s + 2))
  }

  /**
   * Reads the font at `streamStartOffset`: its 4-byte version, then, unless
   * the version is the collection tag (a collection yields no typeface), its
   * directory, and assembles the typeface from it.
   */
  method Read<D>(data: seq<byte>, streamStartOffset: int, decode: Decoder<D>)
    returns (r: Result<Option<Typeface<D>>, ReadError>)
    ensures var s := StartOf(streamStartOffset);
      r == Ok(None) <==> TtcfAt(data, s)
    ensures var s := StartOf(streamStartOffset);
      r == Err(Truncated) <==> s + 4 > |data| || (!TtcfAt(data, s) && ParseOffsetTable(data, s + 4).None?)
    ensures var s := StartOf(streamStartOffset);
      r.Err? && r.error != Truncated ==>
        DirectoryAt<D>(data, s + 4).Some? && ErrorExplained(DirectoryAt<D>(data, s + 4).value, decode, r.error) &&
        AssemblyError(DirectoryAt<D>(data, s + 4).value, decode, r.error)
    ensures var s := StartOf(streamStartOffset);
      r.Ok? && r.value.Some? ==>
        DirectoryAt<D>(data, s + 4).Some? && Assembled(DirectoryAt<D>(data, s + 4).value, decode, r.value.value)
    ensures var s := StartOf(streamStartOffset);
      s + 4 <= |data| && !TtcfAt(data, s) && DirectoryAt<D>(data, s + 4).Some? &&
      AllDecode(DirectoryAt<D>(data, s + 4).value, decode) ==>
        (r.Err? <==> ExpectedError(DirectoryAt<D>(data, s + 4).value.Keys).Some?)
    ensures var s := StartOf(streamStartOffset);
      s + 4 <= |data| && !TtcfAt(data, s) && DirectoryAt<D>(data, s + 4).Some? ==>
        var m0 := DirectoryAt<D>(data, s + 4).value;
        (r.Err? <==> ExpectedError(m0.Keys).Some? || !DecodesAll(m0, decode, Plan(m0.Keys)))
  {
    var start := StartOf(streamStartOffset);
    var majorVersion := ReadU16(data, start);
    if majorVersion.None? { return Err(Truncated); }
    var minorVersion := ReadU16(data, start + 2);
    if minorVersion.None? { return Err(Truncated); }
    if IsTtcf(majorVersion.value.0, minorVersion.value.0) {
      return Ok(None);
    }
    var directory := ReadTableDirectory<D>(data, start + 4);
    if directory.Err? { return Err(directory.error); }
    var tables := directory.value;
    DirectoryUnread<D>(data, start + 4);
    var typeface := ReadTableEntryCollection(tables, decode);
    if typeface.Err? { return Err(typeface.error); }
    r := Ok(Some(typeface.value));
  }

  // ---------------------------------------------------------------------
  // Preview reads
  // ---------------------------------------------------------------------

  /** The errors a preview of one font's registry can end with. */
  const PREVIEW_ERRORS: set<ReadError> :=
    {DecodeFailed(NAME), DecodeFailed(OS2), AlreadyRead(NAME), AlreadyRead(OS2), MissingTable(NAME), MissingTable(OS2)}

  /** What a preview takes from the decoded naming and OS/2 tables. */
  datatype PreviewFields<!D> = PreviewFields(fontName: D -> string, subFamily: D -> string, weight: D -> nat)

  /**
   * The preview of one font's registry: 'name' is resolved, then 'OS/2';
   * a decoder failure ends the read at once, and after both requests a
   * missing 'name' and then a missing 'OS/2' is an error.
   */
  function PreviewInfoOf<D>(m0: map<Tag, Entry<D>>, decode: Decoder<D>, fields: PreviewFields<D>)
    : (r: Result<PreviewFontInfo, ReadError>)
    ensures r.Ok? ==> NAME in m0 && OS2 in m0 && m0[NAME].Unread? && m0[OS2].Unread? && r.value.ttcfMembers.None?
    ensures r.Err? ==> r.error in PREVIEW_ERRORS
  {
    var (name, m1) := Resolve(m0, NAME, decode);
    if name.Failed? then Err(name.error)
    else
      var (os2, _) := Resolve(m1, OS2, decode);
      if os2.Failed? then Err(os2.error)
      else if name.Absent? then Err(MissingTable(NAME))
      else if os2.Absent? then Err(MissingTable(OS2))
      else Ok(PreviewFontInfo(fields.fontName(name.table), fields.subFamily(name.table), fields.weight(os2.table), 0, None))
  }

  /** The error a preview of a fresh registry ends with, in the order the reader meets them. */
  function ExpectedPreviewError<D>(m0: map<Tag, Entry<D>>, decode: Decoder<D>): Option<ReadError>
  {
    if NAME in m0 && decode(m0[NAME].header).None? then Some(DecodeFailed(NAME))
    else if OS2 in m0 && decode(m0[OS2].header).None? then Some(DecodeFailed(OS2))
    else if NAME !in m0 then Some(MissingTable(NAME))
    else if OS2 !in m0 then Some(MissingTable(OS2))
    else None
  }

  /**
   * On a fresh registry the preview succeeds exactly when 'name' and 'OS/2'
   * are both present and decode, and then carries their names and weight;
   * otherwise it fails with the first error the reader meets.
   */
  lemma PreviewInfoOutcome<D>(m0: map<Tag, Entry<D>>, decode: Decoder<D>, fields: PreviewFields<D>)
    requires AllUnread(m0)
    ensures PreviewInfoOf(m0, decode, fields).Err? <==> ExpectedPreviewError(m0, decode).Some?
    ensures PreviewInfoOf(m0, decode, fields).Err? ==>
      PreviewInfoOf(m0, decode, fields).error == ExpectedPreviewError(m0, decode).value
    ensures PreviewInfoOf(m0, decode, fields).Ok? ==>
      var name := decode(m0[NAME].header).value;
      var os2 := decode(m0[OS2].header).value;
      PreviewInfoOf(m0, decode, fields).value ==
        PreviewFontInfo(fields.fontName(name), fields.subFamily(name), fields.weight(os2), 0, None)
  {
    if NAME in m0 && decode(m0[NAME].header).Some? {
      ResolveUnread(m0, NAME, decode);
    }
  }

  /** Resolves 'name' and then 'OS/2' on the registry and builds the preview from them. */
  method ReadPreviewFontInfo<D>(tables: TableEntryCollection<D>, decode: Decoder<D>, fields: PreviewFields<D>)
    returns (r: Result<PreviewFontInfo, ReadError>)
    modifies tables
    ensures r == PreviewInfoOf(old(tables.entries), decode, fields)
    ensures var (name, m1) := Resolve(old(tables.entries), NAME, decode);
      if name.Failed? then tables.entries == m1 && tables.requested == old(tables.requested) + [NAME]
      else tables.entries == Resolve(m1, OS2, decode).1 && tables.requested == old(tables.requested) + [NAME, OS2]
  {
    var name := tables.ReadTableIfExists(NAME, decode);
    if name.Failed? { return Err(name.error); }
    var os2 := tables.ReadTableIfExists(OS2, decode);
    if os2.Failed? { return Err(os2.error); }
    if name.Absent? { return Err(MissingTable(NAME)); }
    if os2.Absent? { return Err(MissingTable(OS2)); }
    r := Ok(PreviewFontInfo(fields.fontName(name.table), fields.subFamily(name.table), fields.weight(os2.table), 0, None));
  }

  /**
   * The preview of the font at `pos`: its 4-byte version unless it was
   * already consumed, then its directory, then 'name' and 'OS/2'.
   */
  function PreviewAt<D>(data: seq<byte>, pos: nat, skipVersionData: bool, decode: Decoder<D>, fields: PreviewFields<D>)
    : (r: Result<PreviewFontInfo, ReadError>)
    ensures r.Ok? ==> ParseOffsetTable(data, if skipVersionData then pos else pos + 4).Some? && r.value.ttcfMembers.None?
    ensures r.Err? ==> r.error == Truncated || r.error in PREVIEW_ERRORS
  {
    if !skipVersionData && pos + 4 > |data| then Err(Truncated)
    else
      var dirPos := if skipVersionData then pos else pos + 4;
      match ParseOffsetTable(data, dirPos)
      case None => Err(Truncated)
      case Some((ot, _)) => PreviewInfoOf(UnreadEntries<D>(ot.records), decode, fields)
  }

  /**
   * A font preview fails on a truncated directory; otherwise it is
   * the preview of the registry the directory fills.
   */
  lemma PreviewAtDirectory<D>(data: seq<byte>, pos: nat, skipVersionData: bool, decode: Decoder<D>,
                              fields: PreviewFields<D>)
    ensures var dirPos := if skipVersionData then pos else pos + 4;
      PreviewAt(data, pos, skipVersionData, decode, fields) ==
        if DirectoryAt<D>(data, dirPos).None? then Err(Truncated)
        else PreviewInfoOf(DirectoryAt<D>(data, dirPos).value, decode, fields)
    ensures var dirPos := if skipVersionData then pos else pos + 4;
      DirectoryAt<D>(data, dirPos).Some? ==> AllUnread(DirectoryAt<D>(data, dirPos).value)
  {
    var dirPos := if skipVersionData then pos else pos + 4;
    if DirectoryAt<D>(data, dirPos).Some? {
      DirectoryUnread<D>(data, dirPos);
    } else {
      OffsetTableFailure(data, dirPos);
    }
  }

  /** Reads the font at `pos` (its version first, unless already consumed) and previews it. */
  method ReadActualFontPreview<D>(data: seq<byte>, pos: nat, skipVersionData: bool, decode: Decoder<D>,
                                  fields: PreviewFields<D>)
    returns (r: Result<PreviewFontInfo, ReadError>)
    ensures r == PreviewAt(data, pos, skipVersionData, decode, fields)
  {
    var dirPos := pos;
    if !skipVersionData {
      var majorVersion := ReadU16(data, pos);
      if majorVersion.None? { return Err(Truncated); }
      var minorVersion := ReadU16(data, pos + 2);
      if minorVersion.None? { return Err(Truncated); }
      dirPos := pos + 4;
    }
    var directory := ReadTableDirectory<D>(data, dirPos);
    if directory.Err? { return Err(directory.error); }
    r := ReadPreviewFontInfo(directory.value, decode, fields);
  }

  /**
   * The previews of the members at `offsets`, read in order: a negative
   * offset cannot be sought and ends the read, as does the first member
   * that fails; each member records the offset it was read from.
   */
  function MemberPreviews<D>(data: seq<byte>, offsets: seq<int>, decode: Decoder<D>, fields: PreviewFields<D>)
    : (r: Result<seq<PreviewFontInfo>, ReadError>)
    ensures r.Ok? ==> |r.value| == |offsets|
  {
    if offsets == [] then Ok([])
    else
      match MemberPreviews(data, offsets[..|offsets| - 1], decode, fields)
      case Err(e) => Err(e)
      case Ok(members) =>
        var offset := offsets[|offsets| - 1];
        if offset < 0 then Err(NegativeSeek)
        else
          match PreviewAt(data, offset, false, decode, fields)
          case Err(e) => Err(e)
          case Ok(member) => Ok(members + [member.(actualStreamOffset := offset)])
  }

  /** Member `i`'s preview read from its own offset, remembering that offset. */
  predicate MemberReadAt<D>(data: seq<byte>, offsets: seq<int>, decode: Decoder<D>, fields: PreviewFields<D>,
                            members: seq<PreviewFontInfo>, i: nat)
    requires i < |offsets| && i < |members|
  {
    offsets[i] >= 0 && PreviewAt(data, offsets[i], false, decode, fields).Ok? &&
    members[i] == PreviewAt(data, offsets[i], false, decode, fields).value.(actualStreamOffset := offsets[i])
  }

  /** Member `i` cannot be read: its offset is negative or its preview fails. */
  predicate MemberFails<D>(data: seq<byte>, offsets: seq<int>, decode: Decoder<D>, fields: PreviewFields<D>, i: nat)
    requires i < |offsets|
  {
    offsets[i] < 0 || PreviewAt(data, offsets[i], false, decode, fields).Err?
  }

  /** The error member `i` fails with. */
  function MemberError<D>(data: seq<byte>, offsets: seq<int>, decode: Decoder<D>, fields: PreviewFields<D>, i: nat)
    : ReadError
    requires i < |offsets| && MemberFails(data, offsets, decode, fields, i)
  {
    if offsets[i] < 0 then NegativeSeek else PreviewAt(data, offsets[i], false, decode, fields).error
  }

  /** When the member previews succeed, member `i` is the preview read at offset `i`. */
  lemma {:induction false} MemberPreviewsRead<D>(data: seq<byte>, offsets: seq<int>, decode: Decoder<D>,
                                                 fields: PreviewFields<D>)
    requires MemberPreviews(data, offsets, decode, fields).Ok?
    ensures forall i :: 0 <= i < |offsets| ==>
      MemberReadAt(data, offsets, decode, fields, MemberPreviews(data, offsets, decode, fields).value, i)
  {
    if offsets != [] {
      var init := offsets[..|offsets| - 1];
      MemberPreviewsRead(data, init, decode, fields);
      var prior := MemberPreviews(data, init, decode, fields).value;
      var members := MemberPreviews(data, offsets, decode, fields).value;
      forall i | 0 <= i < |offsets| - 1
        ensures MemberReadAt(data, offsets, decode, fields, members, i)
      {
        assert MemberReadAt(data, init, decode, fields, prior, i);
      }
    }
  }

  /**
   * When the member previews fail, the error is that of the first member
   * that cannot be read.
   */
  lemma {:induction false} MemberPreviewsFirstFailure<D>(data: seq<byte>, offsets: seq<int>, decode: Decoder<D>,
                                                         fields: PreviewFields<D>)
    requires MemberPreviews(data, offsets, decode, fields).Err?
    ensures exists k :: (0 <= k < |offsets| && MemberFails(data, offsets, decode, fields, k) &&
      MemberPreviews(data, offsets, decode, fields).error == MemberError(data, offsets, decode, fields, k) &&
      forall i :: 0 <= i < k ==> !MemberFails(data, offsets, decode, fields, i))
  {
    var init := offsets[..|offsets| - 1];
    var last := |offsets| - 1;
    var prior := MemberPreviews(data, init, decode, fields);
    if prior.Ok? {
      MemberPreviewsRead(data, init, decode, fields);
      forall i | 0 <= i < last
        ensures !MemberFails(data, offsets, decode, fields, i)
      {
        assert MemberReadAt(data, init, decode, fields, prior.value, i);
      }
      assert MemberPreviews(data, offsets, decode, fields).error == MemberError(data, offsets, decode, fields, last);
    } else {
      MemberPreviewsFirstFailure(data, init, decode, fields);
      var k :| 0 <= k < |init| && MemberFails(data, init, decode, fields, k) &&
        prior.error == MemberError(data, init, decode, fields, k) &&
        forall i :: 0 <= i < k ==> !MemberFails(data, init, decode, fields, i);
      assert offsets[k] == init[k];
      assert MemberFails(data, offsets, decode, fields, k);
      forall i | 0 <= i < k
        ensures !MemberFails(data, offsets, decode, fields, i)
      {
        assert offsets[i] == init[i];
        assert !MemberFails(data, init, decode, fields, i);
      }
    }
  }

  /** Once a prefix of the members fails, the whole read fails with the same error. */
  lemma {:induction false} MemberPreviewsPrefixError<D>(data: seq<byte>, offsets: seq<int>, k: nat,
                                                        decode: Decoder<D>, fields: PreviewFields<D>)
    requires k <= |offsets| && MemberPreviews(data, offsets[..k], decode, fields).Err?
    ensures MemberPreviews(data, offsets, decode, fields) == MemberPreviews(data, offsets[..k], decode, fields)
  {
    if k < |offsets| {
      var init := offsets[..|offsets| - 1];
      assert init[..k] == offsets[..k];
      MemberPreviewsPrefixError(data, init, k, decode, fields);
    } else {
      assert offsets[..k] == offsets;
    }
  }

  /**
   * The preview of a whole stream: for a collection, the previews of its
   * members, named after them; for a single font, that font's preview read
   * right after its version.
   */
  function Preview<D>(data: seq<byte>, decode: Decoder<D>, fields: PreviewFields<D>): (r: Result<PreviewFontInfo, ReadError>)
    ensures r.Ok? ==> |data| >= 4 && (r.value.ttcfMembers.Some? <==> TtcfAt(data, 0))
  {
    if |data| < 4 then Err(Truncated)
    else if IsTtcf(U16At(data, 0), U16At(data, 2)) then
      match ParseTTCHeader(data, 4)
      case None => Err(Truncated)
      case Some((header, _)) =>
        match MemberPreviews(data, header.offsetTables, decode, fields)
        case Err(e) => Err(e)
        case Ok(members) => Ok(PreviewFontInfo(TtcfName(members), "", 0, 0, Some(members)))
    else PreviewAt(data, 4, true, decode, fields)
  }

  /**
   * A collection preview lists one member per font of the collection, each
   * read at its offset, and is named "TTCF: " with the member count and
   * the distinct member names.
   */
  lemma PreviewOfCollection<D>(data: seq<byte>, decode: Decoder<D>, fields: PreviewFields<D>)
    requires TtcfAt(data, 0) && ParseTTCHeader(data, 4).Some?
    requires Preview(data, decode, fields).Ok?
    ensures var header := ParseTTCHeader(data, 4).value.0;
      var p := Preview(data, decode, fields).value;
      p.ttcfMembers.Some? && |p.ttcfMembers.value| == header.numFonts &&
      p.name == TtcfName(p.ttcfMembers.value) && p.subFamilyName == [] &&
      forall i :: 0 <= i < header.numFonts ==>
        MemberReadAt(data, header.offsetTables, decode, fields, p.ttcfMembers.value, i)
  {
    var header := ParseTTCHeader(data, 4).value.0;
    TTCHeaderLayout(data, 4);
    MemberPreviewsRead(data, header.offsetTables, decode, fields);
  }

  /** A single font's preview is the preview of its own registry, and never names members. */
  lemma PreviewOfSingleFont<D>(data: seq<byte>, decode: Decoder<D>, fields: PreviewFields<D>)
    requires 4 <= |data| && !TtcfAt(data, 0)
    ensures Preview(data, decode, fields) ==
      if DirectoryAt<D>(data, 4).None? then Err(Truncated) else PreviewInfoOf(DirectoryAt<D>(data, 4).value, decode, fields)
    ensures Preview(data, decode, fields).Ok? ==> Preview(data, decode, fields).value.ttcfMembers.None?
  {
    PreviewAtDirectory(data, 4, true, decode, fields);
  }

  /** One more member read: the outcome of the first `i + 1` members from that of the first `i`. */
  lemma MemberPreviewsStep<D>(data: seq<byte>, offsets: seq<int>, i: nat, decode: Decoder<D>, fields: PreviewFields<D>,
                              members: seq<PreviewFontInfo>)
    requires i < |offsets| && MemberPreviews(data, offsets[..i], decode, fields) == Ok(members)
    ensures offsets[i] < 0 ==> MemberPreviews(data, offsets[..i + 1], decode, fields) == Err(NegativeSeek)
    ensures offsets[i] >= 0 && PreviewAt(data, offsets[i], false, decode, fields).Err? ==>
      MemberPreviews(data, offsets[..i + 1], decode, fields) == Err(PreviewAt(data, offsets[i], false, decode, fields).error)
    ensures offsets[i] >= 0 && PreviewAt(data, offsets[i], false, decode, fields).Ok? ==>
      MemberPreviews(data, offsets[..i + 1], decode, fields) ==
        Ok(members + [PreviewAt(data, offsets[i], false, decode, fields).value.(actualStreamOffset := offsets[i])])
  {
    assert offsets[..i + 1][..i] == offsets[..i];
  }

  /**
   * Seeks to each member's offset in turn, previews the font there and
   * stores it, with the offset it was read from, in an array of members.
   */
  method ReadMembers<D>(data: seq<byte>, offsets: seq<int>, decode: Decoder<D>, fields: PreviewFields<D>)
    returns (r: Result<seq<PreviewFontInfo>, ReadError>)
    ensures r == MemberPreviews(data, offsets, decode, fields)
  {
    var members := new PreviewFontInfo[|offsets|](_ => PreviewFontInfo([], [], 0, 0, None));
    for i := 0 to |offsets|
      invariant MemberPreviews(data, offsets[..i], decode, fields) == Ok(members[..i])
    {
      MemberPreviewsStep(data, offsets, i, decode, fields, members[..i]);
      var offset := offsets[i];
      if offset < 0 {
        MemberPreviewsPrefixError(data, offsets, i + 1, decode, fields);
        return Err(NegativeSeek);
      }
      var member := ReadActualFontPreview(data, offset, false, decode, fields);
      if member.Err? {
        MemberPreviewsPrefixError(data, offsets, i + 1, decode, fields);
        return Err(member.error);
      }
      members[i] := member.value.(actualStreamOffset := offset);
      assert members[..i + 1] == members[..i] + [members[i]];
    }
    assert offsets[..|offsets|] == offsets;
    assert members[..] == members[..|offsets|];
    r := Ok(members[..]);
  }

  /**
   * Reads the stream's first four bytes; for a collection, reads its header
   * and previews every member at its offset into an array, then names the
   * collection; otherwise previews the single font.
   */
  method ReadPreview<D>(data: seq<byte>, decode: Decoder<D>, fields: PreviewFields<D>)
    returns (r: Result<PreviewFontInfo, ReadError>)
    ensures r == Preview(data, decode, fields)
  {
    var majorVersion := ReadU16(data, 0);
    if majorVersion.None? { return Err(Truncated); }
    var minorVersion := ReadU16(data, 2);
    if minorVersion.None? { return Err(Truncated); }
    if !IsTtcf(majorVersion.value.0, minorVersion.value.0) {
      r := ReadActualFontPreview(data, 4, true, decode, fields);
      return;
    }
    var ttcHeader := ReadTTCHeader(data, 4);
    if ttcHeader.None? { return Err(Truncated); }
    var header := ttcHeader.value.0;
    TTCHeaderLayout(data, 4);
    var members := ReadMembers(data, header.offsetTables, decode, fields);
    if members.Err? { return Err(members.error); }
    var name := BuildTtcfName(members.value);
    r := Ok(PreviewFontInfo(name, "", 0, 0, Some(members.value)));
  }
}
