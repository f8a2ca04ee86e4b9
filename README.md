# Typography OpenFont reader front end, modelled in Dafny

This project models the part of the Typography OpenFont reader that runs before any single table is decoded. That part covers:

- sniffing a font stream's container: a TrueType collection (`ttcf`), WOFF, WOFF2 or a bare SFNT font;
- parsing the collection header and the offset table, the table directory with its 16-byte table records;
- the table registry (`TableEntryCollection` with `ReadTableIfExists`), which decodes each table at most once;
- the order in which `ReadTableEntryCollection` requests tables, its conditional requests, and its outline choice ('glyf' over 'CFF ', with no outline being an error);
- the preview read of a font or of every member of a collection, and the collection name `BuildTtcfName` builds;
- the COLR (colour layer, version 0) table decoder, which fills two parallel arrays and two dictionaries keyed by glyph id.

Bytes are `seq<byte>` and are read big-endian by pure functions with an explicit cursor. A read past the end fails.

A stream is a byte sequence with the reader starting at position 0. Seeking past the end is allowed, and the next read then fails. Seeking to a negative position fails.

Per-table decoders are abstract: a `Decoder<D>` maps a table header to `Some(table)`, or to `None` when the decoder throws. The preview's name, sub-family and weight extraction are abstract functions of the decoded tables.

Errors the program raises as exceptions are `Err` values of `ReadError`:

- a truncated stream;
- a negative seek;
- a decoder failure;
- a table decoded twice;
- a `NullReferenceException` on a missing table another step dereferences;
- `NotSupportedException` for a font without outlines.

Stateful code keeps its own form:

- the registry is a class with a `map` field, and `ReadTableIfExists` a method that modifies it;
- `ReadTTCHeader`, the directory loops, `BuildTtcfName`, the collection preview loop and `COLR.ReadContentFrom` are loops proved against closed-form specification functions;
- the COLR object holds `array` and `map` fields.

Three parsers have an encoder as their partner, with round-trip lemmas: the table record, the offset table and the collection header. The COLR parser has none; its partners are the layout lemma, the dictionary lemmas and a concrete decoded sample.

Two facts about the code shape the model:

- The collection tag test compares the two u16 values with 0x7474 and 0x6366, the ASCII bytes "ttcf".
- Member directories are not checked for overlapping or out-of-bounds table ranges, because the reader performs no such check.

A typeface read fails with exactly one error, fixed by the font: the first decoder failure in request order when every earlier dereference and the outline check pass, or else the first failing dereference or outline check when every earlier request decodes.

## Model

| member | source | states |
|---|---|---|
| KnownFontFiles.IsTtcf | Typography.OpenFont/OpenFontReader.cs:68-76 | holds exactly when the two u16 values are 0x7474 and 0x6366 |
| KnownFontFiles.IsWoff | Typography.OpenFont/OpenFontReader.cs:77-83 | holds exactly when the two u16 values are 0x774F and 0x4646 ("wOFF") |
| KnownFontFiles.IsWoff2 | Typography.OpenFont/OpenFontReader.cs:84-90 | holds exactly when the two u16 values are 0x774F and 0x4632 ("wOF2") |
| KnownFontFiles.SignaturesExclusive | Typography.OpenFont/OpenFontReader.cs:68-90 | no two of the three container signatures hold at once |
| KnownFontFiles.TtcfMagicBytes | Typography.OpenFont/OpenFontReader.cs:68-76 | the test on the first two big-endian u16 values holds exactly when the first four bytes are ASCII "ttcf" |
| BigEndian.ReadU16 | Typography.OpenFont/OpenFontReader.cs:143-144 | a u16 read succeeds exactly when two bytes remain; it yields a u16 and advances the cursor by 2 |
| BigEndian.ReadU32 | Typography.OpenFont/OpenFontReader.cs:191 | a u32 read succeeds exactly when four bytes remain; it yields a u32 and advances the cursor by 4 |
| BigEndian.ReadI32 | Typography.OpenFont/OpenFontReader.cs:195 | an i32 read succeeds exactly when four bytes remain; it yields a value in the signed 32-bit range and advances the cursor by 4 |
| BigEndian.I32At | Typography.OpenFont/OpenFontReader.cs:195 | the two's-complement value is in range and is non-negative exactly when the unsigned value is below 2^31 |
| BigEndian.ReadU16Encoded | Typography.OpenFont/OpenFontReader.cs:143-144 | reading back the big-endian encoding of a u16 gives that value |
| BigEndian.ReadU32Encoded | Typography.OpenFont/OpenFontReader.cs:191 | reading back the big-endian encoding of a u32 gives that value |
| BigEndian.ReadI32Encoded | Typography.OpenFont/OpenFontReader.cs:195 | reading back the two's-complement encoding of an i32 gives that value |
| BigEndian.U16BytesOfRead | Typography.OpenFont/OpenFontReader.cs:143-144 | encoding the u16 read at a position gives back the two bytes there |
| BigEndian.U32BytesOfRead | Typography.OpenFont/OpenFontReader.cs:191 | encoding the u32 read at a position gives back the four bytes there |
| BigEndian.I32BytesOfRead | Typography.OpenFont/OpenFontReader.cs:195 | encoding the i32 read at a position gives back the four bytes there |
| TableDirectory.ReadTableHeader | Typography.OpenFont/OpenFontReader.cs:439-446 | a table record read succeeds exactly when 16 bytes remain; it yields a valid header (tag, checksum, offset, length as u32 values) and advances the cursor by 16 |
| TableDirectory.TableHeaderRoundTrip | Typography.OpenFont/OpenFontReader.cs:439-446 | reading an encoded table record gives back the record and the position after its 16 bytes |
| TableDirectory.ParseOffsetTable | Typography.OpenFont/OpenFontReader.cs:223-232 | a parsed directory is valid (u16 counts, `tableCount` valid records) and ends 8 + 16·tableCount bytes after its start, inside the stream |
| TableDirectory.OffsetTableLayout | Typography.OpenFont/OpenFontReader.cs:223-232 | a parsed directory has `tableCount` records, the i-th read at 8 + 16·i after the count fields, and ends exactly after the last record |
| TableDirectory.OffsetTableFailure | Typography.OpenFont/OpenFontReader.cs:223-232 | the directory parse fails exactly when the stream ends before the eight count bytes or before `tableCount` records |
| TableDirectory.RecordsRoundTrip | Typography.OpenFont/OpenFontReader.cs:229-232 | each encoded record reads back at its own 16-byte slot |
| TableDirectory.FixedFieldsRoundTrip | Typography.OpenFont/OpenFontReader.cs:223-226 | the four encoded count fields read back as themselves |
| TableDirectory.OffsetTableFieldsRoundTrip | Typography.OpenFont/OpenFontReader.cs:223-232 | every field and record of an encoded directory reads back at its place |
| TableDirectory.OffsetTableFromFields | Typography.OpenFont/OpenFontReader.cs:223-232 | a directory whose fields and records read back parses to itself and ends after its last record |
| TableDirectory.OffsetTableRoundTrip | Typography.OpenFont/OpenFontReader.cs:223-232 | parsing an encoded directory gives back the directory and the position after its last record |
| TableRegistry.Resolve | Typography.OpenFont/OpenFontReader.cs:451-481 | a request keeps the registry's tags and every other tag's entry, resolves a table exactly when its entry is unread and decodes, and leaves the registry unchanged when it fails |
| TableRegistry.UnreadEntries | Typography.OpenFont/OpenFontReader.cs:228-232 | every entry of the registry built from a directory is unread and filed under its own record's tag |
| TableRegistry.ResolveAbsent | Typography.OpenFont/OpenFontReader.cs:451-481 | requesting a tag the directory lacks answers "absent" and leaves the registry unchanged |
| TableRegistry.ResolveUnread | Typography.OpenFont/OpenFontReader.cs:451-471 | requesting an unread tag decodes it from its own header and replaces only that tag's entry with the decoded table |
| TableRegistry.ResolveFailureKeepsState | Typography.OpenFont/OpenFontReader.cs:462-477 | a failed request never changes the registry |
| TableRegistry.ResolveTwiceFails | Typography.OpenFont/OpenFontReader.cs:473-478 | requesting a tag a second time after it was decoded fails as already read, whatever decoder is used |
| TableRegistry.UnreadEntriesShape | Typography.OpenFont/OpenFontReader.cs:228-232 | the registry built from a directory holds only unread entries, each filed under its own tag, with exactly the directory's tags as keys |
| TableRegistry.UnreadEntriesDistinct | Typography.OpenFont/OpenFontReader.cs:228-232 | when the directory's tags are distinct, the registry has one entry per record, each holding that record's header |
| TableRegistry.UnreadEntriesLastWins | Typography.OpenFont/OpenFontReader.cs:228-232 | a record whose tag no later record repeats is found, unread, under its tag |
| TableRegistry.TableEntryCollection.constructor | Typography.OpenFont/OpenFontReader.cs:228 | a new registry is empty and has served no request |
| TableRegistry.TableEntryCollection.AddEntry | Typography.OpenFont/OpenFontReader.cs:231 | adds an unread entry for the record's tag and changes nothing else |
| TableRegistry.TableEntryCollection.ReadTableIfExists | Typography.OpenFont/OpenFontReader.cs:447-482 | answers and updates the registry exactly as the three-case resolution does (absent, decode and replace, already read), and logs the request |
| TableRegistry.ResolveTwice | Typography.OpenFont/OpenFontReader.cs:473-478 | two requests for one tag: after a decoded first answer the second fails as already read, after an absent first answer both are absent and nothing changes |
| FontCollection.ParseTTCHeader | Typography.OpenFont/OpenFontReader.cs:187-213 | a parsed header is valid (u16 versions, u32 count, `numFonts` i32 offsets, DSIG fields zero unless the major version is 2) and ends inside the stream |
| FontCollection.ReadTTCHeader | Typography.OpenFont/OpenFontReader.cs:165-214 | the loop that fills the offset array reads the same header as the closed-form parse, or fails exactly when it does |
| FontCollection.TTCHeaderLayout | Typography.OpenFont/OpenFontReader.cs:187-213 | a parsed header has `numFonts` offsets, the i-th being the i32 at 8 + 4·i, and consumes 8 + 4·numFonts bytes, plus 12 for the DSIG fields exactly when the major version is 2 |
| FontCollection.EncodeTTCHeader | Typography.OpenFont/OpenFontReader.cs:187-213 | an encoded header is 8 + 4·numFonts bytes long, plus 12 for version 2 |
| FontCollection.OffsetsRoundTrip | Typography.OpenFont/OpenFontReader.cs:193-196 | each encoded member offset reads back as an i32 at its slot |
| FontCollection.TTCFixedFieldsRoundTrip | Typography.OpenFont/OpenFontReader.cs:189-191 | the encoded version and font count read back as themselves |
| FontCollection.DsigRoundTrip | Typography.OpenFont/OpenFontReader.cs:201-206 | the encoded DSIG tag, length and offset read back as themselves |
| FontCollection.TTCHeaderSlices | Typography.OpenFont/OpenFontReader.cs:187-213 | an encoded header splits into its fixed fields, its offsets and, for version 2, its DSIG fields |
| FontCollection.TTCFieldsFromSlices | Typography.OpenFont/OpenFontReader.cs:187-213 | each slice of an encoded header reads back as the field it encodes |
| FontCollection.TTCHeaderFromFields | Typography.OpenFont/OpenFontReader.cs:187-213 | a header whose fields read back parses to itself and ends after its last field |
| FontCollection.TTCHeaderRoundTrip | Typography.OpenFont/OpenFontReader.cs:187-213 | parsing an encoded valid header (version 1 or 2) gives back the header and the position after it |
| FontCollection.Distinct | Typography.OpenFont/OpenFontReader.cs:119-127 | de-duplicating never lengthens the names, keeps only names that occur, and keeps the first name first |
| FontCollection.FirstIndex | Typography.OpenFont/OpenFontReader.cs:121-127 | the first position where a name occurs |
| FontCollection.DistinctElements | Typography.OpenFont/OpenFontReader.cs:119-127 | the de-duplicated names are exactly the names that occur, and none repeats |
| FontCollection.DistinctFirstOccurrenceOrder | Typography.OpenFont/OpenFontReader.cs:119-127 | the de-duplicated names appear in the order of their first occurrence |
| FontCollection.DistinctOfDistinct | Typography.OpenFont/OpenFontReader.cs:119-127 | names that are already distinct are kept as they are |
| FontCollection.DecimalString | Typography.OpenFont/OpenFontReader.cs:118 | the member count is written with decimal digits and no leading zero |
| FontCollection.DecimalRoundTrip | Typography.OpenFont/OpenFontReader.cs:118 | the written count reads back as the count |
| FontCollection.TtcfName | Typography.OpenFont/OpenFontReader.cs:112-130 | a collection name starts with "TTCF: " followed by at least one more character |
| FontCollection.BuildTtcfName | Typography.OpenFont/OpenFontReader.cs:112-130 | the loop over the members with its dictionary of seen names builds "TTCF: " + the member count + "," + each distinct name in the order of first occurrence |
| Colr.ColrLayout | Typography.OpenFont/Tables.AdvancedLayout/COLR.cs:19-41 | a decoded table has a 14-byte header whose version, base glyph count, base glyph offset, layer offset and layer count are the u16, u16, u32, u32 and u16 at table offsets 0, 2, 4, 8 and 12; it has as many base glyph and layer records as the two counts say, base glyph record i read at tableStart + glyphsOffset + 6·i and layer record j at tableStart + layersOffset + 4·j |
| Colr.ParseColr | Typography.OpenFont/Tables.AdvancedLayout/COLR.cs:17-43 | a decoded table lies past a full 14-byte header and holds as many base glyph and layer records as its header counts |
| Colr.LayerIndexMap | Typography.OpenFont/Tables.AdvancedLayout/COLR.cs:30-35 | the first-layer dictionary has keys only among the base glyph records' glyph ids |
| Colr.LayerCountMap | Typography.OpenFont/Tables.AdvancedLayout/COLR.cs:30-35 | the layer-count dictionary has keys only among the base glyph records' glyph ids |
| Colr.GlyphIdsSnoc | Typography.OpenFont/Tables.AdvancedLayout/COLR.cs:29-35 | one more base glyph record adds exactly its glyph id |
| Colr.ColorLayers | Typography.OpenFont/Tables.AdvancedLayout/COLR.cs:30-42 | a glyph has layers only when it has a base glyph record, and its layers are layer records of the table |
| Colr.LayerMapKeys | Typography.OpenFont/Tables.AdvancedLayout/COLR.cs:30-35 | both dictionaries have as keys exactly the glyph ids of the base glyph records, and at most as many keys as records |
| Colr.LayerMapsLastRecordWins | Typography.OpenFont/Tables.AdvancedLayout/COLR.cs:30-35 | the last record for a glyph id sets its first layer index and layer count |
| Colr.SampleParses | Typography.OpenFont/Tables.AdvancedLayout/COLR.cs:17-43 | a concrete two-glyph, three-layer table decodes to its intended records |
| Colr.SampleDecodes | Typography.OpenFont/Tables.AdvancedLayout/COLR.cs:30-42 | in that table, glyph 5 is drawn with layers 0-1, glyph 9 with layer 2, and any other glyph has no layers |
| Colr.UncheckedLayerRun | Typography.OpenFont/Tables.AdvancedLayout/COLR.cs:30-35 | the decoder accepts a table whose layer run ends past the layer array, so in-range runs are a separate, possibly violated predicate |
| Colr.COLR.ReadContentFrom | Typography.OpenFont/Tables.AdvancedLayout/COLR.cs:17-43 | succeeds exactly when the closed-form decode does; then the two fresh arrays have `layersCount` slots holding the layer records' glyph and palette ids, and the dictionaries gain one entry per base glyph id (the last record winning) |
| Colr.COLR.ReadBaseGlyphRecords | Typography.OpenFont/Tables.AdvancedLayout/COLR.cs:29-35 | the dictionary loop succeeds exactly when the records fit and adds the record maps to both dictionaries |
| Colr.ReadLayerRecords | Typography.OpenFont/Tables.AdvancedLayout/COLR.cs:37-42 | the array loop succeeds exactly when the records fit, and then slot j of each array holds layer record j's fields |
| TypefaceAssembly.PlanDistinct | Typography.OpenFont/OpenFontReader.cs:287-436 | no tag is requested twice in one assembly, so the already-read error cannot arise there |
| TypefaceAssembly.PlanLayout | Typography.OpenFont/OpenFontReader.cs:287-436 | where each phase of the request order starts and ends |
| TypefaceAssembly.PlanRespectsDependencies | Typography.OpenFont/OpenFontReader.cs:293-326 | 'hmtx' is requested after 'hhea' and 'maxp', 'loca' after 'maxp' and 'head', 'glyf' after 'loca', and 'vmtx' after 'vhea' |
| TypefaceAssembly.PlanVerticalMetrics | Typography.OpenFont/OpenFontReader.cs:322-326 | 'vmtx' is requested exactly when 'vhea' is present |
| TypefaceAssembly.PlanHinting | Typography.OpenFont/OpenFontReader.cs:379-397 | 'fpgm', 'cvt ' and 'prep' are requested exactly when 'glyf' is present, that is for TrueType outlines |
| TypefaceAssembly.Plan | Typography.OpenFont/OpenFontReader.cs:290-412 | every table the typeface keeps unconditionally, 'loca', 'glyf' and 'CFF ' are requested |
| TypefaceAssembly.ExpectedError | Typography.OpenFont/OpenFontReader.cs:296-345 | no check fails exactly when 'hhea', 'maxp', 'head' and an outline table are present; a failing check reports a missing 'hhea', 'maxp' or 'head' that is absent, or no outline when both outline tables are |
| TypefaceAssembly.Assembled | Typography.OpenFont/OpenFontReader.cs:336-376 | an assembled typeface holds only tables of the directory, and the font has an outline table |
| TypefaceAssembly.FailureBeforeDecoded | Typography.OpenFont/OpenFontReader.cs:290-417 | no decoder failure comes before a prefix of the plan whose present tables all decode |
| TypefaceAssembly.FirstFailureUnique | Typography.OpenFont/OpenFontReader.cs:290-417 | the first decoder failure of a plan is unique |
| TypefaceAssembly.FailureBeforeCheck | Typography.OpenFont/OpenFontReader.cs:290-345 | a decoder failure met with every earlier check passing excludes a failing check met with every earlier request decoding |
| TypefaceAssembly.AssemblyErrorDetermined | Typography.OpenFont/OpenFontReader.cs:287-436 | at most one error is the assembly's error: the outcome of a failing read is determined by the font |
| TypefaceAssembly.FailureIsAssemblyError | Typography.OpenFont/OpenFontReader.cs:290-417 | a first decoder failure met with every earlier check passing is the assembly's error |
| TypefaceAssembly.RequiredErrorIsAssemblyError | Typography.OpenFont/OpenFontReader.cs:290-306 | an error of the first three phases is the assembly's error and has its cause |
| TypefaceAssembly.ClosingErrorIsAssemblyError | Typography.OpenFont/OpenFontReader.cs:336-417 | an error of the outline choice or of the closing requests is the assembly's error and has its cause |
| TypefaceAssembly.AssemblyErrorCause | Typography.OpenFont/OpenFontReader.cs:287-436 | the assembly's error has its cause, and it arises only when a check fails or a present table of the plan does not decode |
| TypefaceAssembly.NotInCorePlan | Typography.OpenFont/OpenFontReader.cs:290-318 | a tag outside the unconditional phases is not requested by them |
| TypefaceAssembly.NotInFrontPlan | Typography.OpenFont/OpenFontReader.cs:290-332 | a tag outside the unconditional and auxiliary phases is requested by neither |
| TypefaceAssembly.CorePlanDistinct | Typography.OpenFont/OpenFontReader.cs:290-318 | the unconditional requests are all different |
| TypefaceAssembly.ExtraPlanDistinct | Typography.OpenFont/OpenFontReader.cs:290-332 | adding the auxiliary requests keeps them all different |
| TypefaceAssembly.AttachDecoded | Typography.OpenFont/OpenFontReader.cs:369-419 | attaching one agreed answer extends the decoded tables by that tag |
| TypefaceAssembly.Request | Typography.OpenFont/OpenFontReader.cs:290-332 | one registry request of the plan: it fails only when the decoder rejects a present table, and that failure is the first in plan order; otherwise its answer agrees with the directory, the registry is the directory with the tables requested so far decoded, and every present table requested so far decoded |
| TypefaceAssembly.ReadHeaderTables | Typography.OpenFont/OpenFontReader.cs:290-295 | 'OS/2', 'name', 'head', 'maxp' and 'hhea' are requested in that order; only a decoder can fail, and its error is the plan's first decoder failure, among these five requests |
| TypefaceAssembly.ReadMetricTables | Typography.OpenFont/OpenFontReader.cs:296-303 | a missing 'hhea' and then a missing 'maxp' fail the read before 'hmtx'; then 'hmtx', 'post', 'CFF ' and 'cmap' are requested; an error is either that missing table or the plan's first decoder failure among these four requests |
| TypefaceAssembly.ReadGlyphTables | Typography.OpenFont/OpenFontReader.cs:304-306 | a missing 'head' fails the read before 'loca'; then 'loca' and 'glyf' are requested; an error is either the missing 'head' or the plan's first decoder failure among these two requests |
| TypefaceAssembly.ReadLayoutTables | Typography.OpenFont/OpenFontReader.cs:308-318 | 'gasp', 'VDMX', 'kern', 'GDEF', 'GSUB' and 'GPOS' are requested in that order; only a decoder can fail, and its error is the plan's first decoder failure, among these six requests |
| TypefaceAssembly.ReadExtraTables | Typography.OpenFont/OpenFontReader.cs:319-332 | 'BASE', 'COLR', 'CPAL' and 'vhea' are requested, then 'vmtx' only when 'vhea' was found, then 'MATH' and 'EBLC'; an error is the plan's first decoder failure, among these requests |
| TypefaceAssembly.ReadHintingTables | Typography.OpenFont/OpenFontReader.cs:379-397 | 'fpgm', 'cvt ' and 'prep' are requested for a TrueType outline; only a decoder can fail, and its error is the plan's first decoder failure, among these three requests |
| TypefaceAssembly.ReadClosingTables | Typography.OpenFont/OpenFontReader.cs:379-417 | requests 'fpgm', 'cvt ' and 'prep' only for a TrueType outline, then 'SVG ', which ends the plan; on success the whole plan was requested, every present table of it decoded, and the answers agree with the directory; an error is the plan's first decoder failure among these requests |
| TypefaceAssembly.BasicTablesDecoded | Typography.OpenFont/OpenFontReader.cs:350-376 | the tables handed over with the typeface and right after it are exactly the decoded ones among 'name', 'head', 'hmtx', 'OS/2', 'cmap', 'kern', 'gasp', 'maxp' and 'hhea' |
| TypefaceAssembly.HintedTablesDecoded | Typography.OpenFont/OpenFontReader.cs:379-397 | for a TrueType outline the hinting programs attached are exactly the decoded ones; otherwise none are |
| TypefaceAssembly.LateTablesDecoded | Typography.OpenFont/OpenFontReader.cs:399-419 | the layout, colour, SVG and PostScript-name tables attached are exactly the decoded ones |
| TypefaceAssembly.TypefaceTablesDecoded | Typography.OpenFont/OpenFontReader.cs:350-419 | the typeface receives exactly the decoded tables among those it keeps |
| TypefaceAssembly.ReadRequiredTables | Typography.OpenFont/OpenFontReader.cs:290-306 | the first three phases; each error has its stated cause and is the first decoder failure or the first failing dereference, in the order the reader meets them; with all decoders succeeding the read fails exactly when 'hhea', 'maxp' or 'head' is missing |
| TypefaceAssembly.ReadOptionalTables | Typography.OpenFont/OpenFontReader.cs:308-332 | the layout and auxiliary phases; only a decoder can fail, and its error is the plan's first decoder failure |
| TypefaceAssembly.FinishTypeface | Typography.OpenFont/OpenFontReader.cs:336-419 | neither 'glyf' nor 'CFF ' fails as unsupported; 'glyf' is the outline whenever present, even beside 'CFF '; then the hinting programs (TrueType only) and 'SVG ' are requested and the typeface is assembled; any other error is the plan's first decoder failure, and on success every present table of the plan decoded |
| TypefaceAssembly.ReadTableEntryCollection | Typography.OpenFont/OpenFontReader.cs:287-436 | on a fresh registry the read fails exactly when 'hhea', 'maxp', 'head' or both outline tables are missing or a present table of the plan fails to decode, and its error is the one `AssemblyError` fixes (first decoder failure or first failing check, in the reader's order); every error has its cause; with all decoders succeeding the error is the expected one; on success the tags were requested in plan order, every present one decoded, the registry holds them decoded, and the typeface is assembled from 'glyf' (else 'CFF ') with exactly the decoded kept tables |
| OpenFontReader.DirectoryUnread | Typography.OpenFont/OpenFontReader.cs:228-232 | a freshly read directory gives a registry of unread entries filed under their own tags |
| OpenFontReader.ReadTableDirectory | Typography.OpenFont/OpenFontReader.cs:223-232 | the count fields and the `tableCount` record loop fail as truncated exactly when the closed-form directory parse fails; otherwise they give a fresh registry with one unread entry per record |
| OpenFontReader.Read | Typography.OpenFont/OpenFontReader.cs:235-273 | no typeface, with no directory read, exactly when the font starts with the collection tag; truncated exactly when the version or the directory runs out; otherwise the read fails exactly when a needed table is missing or a present table of the plan fails to decode, with the error `AssemblyError` fixes for the directory after the 4 version bytes, and every typeface is assembled from that directory |
| OpenFontReader.PreviewInfoOf | Typography.OpenFont/OpenFontReader.cs:275-286 | a preview succeeds only when 'name' and 'OS/2' are present and unread, and then lists no members; a failed preview ends with a decoder failure, an already-read or a missing 'name' or 'OS/2' |
| OpenFontReader.PreviewInfoOutcome | Typography.OpenFont/OpenFontReader.cs:275-286 | a preview of a fresh registry succeeds exactly when 'name' and 'OS/2' are present and decode, carrying their font name, sub-family and weight; otherwise it fails with the first error met ('name' decoding, 'OS/2' decoding, missing 'name', missing 'OS/2') |
| OpenFontReader.ReadPreviewFontInfo | Typography.OpenFont/OpenFontReader.cs:275-286 | requests 'name' then 'OS/2' (stopping after a decoder failure), with the registry updated by each request |
| OpenFontReader.PreviewAt | Typography.OpenFont/OpenFontReader.cs:215-234 | a font preview succeeds only when its directory parses, and then lists no members; it fails as truncated or with a preview error of 'name' or 'OS/2' |
| OpenFontReader.PreviewAtDirectory | Typography.OpenFont/OpenFontReader.cs:215-234 | a font preview fails as truncated when its directory does, and is otherwise the preview of the fresh registry the directory fills |
| OpenFontReader.ReadActualFontPreview | Typography.OpenFont/OpenFontReader.cs:215-234 | reads the version unless told to skip it, then the directory, then previews the font; the result is the closed-form font preview |
| OpenFontReader.MemberPreviews | Typography.OpenFont/OpenFontReader.cs:151-156 | on success there is one preview per member offset |
| OpenFontReader.MemberPreviewsRead | Typography.OpenFont/OpenFontReader.cs:151-156 | on success member i is the preview read at offset i, with that offset recorded as its stream offset |
| OpenFontReader.MemberPreviewsFirstFailure | Typography.OpenFont/OpenFontReader.cs:151-156 | on failure the error is that of the first member whose offset is negative or whose preview fails |
| OpenFontReader.MemberPreviewsPrefixError | Typography.OpenFont/OpenFontReader.cs:151-156 | once a prefix of the members fails, the whole read fails with that error |
| OpenFontReader.MemberPreviewsStep | Typography.OpenFont/OpenFontReader.cs:151-156 | one more member: a negative offset fails, a failing preview fails with its error, otherwise the preview is appended with its offset |
| OpenFontReader.ReadMembers | Typography.OpenFont/OpenFontReader.cs:150-156 | the loop that seeks to each offset and fills the member array gives the closed-form member previews |
| OpenFontReader.PreviewOfCollection | Typography.OpenFont/OpenFontReader.cs:146-157 | a successful collection preview has exactly `numFonts` members, member i read at offset i, and is named by the collection name builder |
| OpenFontReader.PreviewOfSingleFont | Typography.OpenFont/OpenFontReader.cs:159-162 | a single font's preview is the preview of the directory right after its version, and names no members |
| OpenFontReader.Preview | Typography.OpenFont/OpenFontReader.cs:138-164 | a successful preview of a stream lists members exactly when the stream starts with the collection tag |
| OpenFontReader.ReadPreview | Typography.OpenFont/OpenFontReader.cs:138-164 | the imperative preview read equals the closed-form preview of the stream |

## Left out

- Stream, `Seek`, `IDisposable` and `ByteOrderSwappingBinaryReader`: these are a byte sequence read big-endian. A position past the end makes the next read fail. The stream's position at entry is taken to be 0.
- Every table decoder other than COLR (`Head`, `MaxProfile`, `HorizontalMetrics`, `GlyphLocations`, `Glyf`, `CFFTable`, `Cmap`, `Kern`, `GDEF`/`GSUB`/`GPOS`/`BASE`, `CPAL`, `MathTable`, `EBLCTable`, `SvgTable`, `FpgmTable`/`CvtTable`/`PrepTable`, `NameEntry`, `OS2Table`): their source is not part of this model, so each is an abstract decoder parameter.
- How a decoder sizes itself from earlier tables (hmtx from hhea and maxp, loca from maxp and head, glyf from loca, vmtx from vhea): the model keeps only when a missing earlier table is dereferenced, and lets the abstract decoder stand for the sized read.
- UnreadEntries: a tag repeated in a directory is assumed to leave the later record in its slot. `TableEntryCollection.AddEntry`'s own handling of a repeated tag is not part of this model.
- OpenFontReader.StartOf: with `streamStartOffset` at 0 or below the reader does not seek, and the model takes the position it already stands at to be 0.
- `UnreadTableEntry.HasCustomContentReader`/`CreateTableEntry` and the internals of `TableEntryCollection`: their source is not part of this model. The registry is a map from tag to entry.
- `Typeface` construction, `LoadOpenFontLayoutInfo`, `MathGlyphLoader.LoadMathGlyph` and the debug-only `UpdateAllCffGlyphBounds`: foreign calls. A typeface is its outline source plus the map of tables handed to it. 'MATH', 'EBLC' and 'VDMX' are requested but not kept. The control values and programs stand for 'cvt ', 'fpgm' and 'prep'.
- `TypefaceExtensions.TranslatedOS2FontStyle` and the name-table string extraction: these depend on tables outside this model, so the name, sub-family and weight are abstract functions of the decoded tables, and the OS/2 style is not recorded.
- `PreviewFontInfo` accessors and the debug `ToString`: trivial data holders.
- DSIG contents and table checksums: the reader never decodes the first or validates the second.
- `ReadFlags`: `Read` ignores it.
- `IsWebFont` and the WOFF/WOFF2 readers: they are not part of this model; only the signature tests are.
- BuildTtcfName: the member count is written as plain decimal digits. Culture-specific number formatting of `int.ToString` is not modelled.
