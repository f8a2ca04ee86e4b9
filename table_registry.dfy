/**
 * The table-resolution registry: a map from tag to a two-state slot, either
 * a table record not yet decoded or the decoded table. Resolving a tag
 * decodes it at most once; a second request for the same tag is an error.
 */
module TableRegistry {
  import opened Wrappers
  import opened TableDirectory

  /** A registry slot: the record only, or the record with its decoded table. */
  datatype Entry<D> = Unread(header: TableHeader) | Read(header: TableHeader, table: D)

  /** Why a font read was abandoned. */
  datatype ReadError =
    | Truncated                 // fewer bytes than a field needs
    | NegativeSeek              // a collection offset below the start of the stream
    | DecodeFailed(tag: Tag)    // a table decoder threw
    | AlreadyRead(tag: Tag)     // the same table was requested twice
    | MissingTable(tag: Tag)    // a table a later step dereferences was absent
    | NoOutlines                // neither 'glyf' nor 'CFF ' is present

  /** What one resolution request gives back. */
  datatype Resolution<D> = Absent | Resolved(header: TableHeader, table: D) | Failed(error: ReadError)

  /** A per-table decoder: the table's content read from the record's byte range, or `None` when it throws. */
  type Decoder<D> = TableHeader -> Option<D>

  /** Every slot is filed under the tag of its own record. */
  ghost predicate WellKeyed<D>(m: map<Tag, Entry<D>>)
  {
    forall t :: t in m ==> m[t].header.tag == t
  }

  ghost predicate AllUnread<D>(m: map<Tag, Entry<D>>)
  {
    forall t :: t in m ==> m[t].Unread?
  }

  /**
   * One resolution step on the registry contents `m`: an absent tag leaves
   * `m` alone; an unread slot is decoded and replaced by the decoded table;
   * a slot that already holds a table is the double-decode error.
   */
  function Resolve<D>(m: map<Tag, Entry<D>>, tag: Tag, decode: Decoder<D>): (r: (Resolution<D>, map<Tag, Entry<D>>))
    ensures r.1.Keys == m.Keys && forall t :: t in m && t != tag ==> r.1[t] == m[t]
    ensures r.0.Resolved? <==> tag in m && m[tag].Unread? && decode(m[tag].header).Some?
    ensures r.0.Failed? ==> r.1 == m
  {
    if tag !in m then (Absent, m)
    else match m[tag]
      case Read(_, _) => (Failed(AlreadyRead(tag)), m)
      case Unread(h) =>
        match decode(h)
        case None => (Failed(DecodeFailed(tag)), m)
        case Some(d) => (Resolved(h, d), m[tag := Read(h, d)])
  }

  /** An absent tag resolves to `Absent` and changes nothing. */
  lemma ResolveAbsent<D>(m: map<Tag, Entry<D>>, tag: Tag, decode: Decoder<D>)
    requires tag !in m
    ensures Resolve(m, tag, decode) == (Absent, m)
  {
  }

  /**
   * An unread slot whose decoder succeeds yields a table carrying that slot's
   * record; only that slot changes, and it now holds the table.
   */
  lemma ResolveUnread<D>(m: map<Tag, Entry<D>>, tag: Tag, decode: Decoder<D>)
    requires tag in m && m[tag].Unread? && decode(m[tag].header).Some?
    ensures var (r, m') := Resolve(m, tag, decode);
      r == Resolved(m[tag].header, decode(m[tag].header).value) &&
      m'.Keys == m.Keys && m'[tag] == Read(m[tag].header, r.table) &&
      forall t :: t in m && t != tag ==> m'[t] == m[t]
  {
  }

  /** A failure leaves the registry as it was. */
  lemma ResolveFailureKeepsState<D>(m: map<Tag, Entry<D>>, tag: Tag, decode: Decoder<D>)
    ensures Resolve(m, tag, decode).0.Failed? ==> Resolve(m, tag, decode).1 == m
  {
  }

  /** Once a tag has been resolved to a table, resolving it again always fails, whatever decoder is supplied. */
  lemma ResolveTwiceFails<D>(m: map<Tag, Entry<D>>, tag: Tag, decode: Decoder<D>, again: Decoder<D>)
    requires Resolve(m, tag, decode).0.Resolved?
    ensures Resolve(Resolve(m, tag, decode).1, tag, again) == (Failed(AlreadyRead(tag)), Resolve(m, tag, decode).1)
  {
  }

  /**
   * The registry contents after adding the records in file order, each as an
   * unread slot. A repeated tag is taken to leave the later record in the slot;
   * the collection's own insertion code is not part of this model.
   */
  function UnreadEntries<D>(records: seq<TableHeader>): (m: map<Tag, Entry<D>>)
    ensures forall t :: t in m ==> m[t].Unread? && m[t].header.tag == t
  {
    if records == [] then map[]
    else
      var last := records[|records| - 1];
      UnreadEntries<D>(records[..|records| - 1])[last.tag := Unread(last)]
  }

  /** Every slot of a freshly read directory is unread and filed under its own tag, and the tags are exactly those of the records. */
  lemma {:induction false} UnreadEntriesShape<D>(records: seq<TableHeader>)
    ensures AllUnread(UnreadEntries<D>(records)) && WellKeyed(UnreadEntries<D>(records))
    ensures UnreadEntries<D>(records).Keys == set i | 0 <= i < |records| :: records[i].tag
  {
    if records != [] {
      var init := records[..|records| - 1];
      UnreadEntriesShape<D>(init);
      assert forall i :: 0 <= i < |init| ==> init[i] == records[i];
    }
  }

  /** With distinct tags, every record is found, unread, under its own tag, and there are exactly `|records|` slots. */
  lemma {:induction false} UnreadEntriesDistinct<D>(records: seq<TableHeader>)
    requires forall i, j :: 0 <= i < j < |records| ==> records[i].tag != records[j].tag
    ensures |UnreadEntries<D>(records)| == |records|
    ensures forall i :: 0 <= i < |records| ==>
      records[i].tag in UnreadEntries<D>(records) && UnreadEntries<D>(records)[records[i].tag] == Unread(records[i])
  {
    if records != [] {
      var init := records[..|records| - 1];
      var last := records[|records| - 1];
      UnreadEntriesDistinct<D>(init);
      UnreadEntriesShape<D>(init);
      assert last.tag !in UnreadEntries<D>(init);
    }
  }

  /** A record whose tag no later record repeats is found, unread, under its tag: a repeated tag keeps its last record. */
  lemma {:induction false} UnreadEntriesLastWins<D>(records: seq<TableHeader>, i: nat)
    requires i < |records|
    requires forall j :: i < j < |records| ==> records[j].tag != records[i].tag
    ensures records[i].tag in UnreadEntries<D>(records) && UnreadEntries<D>(records)[records[i].tag] == Unread(records[i])
  {
    if i < |records| - 1 {
      UnreadEntriesLastWins<D>(records[..|records| - 1], i);
    }
  }

  /** The registry of one font: the tag-to-slot map, mutated in place by resolution. */
  class TableEntryCollection<D> {
    var entries: map<Tag, Entry<D>>
    /** Every tag requested so far, in request order. */
    ghost var requested: seq<Tag>

    constructor ()
      ensures entries == map[] && requested == []
    {
      entries := map[];
      requested := [];
    }

    /** Files a record as an unread slot under its tag. */
    method AddEntry(h: TableHeader)
      modifies this
      ensures entries == old(entries)[h.tag := Unread(h)]
      ensures requested == old(requested)
    {
      entries := entries[h.tag := Unread(h)];
    }

    /**
     * Looks the tag up: absent gives `Absent` with the map unchanged; an
     * unread slot is decoded and replaced in place by the table, which carries
     * the slot's record; a slot already holding a table is `AlreadyRead`.
     */
    method ReadTableIfExists(tag: Tag, decode: Decoder<D>) returns (r: Resolution<D>)
      modifies this
      ensures (r, entries) == Resolve(old(entries), tag, decode)
      ensures requested == old(requested) + [tag]
    {
      requested := requested + [tag];
      if tag in entries {
        var found := entries[tag];
        if found.Unread? {
          var decoded := decode(found.header);
          if decoded.Some? {
            r := Resolved(found.header, decoded.value);
            entries := entries[tag := Read(found.header, decoded.value)];
          } else {
            r := Failed(DecodeFailed(tag));
          }
        } else {
          r := Failed(AlreadyRead(tag));
        }
      } else {
        r := Absent;
      }
    }
  }

  /** The same tag asked for twice on one registry: the second request fails if the first found a table. */
  method ResolveTwice<D>(tables: TableEntryCollection<D>, tag: Tag, decode: Decoder<D>)
    returns (first: Resolution<D>, second: Resolution<D>)
    modifies tables
    ensures first.Resolved? ==> second == Failed(AlreadyRead(tag))
    ensures first.Absent? ==> second.Absent? && tables.entries == old(tables.entries)
  {
    first := tables.ReadTableIfExists(tag, decode);
    second := tables.ReadTableIfExists(tag, decode);
  }
}
