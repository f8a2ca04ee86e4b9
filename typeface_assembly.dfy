/**
 * Typeface assembly: the fixed order in which one font's tables are
 * requested from the registry, the two conditional reads (vertical metrics
 * only after a vertical header, hinting programs only for TrueType outlines),
 * the outline-source branch and the null dereferences that abort a read when
 * a table another step depends on is missing.
 */
module TypefaceAssembly {
  import opened Wrappers
  import opened TableDirectory
  import opened TableRegistry

  /** The outline source: quadratic contours ('glyf') or compact PostScript outlines ('CFF '). */
  datatype Outline<D> = TrueType(glyf: D) | PostScript(cff: D)

  /** The assembled typeface: its outline source and every other table handed to it, by tag. */
  datatype Typeface<D> = Typeface(outline: Outline<D>, tables: map<Tag, D>)

  // The request order, phase by phase.
  const HEADER_PLAN: seq<Tag> := [OS2, NAME, HEAD, MAXP, HHEA]
  const METRIC_PLAN: seq<Tag> := [HMTX, POST, CFF, CMAP]
  const GLYPH_PLAN: seq<Tag> := [LOCA, GLYF]
  const LAYOUT_PLAN: seq<Tag> := [GASP, VDMX, KERN, GDEF, GSUB, GPOS]

  /** The remaining auxiliary tables; 'vmtx' only when 'vhea' is present. */
  function ExtraPlan(present: set<Tag>): seq<Tag>
  {
    [BASE, COLR, CPAL, VHEA] + (if VHEA in present then [VMTX] else []) + [MATH, EBLC]
  }

  /** The hinting programs, requested only for TrueType outlines. */
  function HintingPlan(trueType: bool): seq<Tag>
  {
    if trueType then [FPGM, CVT, PREP] else []
  }

  /** The tables requested, in order, for a font whose directory holds the tags `present`. */
  function Plan(present: set<Tag>): (p: seq<Tag>)
    ensures forall t :: t in BASIC_TAGS + LATE_TAGS + {LOCA, GLYF, CFF} ==> t in p
  {
    HEADER_PLAN + METRIC_PLAN + GLYPH_PLAN + LAYOUT_PLAN + ExtraPlan(present) + HintingPlan(GLYF in present) + [SVG]
  }

  ghost predicate NoRepeats(s: seq<Tag>)
  {
    forall i, j :: 0 <= i < j < |s| ==> s[i] != s[j]
  }

  lemma NoRepeatsAppend(a: seq<Tag>, b: seq<Tag>)
    requires NoRepeats(a) && NoRepeats(b)
    requires forall t :: t in a ==> t !in b
    ensures NoRepeats(a + b)
  {
    forall i, j | 0 <= i < j < |a + b|
      ensures (a + b)[i] != (a + b)[j]
    {
      if i < |a| && |a| <= j {
        assert (a + b)[i] in a && (a + b)[j] == b[j - |a|];
      }
    }
  }

  /** The tags requested unconditionally before the auxiliary tables are all different. */
  lemma CorePlanDistinct()
    ensures NoRepeats(HEADER_PLAN + METRIC_PLAN + GLYPH_PLAN + LAYOUT_PLAN)
  {
    NoRepeatsAppend(HEADER_PLAN, METRIC_PLAN);
    NoRepeatsAppend(HEADER_PLAN + METRIC_PLAN, GLYPH_PLAN);
    NoRepeatsAppend(HEADER_PLAN + METRIC_PLAN + GLYPH_PLAN, LAYOUT_PLAN);
  }

  /** A tag outside the unconditional phases is not requested by them. */
  lemma NotInCorePlan(t: Tag)
    requires t !in {OS2, NAME, HEAD, MAXP, HHEA, HMTX, POST, CFF, CMAP, LOCA, GLYF, GASP, VDMX, KERN, GDEF, GSUB, GPOS}
    ensures t !in HEADER_PLAN + METRIC_PLAN + GLYPH_PLAN + LAYOUT_PLAN
  {
  }

  /** A tag outside the unconditional phases and the auxiliary tables is requested by neither. */
  lemma NotInFrontPlan(t: Tag, present: set<Tag>)
    requires t !in {OS2, NAME, HEAD, MAXP, HHEA, HMTX, POST, CFF, CMAP, LOCA, GLYF, GASP, VDMX, KERN, GDEF, GSUB, GPOS}
    requires t !in {BASE, COLR, CPAL, VHEA, VMTX, MATH, EBLC}
    ensures t !in HEADER_PLAN + METRIC_PLAN + GLYPH_PLAN + LAYOUT_PLAN + ExtraPlan(present)
  {
    NotInCorePlan(t);
  }

  /** Adding the auxiliary tables keeps the requests distinct. */
  lemma ExtraPlanDistinct(present: set<Tag>)
    ensures NoRepeats(HEADER_PLAN + METRIC_PLAN + GLYPH_PLAN + LAYOUT_PLAN + ExtraPlan(present))
  {
    var core := HEADER_PLAN + METRIC_PLAN + GLYPH_PLAN + LAYOUT_PLAN;
    CorePlanDistinct();
    NotInCorePlan(BASE);
    NotInCorePlan(COLR);
    NotInCorePlan(CPAL);
    NotInCorePlan(VHEA);
    NotInCorePlan(VMTX);
    NotInCorePlan(MATH);
    NotInCorePlan(EBLC);
    NoRepeatsAppend(core, ExtraPlan(present));
  }

  /** No tag is requested twice, so the double-decode error can never arise in one assembly. */
  lemma PlanDistinct(present: set<Tag>)
    ensures NoRepeats(Plan(present))
  {
    var front := HEADER_PLAN + METRIC_PLAN + GLYPH_PLAN + LAYOUT_PLAN + ExtraPlan(present);
    var hint := HintingPlan(GLYF in present);
    ExtraPlanDistinct(present);
    NotInFrontPlan(FPGM, present);
    NotInFrontPlan(CVT, present);
    NotInFrontPlan(PREP, present);
    NoRepeatsAppend(front, hint);
    NotInFrontPlan(SVG, present);
    assert SVG !in hint;
    NoRepeatsAppend(front + hint, [SVG]);
  }

  /** Where each phase of the plan starts. */
  lemma PlanLayout(present: set<Tag>)
    ensures var p := Plan(present); var e := |ExtraPlan(present)|;
      PhaseAt(p, 0, HEADER_PLAN) && PhaseAt(p, 5, METRIC_PLAN) && PhaseAt(p, 9, GLYPH_PLAN) &&
      PhaseAt(p, 11, LAYOUT_PLAN) && PhaseAt(p, 17, ExtraPlan(present)) &&
      PhaseAt(p, 17 + e, HintingPlan(GLYF in present)) &&
      |p| == 17 + e + |HintingPlan(GLYF in present)| + 1 && p[|p| - 1] == SVG
  {
    var p := Plan(present);
    var e := ExtraPlan(present);
    var hint := HintingPlan(GLYF in present);
    assert p == HEADER_PLAN + METRIC_PLAN + GLYPH_PLAN + LAYOUT_PLAN + e + hint + [SVG];
    assert p[0..5] == HEADER_PLAN;
    assert p[5..9] == METRIC_PLAN;
    assert p[9..11] == GLYPH_PLAN;
    assert p[11..17] == LAYOUT_PLAN;
    assert p[17..17 + |e|] == e;
    assert p[17 + |e|..17 + |e| + |hint|] == hint;
  }

  lemma WholePrefix<T>(s: seq<T>, n: nat)
    requires n == |s|
    ensures s[..n] == s
  {
  }

  /** `a` occurs in `p` before `b`. */
  ghost predicate Before(p: seq<Tag>, a: Tag, b: Tag)
  {
    exists i, j :: 0 <= i < j < |p| && p[i] == a && p[j] == b
  }

  /**
   * Every table is requested after the tables its decoder depends on:
   * 'hmtx' after 'hhea' and 'maxp', 'loca' after 'maxp' and 'head',
   * 'glyf' after 'loca', 'vmtx' after 'vhea'; since no tag repeats
   * (PlanDistinct) these are the only occurrences.
   */
  lemma PlanRespectsDependencies(present: set<Tag>)
    ensures Before(Plan(present), HHEA, HMTX) && Before(Plan(present), MAXP, HMTX)
    ensures Before(Plan(present), MAXP, LOCA) && Before(Plan(present), HEAD, LOCA)
    ensures Before(Plan(present), LOCA, GLYF)
    ensures VHEA in present ==> Before(Plan(present), VHEA, VMTX)
  {
    var p := Plan(present);
    assert p[2] == HEAD && p[3] == MAXP && p[4] == HHEA && p[5] == HMTX && p[9] == LOCA && p[10] == GLYF;
    if VHEA in present {
      assert p[20] == VHEA && p[21] == VMTX;
    }
  }

  /** 'vmtx' is requested exactly when 'vhea' is present. */
  lemma PlanVerticalMetrics(present: set<Tag>)
    ensures VMTX in Plan(present) <==> VHEA in present
  {
  }

  /** 'fpgm', 'cvt ' and 'prep' are requested exactly when 'glyf' is present. */
  lemma PlanHinting(present: set<Tag>)
    ensures FPGM in Plan(present) <==> GLYF in present
    ensures CVT in Plan(present) <==> GLYF in present
    ensures PREP in Plan(present) <==> GLYF in present
  {
    var rest := HEADER_PLAN + METRIC_PLAN + GLYPH_PLAN + LAYOUT_PLAN + ExtraPlan(present);
    assert Plan(present) == rest + HintingPlan(GLYF in present) + [SVG];
    NotInFrontPlan(FPGM, present);
    NotInFrontPlan(CVT, present);
    NotInFrontPlan(PREP, present);
  }

  /** The tables a typeface keeps besides its outline source; the hinting tables only for TrueType outlines. */
  function AttachedTags(trueType: bool): set<Tag>
  {
    BASIC_TAGS + (if trueType then HINT_TAGS else {}) + LATE_TAGS
  }

  const BASIC_TAGS: set<Tag> := {NAME, HEAD, HMTX, OS2, CMAP, KERN, GASP, MAXP, HHEA}
  const HINT_TAGS: set<Tag> := {CVT, FPGM, PREP}
  const LATE_TAGS: set<Tag> := {GDEF, GSUB, GPOS, BASE, COLR, CPAL, SVG, POST}

  /** The decoded tables of `m0` among `tags`. */
  ghost function DecodedAmong<D>(m0: map<Tag, Entry<D>>, decode: Decoder<D>, tags: set<Tag>): map<Tag, D>
  {
    map t | t in m0.Keys * tags && decode(m0[t].header).Some? :: decode(m0[t].header).value
  }

  ghost predicate AllDecode<D>(m0: map<Tag, Entry<D>>, decode: Decoder<D>)
  {
    forall t :: t in m0 ==> decode(m0[t].header).Some?
  }

  /**
   * The error a read ends with when every table decodes: a missing 'hhea' or
   * 'maxp' is dereferenced when the horizontal metrics are set up, a missing
   * 'head' when the glyph locations are; then a font with neither outline
   * table is unsupported.
   */
  function ExpectedError(present: set<Tag>): (r: Option<ReadError>)
    ensures r.None? <==> HHEA in present && MAXP in present && HEAD in present && (GLYF in present || CFF in present)
    ensures r.Some? ==>
      (r.value.MissingTable? && r.value.tag !in present && r.value.tag in {HHEA, MAXP, HEAD}) ||
      (r.value == NoOutlines && GLYF !in present && CFF !in present)
  {
    if HHEA !in present then Some(MissingTable(HHEA))
    else if MAXP !in present then Some(MissingTable(MAXP))
    else if HEAD !in present then Some(MissingTable(HEAD))
    else if GLYF !in present && CFF !in present then Some(NoOutlines)
    else None
  }

  /** A decoder rejected a table the directory lists. */
  ghost predicate DecodeFailure<D>(m0: map<Tag, Entry<D>>, decode: Decoder<D>, e: ReadError)
  {
    e.DecodeFailed? && e.tag in m0 && decode(m0[e.tag].header).None?
  }

  /**
   * A successful assembly: the outline comes from 'glyf' when the font has
   * one and from 'CFF ' otherwise, and the typeface holds exactly the decoded
   * tables among those it keeps.
   */
  ghost predicate Assembled<D>(m0: map<Tag, Entry<D>>, decode: Decoder<D>, t: Typeface<D>)
    ensures Assembled(m0, decode, t) ==> t.tables.Keys <= m0.Keys && (GLYF in m0 || CFF in m0)
  {
    t.tables == DecodedAmong(m0, decode, AttachedTags(GLYF in m0)) &&
    if GLYF in m0 then decode(m0[GLYF].header).Some? && t.outline == TrueType(decode(m0[GLYF].header).value)
    else CFF in m0 && decode(m0[CFF].header).Some? && t.outline == PostScript(decode(m0[CFF].header).value)
  }

  /** Every error an assembly can end with, and what in the font causes it. */
  ghost predicate ErrorExplained<D>(m0: map<Tag, Entry<D>>, decode: Decoder<D>, e: ReadError)
  {
    DecodeFailure(m0, decode, e) ||
    (e.MissingTable? && e.tag !in m0 && e.tag in {HHEA, MAXP, HEAD}) ||
    (e == NoOutlines && GLYF !in m0 && CFF !in m0)
  }

  /**
   * The registry after the tags `done` were requested, starting from the
   * freshly read `m0`: each requested present table that decodes is decoded
   * in its slot, every other slot is as it was.
   */
  ghost function Updated<D>(m0: map<Tag, Entry<D>>, done: seq<Tag>, decode: Decoder<D>): map<Tag, Entry<D>>
  {
    map t | t in m0 :: if t in done && decode(m0[t].header).Some? then Read(m0[t].header, decode(m0[t].header).value) else m0[t]
  }

  /** Every present table among the requests `done` decodes. */
  ghost predicate DecodesAll<D>(m0: map<Tag, Entry<D>>, decode: Decoder<D>, done: seq<Tag>)
  {
    forall t :: t in done && t in m0 ==> decode(m0[t].header).Some?
  }

  /** `e` is the failure of the `j`-th request of `plan`, the first request whose present table fails to decode. */
  ghost predicate FailsFirstAt<D>(m0: map<Tag, Entry<D>>, decode: Decoder<D>, plan: seq<Tag>, j: nat, e: ReadError)
  {
    j < |plan| && plan[j] in m0 && decode(m0[plan[j]].header).None? &&
    DecodesAll(m0, decode, plan[..j]) && e == DecodeFailed(plan[j])
  }

  /** The first decoder failure of `plan` is among its requests `lo` to `hi - 1`, and `e` reports it. */
  ghost predicate FailsFirstIn<D>(m0: map<Tag, Entry<D>>, decode: Decoder<D>, plan: seq<Tag>, lo: nat, hi: nat, e: ReadError)
  {
    exists j :: lo <= j < hi && FailsFirstAt(m0, decode, plan, j, e)
  }

  /**
   * The checks an assembly makes before its `j`-th request all pass: 'hhea'
   * and 'maxp' are present once 'hmtx' is reached, 'head' once 'loca' is,
   * and an outline table once the outline is chosen.
   */
  ghost predicate ChecksPass(present: set<Tag>, j: nat)
  {
    (j >= 5 ==> HHEA in present && MAXP in present) && (j >= 9 ==> HEAD in present) &&
    (j >= 17 + |ExtraPlan(present)| ==> GLYF in present || CFF in present)
  }

  /** How many requests precede the check that reports `e`. */
  function CheckPosition(present: set<Tag>, e: ReadError): nat
  {
    if e == NoOutlines then 17 + |ExtraPlan(present)| else if e == MissingTable(HEAD) then 9 else 5
  }

  /**
   * The error an assembly of `m0` ends with: the first decoder failure in
   * plan order when every check before it passes, or else the first failing
   * check when every request before it decodes.
   */
  ghost predicate AssemblyError<D>(m0: map<Tag, Entry<D>>, decode: Decoder<D>, e: ReadError)
  {
    var plan := Plan(m0.Keys);
    (exists j :: FailsFirstAt(m0, decode, plan, j, e) && ChecksPass(m0.Keys, j)) ||
    (ExpectedError(m0.Keys) == Some(e) && DecodesAll(m0, decode, plan[..CheckPosition(m0.Keys, e)]))
  }

  /** No decoder failure precedes a request of the plan whose table decodes. */
  lemma FailureBeforeDecoded<D>(m0: map<Tag, Entry<D>>, decode: Decoder<D>, plan: seq<Tag>, j: nat, e: ReadError, i: nat)
    requires FailsFirstAt(m0, decode, plan, j, e) && i <= |plan| && DecodesAll(m0, decode, plan[..i])
    ensures i <= j
  {
  }

  /** The first decoder failure of a plan is unique. */
  lemma FirstFailureUnique<D>(m0: map<Tag, Entry<D>>, decode: Decoder<D>, plan: seq<Tag>,
                              j1: nat, e1: ReadError, j2: nat, e2: ReadError)
    requires FailsFirstAt(m0, decode, plan, j1, e1) && FailsFirstAt(m0, decode, plan, j2, e2)
    ensures j1 == j2 && e1 == e2
  {
    FailureBeforeDecoded(m0, decode, plan, j1, e1, j2);
    FailureBeforeDecoded(m0, decode, plan, j2, e2, j1);
  }

  /** The assembly's error is determined by the font: at most one error satisfies `AssemblyError`. */
  lemma AssemblyErrorDetermined<D>(m0: map<Tag, Entry<D>>, decode: Decoder<D>, e1: ReadError, e2: ReadError)
    requires AssemblyError(m0, decode, e1) && AssemblyError(m0, decode, e2)
    ensures e1 == e2
  {
    var plan := Plan(m0.Keys);
    if j1 :| FailsFirstAt(m0, decode, plan, j1, e1) && ChecksPass(m0.Keys, j1) {
      if j2 :| FailsFirstAt(m0, decode, plan, j2, e2) && ChecksPass(m0.Keys, j2) {
        FirstFailureUnique(m0, decode, plan, j1, e1, j2, e2);
      } else {
        FailureBeforeCheck(m0, decode, j1, e1, e2);
      }
    } else if j2 :| FailsFirstAt(m0, decode, plan, j2, e2) && ChecksPass(m0.Keys, j2) {
      FailureBeforeCheck(m0, decode, j2, e2, e1);
    }
  }

  /** A decoder failure reached with every earlier check passing excludes a failing check reached with every earlier request decoded. */
  lemma FailureBeforeCheck<D>(m0: map<Tag, Entry<D>>, decode: Decoder<D>, j: nat, e: ReadError, c: ReadError)
    requires FailsFirstAt(m0, decode, Plan(m0.Keys), j, e) && ChecksPass(m0.Keys, j)
    ensures !(ExpectedError(m0.Keys) == Some(c) && DecodesAll(m0, decode, Plan(m0.Keys)[..CheckPosition(m0.Keys, c)]))
  {
    PlanLayout(m0.Keys);
    if ExpectedError(m0.Keys) == Some(c) && DecodesAll(m0, decode, Plan(m0.Keys)[..CheckPosition(m0.Keys, c)]) {
      FailureBeforeDecoded(m0, decode, Plan(m0.Keys), j, e, CheckPosition(m0.Keys, c));
    }
  }

  /** A first decoder failure among requests `lo` to `hi - 1`, with every check before request `hi - 1` passing, is the assembly's error. */
  lemma FailureIsAssemblyError<D>(m0: map<Tag, Entry<D>>, decode: Decoder<D>, lo: nat, hi: nat, e: ReadError)
    requires FailsFirstIn(m0, decode, Plan(m0.Keys), lo, hi, e) && lo < hi && ChecksPass(m0.Keys, hi - 1)
    ensures AssemblyError(m0, decode, e)
  {
    var j :| lo <= j < hi && FailsFirstAt(m0, decode, Plan(m0.Keys), j, e);
    assert ChecksPass(m0.Keys, j);
  }

  /** An error of the first three phases is the assembly's error. */
  lemma RequiredErrorIsAssemblyError<D>(m0: map<Tag, Entry<D>>, decode: Decoder<D>, e: ReadError)
    requires var plan := Plan(m0.Keys);
      FailsFirstIn(m0, decode, plan, 0, 5, e) ||
      (DecodesAll(m0, decode, plan[..5]) && ExpectedError(m0.Keys) == Some(e) && e.MissingTable? && e.tag != HEAD) ||
      (HHEA in m0 && MAXP in m0 && FailsFirstIn(m0, decode, plan, 5, 9, e)) ||
      (DecodesAll(m0, decode, plan[..9]) && ExpectedError(m0.Keys) == Some(e) && e == MissingTable(HEAD)) ||
      (HHEA in m0 && MAXP in m0 && HEAD in m0 && FailsFirstIn(m0, decode, plan, 9, 11, e))
    ensures AssemblyError(m0, decode, e)
    ensures ExpectedError(m0.Keys).Some? || !DecodesAll(m0, decode, Plan(m0.Keys))
    ensures ErrorExplained(m0, decode, e)
  {
    var plan := Plan(m0.Keys);
    if FailsFirstIn(m0, decode, plan, 0, 5, e) {
      FailureIsAssemblyError(m0, decode, 0, 5, e);
    } else if HHEA in m0 && MAXP in m0 && FailsFirstIn(m0, decode, plan, 5, 9, e) {
      FailureIsAssemblyError(m0, decode, 5, 9, e);
    } else if HHEA in m0 && MAXP in m0 && HEAD in m0 && FailsFirstIn(m0, decode, plan, 9, 11, e) {
      FailureIsAssemblyError(m0, decode, 9, 11, e);
    }
    AssemblyErrorCause(m0, decode, e);
  }

  /** An error of the outline choice or of the closing requests is the assembly's error. */
  lemma ClosingErrorIsAssemblyError<D>(m0: map<Tag, Entry<D>>, decode: Decoder<D>, e: ReadError)
    requires var plan := Plan(m0.Keys); var n := 17 + |ExtraPlan(m0.Keys)|;
      HHEA in m0 && MAXP in m0 && HEAD in m0 && DecodesAll(m0, decode, plan[..n]) &&
      ((e == NoOutlines && GLYF !in m0 && CFF !in m0) ||
       ((GLYF in m0 || CFF in m0) && FailsFirstIn(m0, decode, plan, n, |plan|, e)))
    ensures AssemblyError(m0, decode, e)
    ensures ExpectedError(m0.Keys).Some? || !DecodesAll(m0, decode, Plan(m0.Keys))
    ensures ErrorExplained(m0, decode, e)
  {
    var plan := Plan(m0.Keys);
    PlanLayout(m0.Keys);
    if e != NoOutlines || GLYF in m0 || CFF in m0 {
      FailureIsAssemblyError(m0, decode, 17 + |ExtraPlan(m0.Keys)|, |plan|, e);
    }
    AssemblyErrorCause(m0, decode, e);
  }

  /** An assembly fails exactly when a check fails or a present table of the plan does not decode. */
  lemma AssemblyErrorCause<D>(m0: map<Tag, Entry<D>>, decode: Decoder<D>, e: ReadError)
    requires AssemblyError(m0, decode, e)
    ensures ExpectedError(m0.Keys).Some? || !DecodesAll(m0, decode, Plan(m0.Keys))
    ensures ErrorExplained(m0, decode, e)
  {
    var plan := Plan(m0.Keys);
    PlanLayout(m0.Keys);
    if j :| 0 <= j < |plan| && FailsFirstAt(m0, decode, plan, j, e) {
      assert plan[j] in plan;
    }
  }

  /** A successful request's answer agrees with the directory: absent exactly when the tag is, otherwise decoded. */
  ghost predicate Agrees<D>(m0: map<Tag, Entry<D>>, decode: Decoder<D>, tag: Tag, r: Resolution<D>)
  {
    !r.Failed? && (r.Absent? <==> tag !in m0) &&
    (r.Resolved? ==> tag in m0 && decode(m0[tag].header) == Some(r.table))
  }

  /** Adds a resolved table to the typeface's tables. */
  function Attach<D>(owned: map<Tag, D>, tag: Tag, r: Resolution<D>): map<Tag, D>
  {
    if r.Resolved? then owned[tag := r.table] else owned
  }

  lemma AttachDecoded<D>(m0: map<Tag, Entry<D>>, decode: Decoder<D>, tags: set<Tag>,
                         owned: map<Tag, D>, tag: Tag, r: Resolution<D>)
    requires owned == DecodedAmong(m0, decode, tags)
    requires Agrees(m0, decode, tag, r)
    ensures Attach(owned, tag, r) == DecodedAmong(m0, decode, tags + {tag})
  {
  }

  /**
   * One request of the assembly: the `k`-th tag of the plan, with what it
   * means for the registry read from the directory and for the trace.
   */
  method Request<D>(tables: TableEntryCollection<D>, tag: Tag, decode: Decoder<D>,
                    ghost m0: map<Tag, Entry<D>>, ghost r0: seq<Tag>, ghost plan: seq<Tag>, ghost k: nat)
    returns (r: Resolution<D>)
    requires AllUnread(m0) && NoRepeats(plan) && k < |plan| && plan[k] == tag
    requires tables.requested == r0 + plan[..k] && tables.entries == Updated(m0, plan[..k], decode)
    requires DecodesAll(m0, decode, plan[..k])
    modifies tables
    ensures tables.requested == r0 + plan[..k + 1]
    ensures r.Failed? ==> r.error == DecodeFailed(tag) && tag in m0 && decode(m0[tag].header).None?
    ensures r.Failed? ==> FailsFirstAt(m0, decode, plan, k, r.error)
    ensures !r.Failed? ==> Agrees(m0, decode, tag, r) && tables.entries == Updated(m0, plan[..k + 1], decode)
    ensures !r.Failed? ==> DecodesAll(m0, decode, plan[..k + 1])
  {
    assert tag !in plan[..k];
    r := tables.ReadTableIfExists(tag, decode);
    assert plan[..k + 1] == plan[..k] + [tag];
    if !r.Failed? {
      assert tables.entries == Updated(m0, plan[..k + 1], decode);
    }
  }

  /** The registry and the trace after the first `k` requests of `plan`. */
  ghost predicate AtStep<D>(tables: TableEntryCollection<D>, m0: map<Tag, Entry<D>>, decode: Decoder<D>,
                            r0: seq<Tag>, plan: seq<Tag>, k: nat)
    reads tables
  {
    k <= |plan| && tables.requested == r0 + plan[..k] && tables.entries == Updated(m0, plan[..k], decode) &&
    DecodesAll(m0, decode, plan[..k])
  }

  /** `phase` is what `plan` requests from position `k` on. */
  ghost predicate PhaseAt(plan: seq<Tag>, k: nat, phase: seq<Tag>)
  {
    k + |phase| <= |plan| && plan[k..k + |phase|] == phase
  }

  /** The answers to the naming and header requests. */
  datatype HeaderTables<D> = HeaderTables(
    os2: Resolution<D>, name: Resolution<D>, head: Resolution<D>, maxp: Resolution<D>, hhea: Resolution<D>)

  ghost predicate HeadersAgree<D>(m0: map<Tag, Entry<D>>, decode: Decoder<D>, h: HeaderTables<D>)
  {
    Agrees(m0, decode, OS2, h.os2) && Agrees(m0, decode, NAME, h.name) && Agrees(m0, decode, HEAD, h.head) &&
    Agrees(m0, decode, MAXP, h.maxp) && Agrees(m0, decode, HHEA, h.hhea)
  }

  /** First phase: 'OS/2', 'name', 'head', 'maxp', 'hhea'; only a decoder can fail here. */
  method ReadHeaderTables<D>(tables: TableEntryCollection<D>, decode: Decoder<D>, ghost m0: map<Tag, Entry<D>>,
                             ghost r0: seq<Tag>, ghost plan: seq<Tag>, ghost k: nat)
    returns (r: Result<HeaderTables<D>, ReadError>)
    requires AllUnread(m0) && NoRepeats(plan) && PhaseAt(plan, k, HEADER_PLAN) && AtStep(tables, m0, decode, r0, plan, k)
    modifies tables
    ensures r.Err? ==> DecodeFailure(m0, decode, r.error) && FailsFirstIn(m0, decode, plan, k, k + |HEADER_PLAN|, r.error)
    ensures r.Ok? ==> AtStep(tables, m0, decode, r0, plan, k + |HEADER_PLAN|) && HeadersAgree(m0, decode, r.value)
  {
    assert plan[k] == OS2 && plan[k + 1] == NAME && plan[k + 2] == HEAD && plan[k + 3] == MAXP && plan[k + 4] == HHEA;
    var os2 := Request(tables, OS2, decode, m0, r0, plan, k);
    if os2.Failed? { return Err(os2.error); }
    var name := Request(tables, NAME, decode, m0, r0, plan, k + 1);
    if name.Failed? { return Err(name.error); }
    var head := Request(tables, HEAD, decode, m0, r0, plan, k + 2);
    if head.Failed? { return Err(head.error); }
    var maxp := Request(tables, MAXP, decode, m0, r0, plan, k + 3);
    if maxp.Failed? { return Err(maxp.error); }
    var hhea := Request(tables, HHEA, decode, m0, r0, plan, k + 4);
    if hhea.Failed? { return Err(hhea.error); }
    r := Ok(HeaderTables(os2, name, head, maxp, hhea));
  }

  /** The answers to the metrics, PostScript outline and character-map requests. */
  datatype MetricTables<D> = MetricTables(
    hmtx: Resolution<D>, post: Resolution<D>, cff: Resolution<D>, cmap: Resolution<D>)

  ghost predicate MetricsAgree<D>(m0: map<Tag, Entry<D>>, decode: Decoder<D>, m: MetricTables<D>)
  {
    Agrees(m0, decode, HMTX, m.hmtx) && Agrees(m0, decode, POST, m.post) &&
    Agrees(m0, decode, CFF, m.cff) && Agrees(m0, decode, CMAP, m.cmap)
  }

  /**
   * Second phase: 'hmtx', 'post', 'CFF ', 'cmap'. The horizontal metrics are
   * sized from 'hhea' and 'maxp', so a missing one of those aborts the read
   * before 'hmtx' is requested.
   */
  method ReadMetricTables<D>(tables: TableEntryCollection<D>, decode: Decoder<D>, ghost m0: map<Tag, Entry<D>>,
                             ghost r0: seq<Tag>, ghost plan: seq<Tag>, ghost k: nat, h: HeaderTables<D>)
    returns (r: Result<MetricTables<D>, ReadError>)
    requires AllUnread(m0) && NoRepeats(plan) && PhaseAt(plan, k, METRIC_PLAN) && AtStep(tables, m0, decode, r0, plan, k)
    requires HeadersAgree(m0, decode, h)
    modifies tables
    ensures r.Err? ==> ErrorExplained(m0, decode, r.error)
    ensures AllDecode(m0, decode) ==>
      (r.Err? <==> HHEA !in m0 || MAXP !in m0) && (r.Err? ==> Some(r.error) == ExpectedError(m0.Keys))
    ensures r.Err? ==>
      (ExpectedError(m0.Keys) == Some(r.error) && r.error.MissingTable? && r.error.tag != HEAD) ||
      (HHEA in m0 && MAXP in m0 && FailsFirstIn(m0, decode, plan, k, k + |METRIC_PLAN|, r.error))
    ensures r.Ok? ==>
      HHEA in m0 && MAXP in m0 &&
      AtStep(tables, m0, decode, r0, plan, k + |METRIC_PLAN|) && MetricsAgree(m0, decode, r.value)
  {
    if h.hhea.Absent? { return Err(MissingTable(HHEA)); }
    if h.maxp.Absent? { return Err(MissingTable(MAXP)); }
    assert plan[k] == HMTX && plan[k + 1] == POST && plan[k + 2] == CFF && plan[k + 3] == CMAP;
    var hmtx := Request(tables, HMTX, decode, m0, r0, plan, k);
    if hmtx.Failed? { return Err(hmtx.error); }
    var post := Request(tables, POST, decode, m0, r0, plan, k + 1);
    if post.Failed? { return Err(post.error); }
    var cff := Request(tables, CFF, decode, m0, r0, plan, k + 2);
    if cff.Failed? { return Err(cff.error); }
    var cmap := Request(tables, CMAP, decode, m0, r0, plan, k + 3);
    if cmap.Failed? { return Err(cmap.error); }
    r := Ok(MetricTables(hmtx, post, cff, cmap));
  }

  /** The answers to the glyph location and glyph data requests. */
  datatype GlyphTables<D> = GlyphTables(loca: Resolution<D>, glyf: Resolution<D>)

  /**
   * Third phase: 'loca' and 'glyf'. The glyph locations are sized from
   * 'maxp' and read in the width 'head' names, so a missing 'head' aborts
   * the read before 'loca' is requested.
   */
  method ReadGlyphTables<D>(tables: TableEntryCollection<D>, decode: Decoder<D>, ghost m0: map<Tag, Entry<D>>,
                            ghost r0: seq<Tag>, ghost plan: seq<Tag>, ghost k: nat, h: HeaderTables<D>)
    returns (r: Result<GlyphTables<D>, ReadError>)
    requires AllUnread(m0) && NoRepeats(plan) && PhaseAt(plan, k, GLYPH_PLAN) && AtStep(tables, m0, decode, r0, plan, k)
    requires HeadersAgree(m0, decode, h) && HHEA in m0 && MAXP in m0
    modifies tables
    ensures r.Err? ==> ErrorExplained(m0, decode, r.error)
    ensures AllDecode(m0, decode) ==>
      (r.Err? <==> HEAD !in m0) && (r.Err? ==> Some(r.error) == ExpectedError(m0.Keys))
    ensures r.Err? ==>
      (ExpectedError(m0.Keys) == Some(r.error) && r.error == MissingTable(HEAD)) ||
      (HEAD in m0 && FailsFirstIn(m0, decode, plan, k, k + |GLYPH_PLAN|, r.error))
    ensures r.Ok? ==>
      HEAD in m0 && AtStep(tables, m0, decode, r0, plan, k + |GLYPH_PLAN|) &&
      Agrees(m0, decode, LOCA, r.value.loca) && Agrees(m0, decode, GLYF, r.value.glyf)
  {
    if h.head.Absent? { return Err(MissingTable(HEAD)); }
    assert plan[k] == LOCA && plan[k + 1] == GLYF;
    var loca := Request(tables, LOCA, decode, m0, r0, plan, k);
    if loca.Failed? { return Err(loca.error); }
    var glyf := Request(tables, GLYF, decode, m0, r0, plan, k + 1);
    if glyf.Failed? { return Err(glyf.error); }
    r := Ok(GlyphTables(loca, glyf));
  }

  /** The answers to the grid-fitting, kerning and layout requests. */
  datatype LayoutTables<D> = LayoutTables(
    gasp: Resolution<D>, vdmx: Resolution<D>, kern: Resolution<D>,
    gdef: Resolution<D>, gsub: Resolution<D>, gpos: Resolution<D>)

  ghost predicate LayoutAgrees<D>(m0: map<Tag, Entry<D>>, decode: Decoder<D>, l: LayoutTables<D>)
  {
    Agrees(m0, decode, GASP, l.gasp) && Agrees(m0, decode, VDMX, l.vdmx) && Agrees(m0, decode, KERN, l.kern) &&
    Agrees(m0, decode, GDEF, l.gdef) && Agrees(m0, decode, GSUB, l.gsub) && Agrees(m0, decode, GPOS, l.gpos)
  }

  /** Fourth phase: 'gasp', 'VDMX', 'kern', 'GDEF', 'GSUB', 'GPOS'; only a decoder can fail here. */
  method ReadLayoutTables<D>(tables: TableEntryCollection<D>, decode: Decoder<D>, ghost m0: map<Tag, Entry<D>>,
                             ghost r0: seq<Tag>, ghost plan: seq<Tag>, ghost k: nat)
    returns (r: Result<LayoutTables<D>, ReadError>)
    requires AllUnread(m0) && NoRepeats(plan) && PhaseAt(plan, k, LAYOUT_PLAN) && AtStep(tables, m0, decode, r0, plan, k)
    modifies tables
    ensures r.Err? ==> DecodeFailure(m0, decode, r.error) && FailsFirstIn(m0, decode, plan, k, k + |LAYOUT_PLAN|, r.error)
    ensures r.Ok? ==> AtStep(tables, m0, decode, r0, plan, k + |LAYOUT_PLAN|) && LayoutAgrees(m0, decode, r.value)
  {
    assert plan[k] == GASP && plan[k + 1] == VDMX && plan[k + 2] == KERN;
    assert plan[k + 3] == GDEF && plan[k + 4] == GSUB && plan[k + 5] == GPOS;
    var gasp := Request(tables, GASP, decode, m0, r0, plan, k);
    if gasp.Failed? { return Err(gasp.error); }
    var vdmx := Request(tables, VDMX, decode, m0, r0, plan, k + 1);
    if vdmx.Failed? { return Err(vdmx.error); }
    var kern := Request(tables, KERN, decode, m0, r0, plan, k + 2);
    if kern.Failed? { return Err(kern.error); }
    var gdef := Request(tables, GDEF, decode, m0, r0, plan, k + 3);
    if gdef.Failed? { return Err(gdef.error); }
    var gsub := Request(tables, GSUB, decode, m0, r0, plan, k + 4);
    if gsub.Failed? { return Err(gsub.error); }
    var gpos := Request(tables, GPOS, decode, m0, r0, plan, k + 5);
    if gpos.Failed? { return Err(gpos.error); }
    r := Ok(LayoutTables(gasp, vdmx, kern, gdef, gsub, gpos));
  }

  /** The answers to the remaining auxiliary requests; `vmtx` is `Absent` when it was not requested. */
  datatype ExtraTables<D> = ExtraTables(
    base: Resolution<D>, colr: Resolution<D>, cpal: Resolution<D>, vhea: Resolution<D>,
    vmtx: Resolution<D>, math: Resolution<D>, eblc: Resolution<D>)

  ghost predicate ExtrasAgree<D>(m0: map<Tag, Entry<D>>, decode: Decoder<D>, e: ExtraTables<D>)
  {
    Agrees(m0, decode, BASE, e.base) && Agrees(m0, decode, COLR, e.colr) && Agrees(m0, decode, CPAL, e.cpal) &&
    Agrees(m0, decode, VHEA, e.vhea) && (VHEA in m0 ==> Agrees(m0, decode, VMTX, e.vmtx)) &&
    Agrees(m0, decode, MATH, e.math) && Agrees(m0, decode, EBLC, e.eblc)
  }

  /**
   * Fifth phase: 'BASE', 'COLR', 'CPAL', 'vhea', then 'vmtx' only when a
   * vertical header was found (its metric count sizes the vertical metrics),
   * then 'MATH' and 'EBLC'; only a decoder can fail here.
   */
  method ReadExtraTables<D>(tables: TableEntryCollection<D>, decode: Decoder<D>, ghost m0: map<Tag, Entry<D>>,
                            ghost r0: seq<Tag>, ghost plan: seq<Tag>, ghost k: nat)
    returns (r: Result<ExtraTables<D>, ReadError>)
    requires AllUnread(m0) && NoRepeats(plan) && PhaseAt(plan, k, ExtraPlan(m0.Keys))
    requires AtStep(tables, m0, decode, r0, plan, k)
    modifies tables
    ensures r.Err? ==> DecodeFailure(m0, decode, r.error)
    ensures r.Err? ==> FailsFirstIn(m0, decode, plan, k, k + |ExtraPlan(m0.Keys)|, r.error)
    ensures r.Ok? ==> AtStep(tables, m0, decode, r0, plan, k + |ExtraPlan(m0.Keys)|) && ExtrasAgree(m0, decode, r.value)
  {
    ghost var n := if VHEA in m0 then 5 else 4;
    assert plan[k] == BASE && plan[k + 1] == COLR && plan[k + 2] == CPAL && plan[k + 3] == VHEA;
    assert plan[k + n] == MATH && plan[k + n + 1] == EBLC && k + n + 2 == k + |ExtraPlan(m0.Keys)|;
    var base := Request(tables, BASE, decode, m0, r0, plan, k);
    if base.Failed? { return Err(base.error); }
    var colr := Request(tables, COLR, decode, m0, r0, plan, k + 1);
    if colr.Failed? { return Err(colr.error); }
    var cpal := Request(tables, CPAL, decode, m0, r0, plan, k + 2);
    if cpal.Failed? { return Err(cpal.error); }
    var vhea := Request(tables, VHEA, decode, m0, r0, plan, k + 3);
    if vhea.Failed? { return Err(vhea.error); }
    var vmtx: Resolution<D> := Absent;
    if vhea.Resolved? {
      assert plan[k + 4] == VMTX;
      vmtx := Request(tables, VMTX, decode, m0, r0, plan, k + 4);
      if vmtx.Failed? { return Err(vmtx.error); }
    }
    var math := Request(tables, MATH, decode, m0, r0, plan, k + n);
    if math.Failed? { return Err(math.error); }
    var eblc := Request(tables, EBLC, decode, m0, r0, plan, k + n + 1);
    if eblc.Failed? { return Err(eblc.error); }
    r := Ok(ExtraTables(base, colr, cpal, vhea, vmtx, math, eblc));
  }

  /** The answers to the TrueType hinting requests. */
  datatype HintingTables<D> = HintingTables(fpgm: Resolution<D>, cvt: Resolution<D>, prep: Resolution<D>)

  ghost predicate HintsAgree<D>(m0: map<Tag, Entry<D>>, decode: Decoder<D>, hint: HintingTables<D>)
  {
    Agrees(m0, decode, FPGM, hint.fpgm) && Agrees(m0, decode, CVT, hint.cvt) && Agrees(m0, decode, PREP, hint.prep)
  }

  /** Sixth phase, for TrueType outlines only: 'fpgm', 'cvt ', 'prep'; only a decoder can fail here. */
  method ReadHintingTables<D>(tables: TableEntryCollection<D>, decode: Decoder<D>, ghost m0: map<Tag, Entry<D>>,
                              ghost r0: seq<Tag>, ghost plan: seq<Tag>, ghost k: nat)
    returns (r: Result<HintingTables<D>, ReadError>)
    requires AllUnread(m0) && NoRepeats(plan) && PhaseAt(plan, k, HintingPlan(true))
    requires AtStep(tables, m0, decode, r0, plan, k)
    modifies tables
    ensures r.Err? ==> DecodeFailure(m0, decode, r.error) && FailsFirstIn(m0, decode, plan, k, k + 3, r.error)
    ensures r.Ok? ==>
      AtStep(tables, m0, decode, r0, plan, k + |HintingPlan(true)|) && HintsAgree(m0, decode, r.value)
  {
    assert plan[k] == FPGM && plan[k + 1] == CVT && plan[k + 2] == PREP;
    var fpgm := Request(tables, FPGM, decode, m0, r0, plan, k);
    if fpgm.Failed? { return Err(fpgm.error); }
    var cvt := Request(tables, CVT, decode, m0, r0, plan, k + 1);
    if cvt.Failed? { return Err(cvt.error); }
    var prep := Request(tables, PREP, decode, m0, r0, plan, k + 2);
    if prep.Failed? { return Err(prep.error); }
    r := Ok(HintingTables(fpgm, cvt, prep));
  }

  /**
   * The tables handed to a typeface, attached in the order the assembly
   * hands them over: naming, header and metrics with the typeface itself,
   * then the character map, kerning, grid-fitting, profile and horizontal
   * header, the hinting tables for TrueType outlines, the layout tables,
   * the SVG glyphs and the PostScript names.
   */
  function TypefaceTables<D>(h: HeaderTables<D>, m: MetricTables<D>, l: LayoutTables<D>, e: ExtraTables<D>,
                             trueType: bool, hint: HintingTables<D>, svg: Resolution<D>): map<Tag, D>
  {
    LateTables(HintedTables(BasicTables(h, m, l), trueType, hint), l, e, svg, m.post)
  }

  function BasicTables<D>(h: HeaderTables<D>, m: MetricTables<D>, l: LayoutTables<D>): map<Tag, D>
  {
    var created := Attach(Attach(Attach(Attach(map[], NAME, h.name), HEAD, h.head), HMTX, m.hmtx), OS2, h.os2);
    Attach(Attach(Attach(Attach(Attach(created, CMAP, m.cmap), KERN, l.kern), GASP, l.gasp), MAXP, h.maxp),
           HHEA, h.hhea)
  }

  function HintedTables<D>(owned: map<Tag, D>, trueType: bool, hint: HintingTables<D>): map<Tag, D>
  {
    if trueType then Attach(Attach(Attach(owned, CVT, hint.cvt), FPGM, hint.fpgm), PREP, hint.prep)
    else owned
  }

  function LateTables<D>(owned: map<Tag, D>, l: LayoutTables<D>, e: ExtraTables<D>, svg: Resolution<D>,
                         post: Resolution<D>): map<Tag, D>
  {
    var layout := Attach(Attach(Attach(Attach(Attach(Attach(owned, GDEF, l.gdef), GSUB, l.gsub), GPOS, l.gpos),
                                       BASE, e.base), COLR, e.colr), CPAL, e.cpal);
    Attach(Attach(layout, SVG, svg), POST, post)
  }

  lemma BasicTablesDecoded<D>(m0: map<Tag, Entry<D>>, decode: Decoder<D>,
                              h: HeaderTables<D>, m: MetricTables<D>, l: LayoutTables<D>)
    requires HeadersAgree(m0, decode, h) && MetricsAgree(m0, decode, m) && LayoutAgrees(m0, decode, l)
    ensures BasicTables(h, m, l) == DecodedAmong(m0, decode, BASIC_TAGS)
  {
    var o: map<Tag, D> := map[];
    ghost var tags: set<Tag> := {};
    assert o == DecodedAmong(m0, decode, tags);
    AttachDecoded(m0, decode, tags, o, NAME, h.name);
    o, tags := Attach(o, NAME, h.name), tags + {NAME};
    AttachDecoded(m0, decode, tags, o, HEAD, h.head);
    o, tags := Attach(o, HEAD, h.head), tags + {HEAD};
    AttachDecoded(m0, decode, tags, o, HMTX, m.hmtx);
    o, tags := Attach(o, HMTX, m.hmtx), tags + {HMTX};
    AttachDecoded(m0, decode, tags, o, OS2, h.os2);
    o, tags := Attach(o, OS2, h.os2), tags + {OS2};
    AttachDecoded(m0, decode, tags, o, CMAP, m.cmap);
    o, tags := Attach(o, CMAP, m.cmap), tags + {CMAP};
    AttachDecoded(m0, decode, tags, o, KERN, l.kern);
    o, tags := Attach(o, KERN, l.kern), tags + {KERN};
    AttachDecoded(m0, decode, tags, o, GASP, l.gasp);
    o, tags := Attach(o, GASP, l.gasp), tags + {GASP};
    AttachDecoded(m0, decode, tags, o, MAXP, h.maxp);
    o, tags := Attach(o, MAXP, h.maxp), tags + {MAXP};
    AttachDecoded(m0, decode, tags, o, HHEA, h.hhea);
    o, tags := Attach(o, HHEA, h.hhea), tags + {HHEA};
    assert tags == BASIC_TAGS;
  }

  lemma HintedTablesDecoded<D>(m0: map<Tag, Entry<D>>, decode: Decoder<D>, tags: set<Tag>, owned: map<Tag, D>,
                               trueType: bool, hint: HintingTables<D>)
    requires owned == DecodedAmong(m0, decode, tags)
    requires trueType ==> HintsAgree(m0, decode, hint)
    ensures HintedTables(owned, trueType, hint) == DecodedAmong(m0, decode, tags + (if trueType then HINT_TAGS else {}))
  {
    if trueType {
      AttachDecoded(m0, decode, tags, owned, CVT, hint.cvt);
      var o := Attach(owned, CVT, hint.cvt);
      AttachDecoded(m0, decode, tags + {CVT}, o, FPGM, hint.fpgm);
      o := Attach(o, FPGM, hint.fpgm);
      AttachDecoded(m0, decode, tags + {CVT} + {FPGM}, o, PREP, hint.prep);
      assert tags + {CVT} + {FPGM} + {PREP} == tags + HINT_TAGS;
    } else {
      assert tags + {} == tags;
    }
  }

  lemma UnionOfSingletons(s: set<Tag>, a: Tag, b: Tag, c: Tag, d: Tag, e: Tag, f: Tag, g: Tag, h: Tag)
    ensures s + {a} + {b} + {c} + {d} + {e} + {f} + {g} + {h} == s + {a, b, c, d, e, f, g, h}
  {
  }

  lemma LateTablesDecoded<D>(m0: map<Tag, Entry<D>>, decode: Decoder<D>, tags: set<Tag>, owned: map<Tag, D>,
                             l: LayoutTables<D>, e: ExtraTables<D>, svg: Resolution<D>, post: Resolution<D>)
    requires owned == DecodedAmong(m0, decode, tags)
    requires LayoutAgrees(m0, decode, l) && ExtrasAgree(m0, decode, e)
    requires Agrees(m0, decode, SVG, svg) && Agrees(m0, decode, POST, post)
    ensures LateTables(owned, l, e, svg, post) == DecodedAmong(m0, decode, tags + LATE_TAGS)
  {
    var o := owned;
    ghost var t := tags;
    AttachDecoded(m0, decode, t, o, GDEF, l.gdef);
    o, t := Attach(o, GDEF, l.gdef), t + {GDEF};
    AttachDecoded(m0, decode, t, o, GSUB, l.gsub);
    o, t := Attach(o, GSUB, l.gsub), t + {GSUB};
    AttachDecoded(m0, decode, t, o, GPOS, l.gpos);
    o, t := Attach(o, GPOS, l.gpos), t + {GPOS};
    AttachDecoded(m0, decode, t, o, BASE, e.base);
    o, t := Attach(o, BASE, e.base), t + {BASE};
    AttachDecoded(m0, decode, t, o, COLR, e.colr);
    o, t := Attach(o, COLR, e.colr), t + {COLR};
    AttachDecoded(m0, decode, t, o, CPAL, e.cpal);
    o, t := Attach(o, CPAL, e.cpal), t + {CPAL};
    AttachDecoded(m0, decode, t, o, SVG, svg);
    o, t := Attach(o, SVG, svg), t + {SVG};
    AttachDecoded(m0, decode, t, o, POST, post);
    UnionOfSingletons(tags, GDEF, GSUB, GPOS, BASE, COLR, CPAL, SVG, POST);
  }

  /** The typeface receives exactly the decoded tables among those it keeps. */
  lemma TypefaceTablesDecoded<D>(m0: map<Tag, Entry<D>>, decode: Decoder<D>, trueType: bool,
                                 h: HeaderTables<D>, m: MetricTables<D>, l: LayoutTables<D>, e: ExtraTables<D>,
                                 hint: HintingTables<D>, svg: Resolution<D>)
    requires HeadersAgree(m0, decode, h) && MetricsAgree(m0, decode, m)
    requires LayoutAgrees(m0, decode, l) && ExtrasAgree(m0, decode, e) && Agrees(m0, decode, SVG, svg)
    requires trueType ==> HintsAgree(m0, decode, hint)
    ensures TypefaceTables(h, m, l, e, trueType, hint, svg) == DecodedAmong(m0, decode, AttachedTags(trueType))
  {
    BasicTablesDecoded(m0, decode, h, m, l);
    var basic := BasicTables(h, m, l);
    HintedTablesDecoded(m0, decode, BASIC_TAGS, basic, trueType, hint);
    var hinted := HintedTables(basic, trueType, hint);
    LateTablesDecoded(m0, decode, BASIC_TAGS + (if trueType then HINT_TAGS else {}), hinted, l, e, svg, m.post);
  }

  /** The answers to the requests every font needs. */
  datatype RequiredTables<D> = RequiredTables(h: HeaderTables<D>, m: MetricTables<D>, g: GlyphTables<D>)

  /**
   * The first three phases: every error that is not a decoder failure
   * arises here, in the order 'hhea', 'maxp', 'head'.
   */
  method ReadRequiredTables<D>(tables: TableEntryCollection<D>, decode: Decoder<D>, ghost m0: map<Tag, Entry<D>>,
                               ghost r0: seq<Tag>, ghost plan: seq<Tag>)
    returns (r: Result<RequiredTables<D>, ReadError>)
    requires AllUnread(m0) && NoRepeats(plan) && AtStep(tables, m0, decode, r0, plan, 0)
    requires PhaseAt(plan, 0, HEADER_PLAN) && PhaseAt(plan, 5, METRIC_PLAN) && PhaseAt(plan, 9, GLYPH_PLAN)
    modifies tables
    ensures r.Err? ==> ErrorExplained(m0, decode, r.error)
    ensures AllDecode(m0, decode) ==>
      (r.Err? <==> HHEA !in m0 || MAXP !in m0 || HEAD !in m0) && (r.Err? ==> Some(r.error) == ExpectedError(m0.Keys))
    ensures r.Err? ==>
      FailsFirstIn(m0, decode, plan, 0, 5, r.error) ||
      (DecodesAll(m0, decode, plan[..5]) && ExpectedError(m0.Keys) == Some(r.error) &&
       r.error.MissingTable? && r.error.tag != HEAD) ||
      (HHEA in m0 && MAXP in m0 && FailsFirstIn(m0, decode, plan, 5, 9, r.error)) ||
      (DecodesAll(m0, decode, plan[..9]) && ExpectedError(m0.Keys) == Some(r.error) && r.error == MissingTable(HEAD)) ||
      (HHEA in m0 && MAXP in m0 && HEAD in m0 && FailsFirstIn(m0, decode, plan, 9, 11, r.error))
    ensures r.Ok? ==>
      HHEA in m0 && MAXP in m0 && HEAD in m0 && AtStep(tables, m0, decode, r0, plan, 11) &&
      HeadersAgree(m0, decode, r.value.h) && MetricsAgree(m0, decode, r.value.m) &&
      Agrees(m0, decode, LOCA, r.value.g.loca) && Agrees(m0, decode, GLYF, r.value.g.glyf)
  {
    var hr := ReadHeaderTables(tables, decode, m0, r0, plan, 0);
    if hr.Err? { return Err(hr.error); }
    var mr := ReadMetricTables(tables, decode, m0, r0, plan, 5, hr.value);
    if mr.Err? { return Err(mr.error); }
    var gr := ReadGlyphTables(tables, decode, m0, r0, plan, 9, hr.value);
    if gr.Err? { return Err(gr.error); }
    r := Ok(RequiredTables(hr.value, mr.value, gr.value));
  }

  /** The answers to the auxiliary requests. */
  datatype OptionalTables<D> = OptionalTables(l: LayoutTables<D>, e: ExtraTables<D>)

  /** The fourth and fifth phases; only a decoder can fail here. */
  method ReadOptionalTables<D>(tables: TableEntryCollection<D>, decode: Decoder<D>, ghost m0: map<Tag, Entry<D>>,
                               ghost r0: seq<Tag>, ghost plan: seq<Tag>)
    returns (r: Result<OptionalTables<D>, ReadError>)
    requires AllUnread(m0) && NoRepeats(plan) && AtStep(tables, m0, decode, r0, plan, 11)
    requires PhaseAt(plan, 11, LAYOUT_PLAN) && PhaseAt(plan, 17, ExtraPlan(m0.Keys))
    modifies tables
    ensures r.Err? ==> DecodeFailure(m0, decode, r.error)
    ensures r.Err? ==> FailsFirstIn(m0, decode, plan, 11, 17 + |ExtraPlan(m0.Keys)|, r.error)
    ensures r.Ok? ==>
      AtStep(tables, m0, decode, r0, plan, 17 + |ExtraPlan(m0.Keys)|) &&
      LayoutAgrees(m0, decode, r.value.l) && ExtrasAgree(m0, decode, r.value.e)
  {
    var lr := ReadLayoutTables(tables, decode, m0, r0, plan, 11);
    if lr.Err? { return Err(lr.error); }
    var er := ReadExtraTables(tables, decode, m0, r0, plan, 17);
    if er.Err? { return Err(er.error); }
    r := Ok(OptionalTables(lr.value, er.value));
  }

  /**
   * Decodes one font from its freshly read registry, requesting the tables in
   * the order of `Plan`. Success needs 'head', 'maxp', 'hhea' and an outline
   * table; 'glyf' is chosen over 'CFF ' when both are present. An error is
   * a decoder failure, a missing table another step dereferences, or a font
   * without outlines; a table is never decoded twice.
   */
  method ReadTableEntryCollection<D>(tables: TableEntryCollection<D>, decode: Decoder<D>)
    returns (r: Result<Typeface<D>, ReadError>)
    requires AllUnread(tables.entries)
    modifies tables
    ensures r.Err? ==> ErrorExplained(old(tables.entries), decode, r.error)
    ensures AllDecode(old(tables.entries), decode) ==>
      r.Err? == ExpectedError(old(tables.entries).Keys).Some? &&
      (r.Err? ==> Some(r.error) == ExpectedError(old(tables.entries).Keys))
    ensures r.Err? ==> AssemblyError(old(tables.entries), decode, r.error)
    ensures r.Err? <==>
      ExpectedError(old(tables.entries).Keys).Some? ||
      !DecodesAll(old(tables.entries), decode, Plan(old(tables.entries).Keys))
    ensures r.Ok? ==> ExpectedError(old(tables.entries).Keys).None?
    ensures r.Ok? ==> tables.requested == old(tables.requested) + Plan(old(tables.entries).Keys)
    ensures r.Ok? ==> tables.entries == Updated(old(tables.entries), Plan(old(tables.entries).Keys), decode)
    ensures r.Ok? ==> Assembled(old(tables.entries), decode, r.value)
  {
    ghost var m0 := tables.entries;
    ghost var r0 := tables.requested;
    ghost var plan := Plan(m0.Keys);
    PlanDistinct(m0.Keys);
    PlanLayout(m0.Keys);
    assert plan[..0] == [];
    assert tables.entries == Updated(m0, plan[..0], decode);

    var required := ReadRequiredTables(tables, decode, m0, r0, plan);
    if required.Err? {
      RequiredErrorIsAssemblyError(m0, decode, required.error);
      return Err(required.error);
    }
    var optional := ReadOptionalTables(tables, decode, m0, r0, plan);
    if optional.Err? {
      FailureIsAssemblyError(m0, decode, 11, 17 + |ExtraPlan(m0.Keys)|, optional.error);
      AssemblyErrorCause(m0, decode, optional.error);
      return Err(optional.error);
    }
    assert DecodesAll(m0, decode, plan[..17 + |ExtraPlan(m0.Keys)|]);
    r := FinishTypeface(tables, decode, m0, r0, plan, required.value, optional.value);
    if r.Err? {
      ClosingErrorIsAssemblyError(m0, decode, r.error);
    }
  }

  /**
   * The last steps of the assembly: choose the outline, read the hinting
   * tables for TrueType outlines and the SVG glyphs, and hand the tables to
   * the typeface.
   */
  method FinishTypeface<D>(tables: TableEntryCollection<D>, decode: Decoder<D>, ghost m0: map<Tag, Entry<D>>,
                           ghost r0: seq<Tag>, ghost plan: seq<Tag>, req: RequiredTables<D>, opt: OptionalTables<D>)
    returns (r: Result<Typeface<D>, ReadError>)
    requires AllUnread(m0) && NoRepeats(plan) && plan == Plan(m0.Keys)
    requires AtStep(tables, m0, decode, r0, plan, 17 + |ExtraPlan(m0.Keys)|)
    requires PhaseAt(plan, 17 + |ExtraPlan(m0.Keys)|, HintingPlan(GLYF in m0))
    requires |plan| == 17 + |ExtraPlan(m0.Keys)| + |HintingPlan(GLYF in m0)| + 1 && plan[|plan| - 1] == SVG
    requires HeadersAgree(m0, decode, req.h) && MetricsAgree(m0, decode, req.m)
    requires Agrees(m0, decode, LOCA, req.g.loca) && Agrees(m0, decode, GLYF, req.g.glyf)
    requires LayoutAgrees(m0, decode, opt.l) && ExtrasAgree(m0, decode, opt.e)
    modifies tables
    ensures r.Err? ==> DecodeFailure(m0, decode, r.error) || (r.error == NoOutlines && GLYF !in m0 && CFF !in m0)
    ensures AllDecode(m0, decode) ==> (r.Err? <==> GLYF !in m0 && CFF !in m0) && (r.Err? ==> r.error == NoOutlines)
    ensures r.Err? ==>
      (r.error == NoOutlines && GLYF !in m0 && CFF !in m0) ||
      ((GLYF in m0 || CFF in m0) && FailsFirstIn(m0, decode, plan, 17 + |ExtraPlan(m0.Keys)|, |plan|, r.error))
    ensures r.Ok? ==> DecodesAll(m0, decode, plan)
    ensures r.Ok? ==> tables.requested == r0 + plan && tables.entries == Updated(m0, plan, decode)
    ensures r.Ok? ==> Assembled(m0, decode, r.value)
  {
    var RequiredTables(h, m, g) := req;
    var OptionalTables(l, e) := opt;

    var outline: Outline<D>;
    if g.glyf.Absent? {
      if m.cff.Absent? { return Err(NoOutlines); }
      outline := PostScript(m.cff.table);
    } else {
      outline := TrueType(g.glyf.table);
    }

    assert outline.TrueType? == (GLYF in m0);
    var closing := ReadClosingTables(tables, decode, m0, r0, plan, 17 + |ExtraPlan(m0.Keys)|, outline.TrueType?);
    if closing.Err? { return Err(closing.error); }
    var (hint, svg) := closing.value;
    TypefaceTablesDecoded(m0, decode, outline.TrueType?, h, m, l, e, hint, svg);
    r := Ok(Typeface(outline, TypefaceTables(h, m, l, e, outline.TrueType?, hint, svg)));
  }

  /**
   * The closing requests: the hinting tables when the outline is TrueType,
   * then the SVG glyphs, which end the plan.
   */
  method ReadClosingTables<D>(tables: TableEntryCollection<D>, decode: Decoder<D>, ghost m0: map<Tag, Entry<D>>,
                              ghost r0: seq<Tag>, ghost plan: seq<Tag>, ghost k: nat, trueType: bool)
    returns (r: Result<(HintingTables<D>, Resolution<D>), ReadError>)
    requires AllUnread(m0) && NoRepeats(plan) && AtStep(tables, m0, decode, r0, plan, k)
    requires PhaseAt(plan, k, HintingPlan(trueType))
    requires |plan| == k + |HintingPlan(trueType)| + 1 && plan[|plan| - 1] == SVG
    modifies tables
    ensures r.Err? ==> DecodeFailure(m0, decode, r.error) && FailsFirstIn(m0, decode, plan, k, |plan|, r.error)
    ensures r.Ok? ==> tables.requested == r0 + plan && tables.entries == Updated(m0, plan, decode)
    ensures r.Ok? ==> DecodesAll(m0, decode, plan)
    ensures r.Ok? ==> (trueType ==> HintsAgree(m0, decode, r.value.0)) && Agrees(m0, decode, SVG, r.value.1)
  {
    var hint: HintingTables<D> := HintingTables(Absent, Absent, Absent);
    ghost var at := k;
    if trueType {
      var tr := ReadHintingTables(tables, decode, m0, r0, plan, k);
      if tr.Err? { return Err(tr.error); }
      hint := tr.value;
      at := k + 3;
    }
    var svg := Request(tables, SVG, decode, m0, r0, plan, at);
    if svg.Failed? { return Err(svg.error); }
    WholePrefix(plan, at + 1);
    r := Ok((hint, svg));
  }
}
