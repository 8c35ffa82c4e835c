/**
 * A statement retargeted to a scratch table: it scans as before, names exactly
 * that table, and goes on with the same text at top level.
 */
module Retargeted {
  import opened Bytes
  import opened Wrappers
  import opened SqlScanner
  import opened SqlContext
  import opened Identifiers
  import opened DdlTarget
  import opened TargetScan
  import opened TargetSwap
  import opened OnlineDdl
  import OnlineDdlAgain

  // ---------- scanning the statement around a new reference ----------

  /** The regions of a canonical reference: two quoted names and a dot. */
  function ReferenceRegions(d: Text, t: Text): (rs: seq<Region>)
    ensures |rs| == |Canonical(d, t)|
  {
    InBackticks(|QuoteIdentifier(d)|) + [Plain] + InBackticks(|QuoteIdentifier(t)|)
  }

  /** To the scanner a canonical reference is its two names and the dot, and code goes on after it. */
  lemma CanonicalView(d: Text, t: Text, follow: Text)
    requires follow == [] || follow[0] != BACKTICK
    ensures ViewOf(Canonical(d, t), follow, Plain) == View(ReferenceRegions(d, t), Plain, QUIET)
  {
    hide ViewOf, QuoteIdentifier, InBackticks, Move;
    var q, p := QuoteIdentifier(d), QuoteIdentifier(t);
    assert Canonical(d, t) == q + ([DOT] + p);
    QuotedIsOneRegion(d, [DOT] + p + follow);
    QuotedIsOneRegion(t, follow);
    DotView(p + follow);
    assert [DOT] + p + follow == [DOT] + (p + follow) && ([DOT] + p) + follow == [DOT] + p + follow;
    ViewJoin([DOT], p, follow, Plain);
    ViewJoin(q, [DOT] + p, follow, Plain);
    var b, c := InBackticks(|q|), InBackticks(|p|);
    assert b + ([Plain] + c) == b + [Plain] + c;
  }

  lemma DotView(follow: Text)
    ensures ViewOf([DOT], follow, Plain) == View([Plain], Plain, QUIET)
  {
    hide ViewOf;
    var s := [DOT] + follow;
    ViewStep([DOT], follow, Plain);
    assert s[0] == DOT && [DOT][1..] == [];
    ViewNone(follow, Plain);
  }

  /** A piece after which the scanner is in code ends a hidden region with the byte that closes it. */
  lemma {:induction false} ClosingByte(p: Text, f: Text, m: Region)
    requires m.Valid() && p != [] && ViewOf(p, f, m).View? && ViewOf(p, f, m).state.Plain?
    ensures var r := ViewOf(p, f, m).regions[|p| - 1];
            && (r.BlockComment? ==> p[|p| - 1] == SLASH)
            && (r.Quoted? ==> p[|p| - 1] == r.quote)
            && !r.LineComment?
    decreases |p|
  {
    hide Move, ViewOf;
    var (n, next) := Move(p + f, m);
    ViewStep(p, f, m);
    if n == |p| {
      assert p[n..] == [];
      ViewNone(f, next);
      ClosingMove(p, f, m);
    } else {
      ClosingByte(p[n..], f, next);
    }
  }

  lemma ClosingMove(p: Text, f: Text, m: Region)
    requires p != [] && Move(p + f, m).0 == |p| && Move(p + f, m).1.Plain?
    ensures var r := Covered(m, Plain);
            && (r.BlockComment? ==> p[|p| - 1] == SLASH)
            && (r.Quoted? ==> p[|p| - 1] == r.quote)
            && !r.LineComment?
  {
  }

  /** The bytes around a target, as they stand in the text itself. */
  lemma TargetEdges(s: Text, span: Span)
    requires Found(s, span)
    ensures Follows(s[..span.start], s[span.start..]) && !AtGap(s[span.start..])
    ensures span.start > 0 ==> s[span.start - 1] != BACKTICK
    ensures span.end < |s| ==> s[span.end] != BACKTICK
  {
    hide Sync, Regions, Visible, Ends;
    var a, b := span.start, span.end;
    Starts(s, a);
    assert s[a..][0] == s[a];
    if a > 0 {
      BeforeTarget(s, a);
      assert s[..a][a - 1] == s[a - 1];
    }
    if b < |s| {
      AfterTarget(s, b);
    }
  }

  lemma Starts(s: Text, i: nat)
    requires i < |s| && IsStarter(Visible(s)[i])
    ensures s[i] == Visible(s)[i]
  {
    hide Regions;
  }

  /** White space seen before a target is in the text no quote that an identifier could begin with. */
  lemma BeforeTarget(s: Text, a: nat)
    requires 0 < a <= |s| && Sync(s, a) && IsBreak(Visible(s)[a - 1])
    ensures s[a - 1] != BACKTICK && s[a - 1] != DQUOTE
  {
    hide Regions, ViewOf;
    SyncRest(s, a);
    ClosingByte(s[..a], s[a..], Plain);
    var r := Regions(s, Plain)[a - 1];
    assert r == ViewOf(s[..a], s[a..], Plain).regions[a - 1] && s[..a][a - 1] == s[a - 1];
    assert Visible(s)[a - 1] == Show(s[a - 1], r, STRINGS);
    if r.Plain? {
      PlainCode(s, Plain, a - 1);
    }
  }

  /** A backtick after a target would be seen. */
  lemma AfterTarget(s: Text, b: nat)
    requires b < |s| && Sync(s, b) && Ends(Visible(s)[b..], true)
    ensures s[b] != BACKTICK
  {
    hide Regions, Sync, MaskFrom;
    SyncRest(s, b);
    var u := s[b..];
    VisibleStep(u, Plain);
    var (n, next) := Move(u, Plain);
    assert Visible(u)[0] == Visible(u)[..n][0] && u[0] == s[b];
  }

  /** The regions of the retargeted text: those of the text, with the reference's in the middle. */
  lemma SwappedRegions(s: Text, span: Span, d: Text, t: Text)
    requires Found(s, span)
    ensures Regions(Swapped(s, span, Canonical(d, t)), Plain) ==
            Regions(s, Plain)[..span.start] + (ReferenceRegions(d, t) + Regions(s, Plain)[span.end..])
  {
    hide ViewOf, Regions, Visible, Canonical, ReferenceRegions, Ends;
    var a, b, r := span.start, span.end, Canonical(d, t);
    var pre, post := s[..a], s[b..];
    TargetEdges(s, span);
    CanonicalTicks(d, t);
    SyncRest(s, a);
    SyncRest(s, b);
    assert (r + post)[0] == r[0] == BACKTICK;
    ViewContext(pre, s[a..], r + post, Plain);
    CanonicalView(d, t, post);
    ViewRegions(r, post, Plain);
    ViewRegions(pre, r + post, Plain);
  }

  /** A canonical reference is all visible. */
  lemma ReferenceShown(d: Text, t: Text)
    ensures ShowAll(Canonical(d, t), ReferenceRegions(d, t), STRINGS) == Canonical(d, t)
  {
    hide QuoteIdentifier;
    var q, p := QuoteIdentifier(d), QuoteIdentifier(t);
    ShowJoin(q + [DOT], InBackticks(|q|) + [Plain], p, InBackticks(|p|), STRINGS);
    ShowJoin(q, InBackticks(|q|), [DOT], [Plain], STRINGS);
    assert ShowAll([DOT], [Plain], STRINGS) == [DOT];
    TicksShown(q);
    TicksShown(p);
  }

  lemma TicksShown(q: Text)
    ensures ShowAll(q, InBackticks(|q|), STRINGS) == q
  {
  }

  /** The mask of the retargeted text, under any option. */
  lemma SwappedMask(s: Text, span: Span, d: Text, t: Text, o: Options)
    requires Found(s, span)
    ensures Mask(Swapped(s, span, Canonical(d, t)), o) ==
            Swapped(Mask(s, o), span, ShowAll(Canonical(d, t), ReferenceRegions(d, t), o))
  {
    hide Regions, Found, Canonical, ReferenceRegions, ShowAll;
    FoundSpan(s, span);
    SwappedRegions(s, span, d, t);
    var a, b, r, rr := span.start, span.end, Canonical(d, t), ReferenceRegions(d, t);
    var rs := Regions(s, Plain);
    assert s == s[..a] + s[a..] && rs == rs[..a] + rs[a..] && s == s[..b] + s[b..] && rs == rs[..b] + rs[b..];
    ShowJoin(s[..a], rs[..a], s[a..], rs[a..], o);
    ShowJoin(s[..b], rs[..b], s[b..], rs[b..], o);
    ShowJoin(r, rr, s[b..], rs[b..], o);
    ShowJoin(s[..a], rs[..a], r + s[b..], rr + rs[b..], o);
  }

  lemma FoundSpan(s: Text, span: Span)
    requires Found(s, span)
    ensures span.start < span.end <= |s|
  {
  }

  // ---------- the theorem ----------

  /** Whether a statement's target is a given table. */
  predicate Names(sql: Text, database: Text, table: Text) {
    var target := Target(Mask(sql, STRINGS));
    target.Some? && ParseTableReference(sql[target.value.start..target.value.end]) == Qualified(database, table)
  }

  /**
   * A statement retargeted to a table: wherever a target is found, the result differs from
   * the statement only in the bytes of the target; its own target is exactly the new
   * reference, which parses as that table; and its top-level tail is the statement's.
   */
  lemma RetargetScans(sql: Text, database: Text, table: Text)
    requires database != [] && table != [] && !Warned(sql, Plain).ambiguous
    requires Target(Mask(sql, STRINGS)).Some?
    ensures var r := Canonical(database, table);
            var former := Target(Mask(sql, STRINGS)).value;
            var span := Span(former.start, former.start + |r|);
            var out := Retarget(sql, r);
            && out.Some? && out.value == Swapped(sql, former, r)
            && Target(Mask(out.value, STRINGS)) == Some(span)
            && out.value[span.start..span.end] == r && Names(out.value, database, table)
            && TailOf(out.value) == TailOf(sql)
  {
    hide Target, Found, Canonical, ReferenceRegions, ParseTableReference, Mask, ShowAll, Warned;
    var r, span := Canonical(database, table), Target(Mask(sql, STRINGS)).value;
    TargetFound(sql);
    SwappedMask(sql, span, database, table, STRINGS);
    SwappedMask(sql, span, database, table, EVERYTHING);
    ReferenceShown(database, table);
    TargetSwaps(Mask(sql, STRINGS), database, table);
    ParseCanonical(database, table);
    var out := Swapped(sql, span, r);
    assert out == sql[..span.start] + r + sql[span.end..];
    assert out[span.start..span.start + |r|] == r;
    SwappedTail(Mask(sql, EVERYTHING), span, ShowAll(r, ReferenceRegions(database, table), EVERYTHING));
  }

  lemma SwappedTail(s: Text, span: Span, r: Text)
    requires span.start <= span.end <= |s|
    ensures Swapped(s, span, r)[span.start + |r|..] == s[span.end..]
  {
  }

  /** So it is for every statement built for online DDL from a sound one. */
  lemma RehearsalFaithful(sql: Text, database: Text, table: Text)
    requires database != [] && table != []
    requires Build(sql).Done? && OnlineDdlAgain.Sound(SplitSuffix(sql).statement)
    ensures var out := Retarget(Build(sql).sql, Canonical(database, table));
            out.Some? && TailOf(out.value) == TailOf(Build(sql).sql) && Names(out.value, database, table)
  {
    hide Target, SplitSuffix, OnlineDdlAgain.Sound, TailOf, Canonical, ParseTableReference, OnlineDdl.Complete;
    OnlineDdlAgain.BuiltAgain(sql);
    OnlineDdlAgain.BuiltTarget(sql);
    RetargetScans(Build(sql).sql, database, table);
  }
}
