/**
 * Matching a statement's target over masked text keeps in step with the
 * scanner: where a match takes a piece, the scanner stands in plain code.
 */
module TargetScan {
  import opened Bytes
  import opened Wrappers
  import opened SqlScanner
  import opened SqlContext
  import opened SqlEdges
  import opened Identifiers
  import opened DdlTarget

  /** The text that the target patterns are matched over. */
  function Visible(u: Text): (v: Text)
    ensures |v| == |u|
  {
    Mask(u, STRINGS)
  }

  /** After `n` bytes the scanner is between tokens, in plain code. */
  ghost predicate Sync(u: Text, n: nat) {
    n <= |u| && ViewOf(u[..n], u[n..], Plain).View? && ViewOf(u[..n], u[n..], Plain).state.Plain?
  }

  /** No backslash before a closing quote, whose meaning would depend on sql_mode. */
  predicate Clear(u: Text) {
    !Warned(u, Plain).ambiguous
  }

  lemma SyncNone(u: Text)
    ensures Sync(u, 0)
  {
    assert u[..0] == [];
  }

  lemma SyncThen(u: Text, n: nat, k: nat)
    requires Sync(u, n) && Sync(u[n..], k)
    ensures Sync(u, n + k)
  {
    hide ViewOf;
    var r := u[n..];
    assert u[..n + k] == u[..n] + r[..k] && u[n + k..] == r[k..] && r[..k] + r[k..] == r;
    ViewJoin(u[..n], r[..k], r[k..], Plain);
  }

  lemma SyncRest(u: Text, n: nat)
    requires Sync(u, n)
    ensures Regions(u, Plain) == ViewOf(u[..n], u[n..], Plain).regions + Regions(u[n..], Plain)
    ensures Visible(u)[n..] == Visible(u[n..])
    ensures Clear(u) ==> Clear(u[n..])
  {
    hide ViewOf, Regions, Warned, ShowAll;
    assert u[..n] + u[n..] == u;
    ViewRegions(u[..n], u[n..], Plain);
    WarnedJoin(u[..n], u[n..], Plain);
    ShowJoin(u[..n], ViewOf(u[..n], u[n..], Plain).regions, u[n..], Regions(u[n..], Plain), STRINGS);
  }

  // ---------- white space and letters ----------

  /** Where visible white space ends the scanner is in plain code. */
  lemma {:induction false} BreaksEnd(u: Text, m: Region, n: nat)
    requires m.Valid() && (m.Quoted? ==> m.quote == QUOTE)
    requires n < |u| && !IsBreak(MaskFrom(u, m, STRINGS)[n])
    requires forall i :: 0 <= i < n ==> IsBreak(MaskFrom(u, m, STRINGS)[i])
    ensures ViewOf(u[..n], u[n..], m).View? && ViewOf(u[..n], u[n..], m).state.Plain?
    decreases |u|
  {
    hide Move, ViewOf, MaskFrom;
    var (k, next) := Move(u, m);
    assert u[..n] + u[n..] == u;
    VisibleStep(u, m);
    if n == 0 {
      BreaksToken(u, m);
      assert u[..0] == [];
      ViewNone(u[n..], m);
    } else {
      BreaksToken(u, m);
      ViewStep(u[..n], u[n..], m);
      var rest := MaskFrom(u[k..], next, STRINGS);
      NotPast(MaskFrom(u, m, STRINGS), n, k);
      forall i | 0 <= i < n - k ensures IsBreak(rest[i]) {
        assert rest[i] == MaskFrom(u, m, STRINGS)[k..][i];
      }
      assert rest[n - k] == MaskFrom(u, m, STRINGS)[k..][n - k];
      BreaksEnd(u[k..], next, n - k);
      assert u[k..][..n - k] == u[..n][k..] && u[k..][n - k..] == u[n..];
    }
  }

  lemma NotPast(v: Text, n: nat, k: nat)
    requires 0 < n < |v| && 1 <= k <= 2 && k <= |v| && !IsBreak(v[n]) && IsBreak(v[..k][k - 1])
    ensures k <= n
  {
  }

  /** The mask of a text is its first token's and then the rest's. */
  lemma VisibleStep(u: Text, m: Region)
    requires u != []
    ensures var (n, next) := Move(u, m);
            && MaskFrom(u, m, STRINGS)[..n] == ShowAll(u[..n], Fill(n, Covered(m, next)), STRINGS)
            && MaskFrom(u, m, STRINGS)[n..] == MaskFrom(u[n..], next, STRINGS)
  {
    hide Move, Regions;
    var (n, next) := Move(u, m);
    RegionsStep(u, m);
    assert u == u[..n] + u[n..];
    ShowJoin(u[..n], Fill(n, Covered(m, next)), u[n..], Regions(u[n..], next), STRINGS);
  }

  /** A first token that shows only white space is code or hidden, and shows all of its bytes so. */
  lemma BreaksToken(u: Text, m: Region)
    requires u != [] && m.Valid() && (m.Quoted? ==> m.quote == QUOTE)
    ensures var (k, next) := Move(u, m);
            var shown := ShowAll(u[..k], Fill(k, Covered(m, next)), STRINGS);
            && (!IsBreak(shown[0]) ==> m.Plain?)
            && (IsBreak(shown[0]) ==> (next.Quoted? ==> next.quote == QUOTE) && IsBreak(shown[k - 1]))
  {
  }

  lemma BreaksSync(u: Text)
    requires Breaks(Visible(u)) < |u|
    ensures Sync(u, Breaks(Visible(u)))
  {
    hide MaskFrom, Breaks;
    BreaksAre(Visible(u));
    BreaksEnd(u, Plain, Breaks(Visible(u)));
  }

  /** Visible word bytes are code, one token each. */
  lemma {:induction false} BareSync(u: Text, n: nat)
    requires n <= |u| && forall i :: 0 <= i < n ==> IsBare(Visible(u)[i])
    ensures Sync(u, n)
    decreases n
  {
    hide Visible, Sync;
    if n == 0 {
      SyncNone(u);
    } else {
      assert IsBare(Visible(u)[0]);
      BareToken(u);
      SyncRest(u, 1);
      forall i | 0 <= i < n - 1 ensures IsBare(Visible(u[1..])[i]) {
        assert Visible(u)[1..][i] == Visible(u)[i + 1];
      }
      BareSync(u[1..], n - 1);
      SyncThen(u, 1, n - 1);
    }
  }

  lemma BareToken(u: Text)
    requires u != [] && IsBare(Visible(u)[0])
    ensures Sync(u, 1) && u[0] == Visible(u)[0]
  {
    hide Regions, ViewOf;
    RegionsStep(u, Plain);
    assert u[..1] + u[1..] == u && u[..1][1..] == [];
    ViewStep(u[..1], u[1..], Plain);
    ViewNone(u[1..], Plain);
  }

  // ---------- keywords ----------

  lemma WordSync(u: Text, keyword: Text)
    requires IsKeyword(keyword) && WordLength(Visible(u), keyword).Some? && WordLength(Visible(u), keyword).value < |u|
    ensures var n := WordLength(Visible(u), keyword).value; Sync(u, n) && IsBreak(Visible(u)[n - 1])
  {
    hide Visible, Sync, Breaks, WordLength;
    var v, k := Visible(u), |keyword|;
    WordParts(v, keyword);
    BareSync(u, k);
    BreaksAfter(u, k);
    BreaksAre(v[k..]);
    assert v[k..][Breaks(v[k..]) - 1] == v[k + Breaks(v[k..]) - 1];
  }

  lemma WordParts(v: Text, keyword: Text)
    requires IsKeyword(keyword) && WordLength(v, keyword).Some?
    ensures var k := |keyword|;
            && k < |v| && (forall i :: 0 <= i < k ==> IsBare(v[i]))
            && Breaks(v[k..]) > 0 && WordLength(v, keyword).value == k + Breaks(v[k..])
  {
    hide Breaks;
    var k := |keyword|;
    forall i | 0 <= i < k ensures IsBare(v[i]) {
      assert UpperText(v[..k])[i] == Upper(v[i]) == keyword[i];
    }
    assert v[k..][0] == v[k];
    BreaksSome(v[k..]);
  }

  lemma BreaksSome(s: Text)
    requires s != [] && IsBreak(s[0])
    ensures Breaks(s) > 0
  {
  }

  /** A consumed part: in step with the scanner and, unless empty, ending in white space. */
  ghost predicate Skips(u: Text, n: nat) {
    Sync(u, n) && (n > 0 ==> IsBreak(Visible(u)[n - 1]))
  }

  lemma SkipsThen(u: Text, n: nat, k: nat)
    requires Skips(u, n) && Skips(u[n..], k)
    ensures Skips(u, n + k)
  {
    hide Visible, ViewOf;
    SyncRest(u, n);
    SyncThen(u, n, k);
    assert k > 0 ==> Visible(u)[n..][k - 1] == Visible(u)[n + k - 1];
  }

  lemma {:induction false} PhraseSync(u: Text, keywords: seq<Text>)
    requires AllKeywords(keywords)
    requires PhraseLength(Visible(u), keywords).Some? && PhraseLength(Visible(u), keywords).value < |u|
    ensures Skips(u, PhraseLength(Visible(u), keywords).value)
    decreases |keywords|
  {
    hide Visible, Sync, WordLength, Skips;
    if keywords == [] {
      SkipsNothing(u);
    } else {
      var w := WordLength(Visible(u), keywords[0]).value;
      WordSkips(u, keywords[0]);
      SkipsRest(u, w);
      PhraseSync(u[w..], keywords[1..]);
      SkipsThen(u, w, PhraseLength(Visible(u)[w..], keywords[1..]).value);
    }
  }

  lemma SkipsNothing(u: Text)
    ensures Skips(u, 0)
  {
    SyncNone(u);
  }

  lemma WordSkips(u: Text, keyword: Text)
    requires IsKeyword(keyword) && WordLength(Visible(u), keyword).Some? && WordLength(Visible(u), keyword).value < |u|
    ensures Skips(u, WordLength(Visible(u), keyword).value)
  {
    hide Visible, Sync, WordLength;
    WordSync(u, keyword);
  }

  lemma SkipsRest(u: Text, n: nat)
    requires Skips(u, n)
    ensures n <= |u| && Visible(u)[n..] == Visible(u[n..]) && (Clear(u) ==> Clear(u[n..]))
  {
    hide Visible, Clear;
    SyncRest(u, n);
  }

  lemma OptionSkips(u: Text, keywords: seq<Text>)
    requires AllKeywords(keywords) && Optionally(Visible(u), keywords) < |u|
    ensures Skips(u, Optionally(Visible(u), keywords))
  {
    hide Visible, Skips, PhraseLength;
    if PhraseLength(Visible(u), keywords).Some? {
      PhraseSync(u, keywords);
    } else {
      SkipsNothing(u);
    }
  }

  lemma ModifierSkips(u: Text)
    requires Modifier(Visible(u)) < |u|
    ensures Skips(u, Modifier(Visible(u)))
  {
    hide Visible, Skips, WordLength, Optionally;
    if WordLength(Visible(u), ONLINE).Some? {
      WordSkips(u, ONLINE);
    } else {
      OptionSkips(u, [IGNORE]);
    }
  }

  lemma KindSkips(u: Text)
    requires IndexKind(Visible(u)) < |u|
    ensures Skips(u, IndexKind(Visible(u)))
  {
    hide Visible, Skips, WordLength, Optionally;
    if WordLength(Visible(u), UNIQUE).Some? {
      WordSkips(u, UNIQUE);
    } else if WordLength(Visible(u), FULLTEXT).Some? {
      WordSkips(u, FULLTEXT);
    } else {
      OptionSkips(u, [SPATIAL]);
    }
  }

  lemma MethodSkips(u: Text)
    requires IndexMethod(Visible(u)) < |u|
    ensures Skips(u, IndexMethod(Visible(u)))
  {
    hide Visible, Skips, PhraseLength, Optionally;
    if PhraseLength(Visible(u), [USING, BTREE]).Some? {
      PhraseSync(u, [USING, BTREE]);
    } else if PhraseLength(Visible(u), [USING, HASH_METHOD]).Some? {
      PhraseSync(u, [USING, HASH_METHOD]);
    } else {
      OptionSkips(u, [USING, RTREE]);
    }
  }

  // ---------- identifiers ----------

  /** In a visible quoted identifier the pattern finds the quote where the scanner does. */
  lemma {:induction false} BodySync(u: Text, q: Byte)
    requires (q == BACKTICK || q == DQUOTE) && !Warned(u, Quoted(q)).ambiguous
    requires BodyLength(MaskFrom(u, Quoted(q), STRINGS), q).Some?
    ensures var k := BodyLength(MaskFrom(u, Quoted(q), STRINGS), q).value;
            && k <= |u| && ViewOf(u[..k], u[k..], Quoted(q)).View? && ViewOf(u[..k], u[k..], Quoted(q)).state.Plain?
    decreases |u|
  {
    hide Move, ViewOf, MaskFrom, BodyLength, TokenWarns, Warned;
    var v := MaskFrom(u, Quoted(q), STRINGS);
    BodySome(v, q);
    var k := BodyLength(v, q).value;
    var (n, next) := Move(u, Quoted(q));
    VisibleStep(u, Quoted(q));
    WarnedStep(u, Quoted(q));
    BodyToken(u, q, v);
    assert u[..k] + u[k..] == u;
    ViewStep(u[..k], u[k..], Quoted(q));
    if next.Plain? {
      assert u[..k][1..] == [];
      ViewNone(u[k..], Plain);
    } else {
      BodySync(u[n..], q);
      assert u[n..][..k - n] == u[..k][n..] && u[n..][k - n..] == u[k..];
    }
  }

  lemma BodySome(v: Text, q: Byte)
    requires BodyLength(v, q).Some?
    ensures v != [] && 1 <= BodyLength(v, q).value <= |v|
  {
  }

  /** One token inside the identifier, and what the pattern makes of it. */
  lemma BodyToken(u: Text, q: Byte, v: Text)
    requires (q == BACKTICK || q == DQUOTE) && u != [] && |v| == |u|
    requires var (n, next) := Move(u, Quoted(q));
             && v[..n] == ShowAll(u[..n], Fill(n, Covered(Quoted(q), next)), STRINGS)
             && v[n..] == MaskFrom(u[n..], next, STRINGS)
    requires !TokenWarns(u, Quoted(q)).ambiguous
    ensures var (n, next) := Move(u, Quoted(q));
            if next.Plain? then n == 1 && BodyLength(v, q) == Some(1)
            else next == Quoted(q) && BodyLength(v, q) == Longer(n, BodyLength(v[n..], q))
  {
    hide MaskFrom;
    var (n, next) := Move(u, Quoted(q));
    assert v[0] == v[..n][0] == u[0];
    if n == 2 {
      assert v[1] == v[..n][1] == u[1];
      BodyTwo(v, q);
    } else if |u| > 1 {
      assert v[1] == v[1..][0];
      ShownOrBlank(u[1..], next);
    }
  }

  lemma ShownOrBlank(u: Text, m: Region)
    requires u != []
    ensures MaskFrom(u, m, STRINGS)[0] == u[0] || MaskFrom(u, m, STRINGS)[0] == SPACE
  {
    hide Regions;
  }

  lemma BodyTwo(v: Text, q: Byte)
    requires |v| >= 2
    ensures v[0] == q && v[1] == q ==> BodyLength(v, q) == Longer(2, BodyLength(v[2..], q))
    ensures v[0] != q && v[1] != q ==> BodyLength(v, q) == Longer(2, BodyLength(v[2..], q))
  {
    assert v[1..][1..] == v[2..] && v[1..][0] == v[1];
    if v[0] != q && v[1] != q {
      assert BodyLength(v[1..], q) == Longer(1, BodyLength(v[2..], q));
    }
  }

  lemma QuoteOpens(u: Text)
    requires u != [] && (Visible(u)[0] == BACKTICK || Visible(u)[0] == DQUOTE)
    ensures u[0] == Visible(u)[0] && Move(u, Plain) == (1, Quoted(u[0]))
    ensures Visible(u)[1..] == MaskFrom(u[1..], Quoted(u[0]), STRINGS)
    ensures Clear(u) ==> !Warned(u[1..], Quoted(u[0])).ambiguous
  {
    hide MaskFrom, Regions, Warned;
    VisibleStep(u, Plain);
    WarnedStep(u, Plain);
    var (n, next) := Move(u, Plain);
    assert Visible(u)[0] == Visible(u)[..n][0];
  }

  lemma IdentSync(u: Text)
    requires Clear(u) && IdentLength(Visible(u)).Some?
    ensures Sync(u, IdentLength(Visible(u)).value)
  {
    hide Visible, Clear, BodyLength, Move, BareLength, MaskFrom, ViewOf;
    var v := Visible(u);
    if v[0] == BACKTICK || v[0] == DQUOTE {
      QuoteOpens(u);
      BodySync(u[1..], u[0]);
      var k := BodyLength(v[1..], v[0]).value;
      assert u[..1 + k] + u[1 + k..] == u;
      ViewStep(u[..1 + k], u[1 + k..], Plain);
      assert u[..1 + k][1..] == u[1..][..k] && u[1..][k..] == u[1 + k..];
    } else {
      BareAre(v);
      BareSync(u, BareLength(v));
    }
  }

  lemma {:induction false} BareAre(s: Text)
    ensures forall i :: 0 <= i < BareLength(s) ==> IsBare(s[i])
  {
    if s != [] && IsBare(s[0]) {
      BareAre(s[1..]);
      forall i | 0 <= i < BareLength(s) ensures IsBare(s[i]) {
        assert i > 0 ==> s[i] == s[1..][i - 1];
      }
    }
  }

  lemma DotSync(u: Text)
    requires DotLength(Visible(u)).Some? && DotLength(Visible(u)).value < |u|
    ensures Sync(u, DotLength(Visible(u)).value)
  {
    hide Visible, Sync, Breaks, DotLength;
    var v := Visible(u);
    var n := Breaks(v);
    DotParts(v);
    BreaksSync(u);
    DotAfter(u, n);
    BreaksAfter(u, n + 1);
  }

  lemma DotParts(v: Text)
    requires DotLength(v).Some?
    ensures Breaks(v) < |v| && v[Breaks(v)] == DOT && DotLength(v).value == Breaks(v) + 1 + Breaks(v[Breaks(v) + 1..])
  {
    hide Breaks;
  }

  lemma DotAfter(u: Text, n: nat)
    requires n < |u| && Sync(u, n) && Visible(u)[n] == DOT
    ensures Sync(u, n + 1)
  {
    hide Visible, Sync;
    SyncRest(u, n);
    Slices(Visible(u), n, 0);
    DotToken(u[n..]);
    SyncThen(u, n, 1);
  }

  lemma DotToken(u: Text)
    requires u != [] && Visible(u)[0] == DOT
    ensures Sync(u, 1)
  {
    hide Regions, ViewOf;
    RegionsStep(u, Plain);
    assert u[..1] + u[1..] == u && u[..1][1..] == [];
    ViewStep(u[..1], u[1..], Plain);
    ViewNone(u[1..], Plain);
  }

  // ---------- targets ----------

  predicate IsStarter(b: Byte) {
    IsBare(b) || b == BACKTICK || b == DQUOTE
  }

  /** A target found in a text: the scanner is in plain code on both sides of it. */
  ghost predicate Found(u: Text, span: Span) {
    && span.start < span.end <= |u|
    && Skips(u, span.start) && Sync(u, span.end)
    && IsStarter(Visible(u)[span.start]) && Ends(Visible(u)[span.end..], true)
  }

  lemma FoundLater(u: Text, n: nat, span: Span)
    requires Skips(u, n) && Found(u[n..], span)
    ensures Found(u, Span(n + span.start, n + span.end))
  {
    hide Visible, Sync, Ends, Skips;
    FoundRange(u, n);
    SkipsRest(u, n);
    SkipsThen(u, n, span.start);
    SkipsIsSync(u, n);
    SyncThen(u, n, span.end);
    Slices(Visible(u), n, span.start);
    Slices(Visible(u), n, span.end);
  }

  lemma FoundRange(u: Text, n: nat)
    requires Skips(u, n)
    ensures n <= |u|
  {
  }

  lemma SkipsIsSync(u: Text, n: nat)
    requires Skips(u, n)
    ensures Sync(u, n)
  {
  }

  lemma Slices(v: Text, n: nat, i: nat)
    requires n + i <= |v|
    ensures v[n..][i..] == v[n + i..] && (n + i < |v| ==> v[n..][i] == v[n + i])
  {
  }

  lemma QualifiedSync(u: Text)
    requires Clear(u) && QualifiedLength(Visible(u)).Some?
    ensures Sync(u, QualifiedLength(Visible(u)).value)
  {
    hide Visible, Sync, IdentLength, DotLength, Clear;
    var v := Visible(u);
    var n := IdentLength(v).value;
    IdentSync(u);
    SyncRest(u, n);
    var d := DotLength(v[n..]).value;
    IdentSome(v[n + d..]);
    DotSync(u[n..]);
    SyncThen(u, n, d);
    IdentAfter(u, n + d);
  }

  lemma IdentAfter(u: Text, n: nat)
    requires n <= |u| && Clear(u) && Sync(u, n) && IdentLength(Visible(u)[n..]).Some?
    ensures Sync(u, n + IdentLength(Visible(u)[n..]).value)
  {
    hide Visible, Sync, IdentLength, Clear;
    SyncRest(u, n);
    IdentSync(u[n..]);
    SyncThen(u, n, IdentLength(Visible(u)[n..]).value);
  }

  lemma IdentSome(s: Text)
    requires IdentLength(s).Some?
    ensures s != [] && IsStarter(s[0])
  {
    hide BodyLength;
  }

  lemma ReferenceFound(u: Text, paren: bool)
    requires Clear(u) && ReferenceAt(Visible(u), paren).Some?
    ensures Found(u, ReferenceAt(Visible(u), paren).value)
  {
    hide Visible, Sync, IdentLength, QualifiedLength, Clear, Skips;
    var v := Visible(u);
    SkipsNothing(u);
    IdentFirst(v);
    if QualifiedLength(v).Some? {
      QualifiedSync(u);
    }
    IdentSync(u);
    IdentSome(v);
  }

  lemma IdentFirst(s: Text)
    ensures QualifiedLength(s).Some? ==> IdentLength(s).Some?
  {
    hide IdentLength;
  }

  lemma AlteredFound(u: Text)
    requires Clear(u) && AlteredTable(Visible(u)).Some?
    ensures Found(u, AlteredTable(Visible(u)).value)
  {
    hide Visible, ReferenceAt, Clear, Skips, PhraseLength, Optionally, Found;
    var v := Visible(u);
    var n := Optionally(v, [IF, EXISTS]);
    if n > 0 && ReferenceAt(v[n..], false).Some? {
      OptionSkips(u, [IF, EXISTS]);
      SkipsRest(u, n);
      ReferenceFound(u[n..], false);
      FoundLater(u, n, ReferenceAt(v[n..], false).value);
    } else {
      ReferenceFound(u, false);
    }
  }

  lemma AlterTableFound(u: Text)
    requires Clear(u) && AlterTable(Visible(u)).Some?
    ensures Found(u, AlterTable(Visible(u)).value)
  {
    hide Visible, Modifier, AlteredTable, Clear, Skips, WordLength, Found;
    var v := Visible(u);
    var i := Modifier(v);
    ModifierSkips(u);
    SkipsRest(u, i);
    var k := Modifier(v[i..]);
    ModifierSkips(u[i..]);
    SkipsThen(u, i, k);
    var j := i + k;
    SkipsRest(u, j);
    var w := WordLength(v[j..], TABLE).value;
    WordSkips(u[j..], TABLE);
    SkipsThen(u, j, w);
    SkipsRest(u, j + w);
    AlteredFound(u[j + w..]);
    FoundLater(u, j + w, AlteredTable(v[j + w..]).value);
  }

  lemma LeadSkips(u: Text, keyword: Text)
    requires IsKeyword(keyword) && Breaks(Visible(u)) < |u|
    requires var w := WordLength(Visible(u)[Breaks(Visible(u))..], keyword);
             w.Some? && Breaks(Visible(u)) + w.value < |u|
    ensures var i := Breaks(Visible(u)); Skips(u, i + WordLength(Visible(u)[i..], keyword).value)
  {
    hide Visible, Sync, WordLength, Breaks;
    var v := Visible(u);
    var i := Breaks(v);
    BreaksSync(u);
    BreaksAre(v);
    SyncRest(u, i);
    WordSkips(u[i..], keyword);
    SkipsThen(u, i, WordLength(v[i..], keyword).value);
  }

  lemma AlterFound(u: Text)
    requires Clear(u) && AlterTarget(Visible(u)).Some?
    ensures Found(u, AlterTarget(Visible(u)).value)
  {
    hide Visible, AlterTable, Clear, Skips, WordLength, Found, Breaks;
    var v := Visible(u);
    var i := Breaks(v);
    var n := i + WordLength(v[i..], ALTER).value;
    LeadSkips(u, ALTER);
    SkipsRest(u, n);
    AlterTableFound(u[n..]);
    FoundLater(u, n, AlterTable(v[n..]).value);
  }

  lemma IndexTableFound(u: Text)
    requires Clear(u) && IndexTable(Visible(u)).Some?
    ensures Found(u, IndexTable(Visible(u)).value)
  {
    hide Visible, IndexMethod, ReferenceAt, Clear, Skips, WordLength, Found;
    var v := Visible(u);
    var i := IndexMethod(v);
    MethodSkips(u);
    SkipsRest(u, i);
    var w := WordLength(v[i..], ON).value;
    WordSkips(u[i..], ON);
    SkipsThen(u, i, w);
    SkipsRest(u, i + w);
    ReferenceFound(u[i + w..], true);
    FoundLater(u, i + w, ReferenceAt(v[i + w..], true).value);
  }

  lemma IndexNameFound(u: Text)
    requires Clear(u) && IndexName(Visible(u)).Some?
    ensures Found(u, IndexName(Visible(u)).value)
  {
    hide Visible, Skips, IndexTable, IdentLength, Clear, Found, Breaks;
    var v := Visible(u);
    var n := IdentLength(v).value;
    var gap := Breaks(v[n..]);
    NameSkips(u);
    SkipsRest(u, n + gap);
    IndexTableFound(u[n + gap..]);
    FoundLater(u, n + gap, IndexTable(v[n + gap..]).value);
  }

  /** An index name and the white space after it. */
  lemma NameSkips(u: Text)
    requires Clear(u) && IdentLength(Visible(u)).Some?
    requires var n := IdentLength(Visible(u)).value; 0 < Breaks(Visible(u)[n..]) < |u| - n
    ensures var n := IdentLength(Visible(u)).value; Skips(u, n + Breaks(Visible(u)[n..]))
  {
    hide Visible, Sync, IdentLength, Clear, Breaks;
    var v := Visible(u);
    var n := IdentLength(v).value;
    IdentSync(u);
    BreaksAfter(u, n);
    BreaksAre(v[n..]);
    var gap := Breaks(v[n..]);
    assert v[n..][gap - 1] == v[n + gap - 1];
  }

  lemma BreaksAfter(u: Text, n: nat)
    requires n <= |u| && Sync(u, n) && Breaks(Visible(u)[n..]) < |u| - n
    ensures Sync(u, n + Breaks(Visible(u)[n..]))
  {
    hide Visible, Sync, Breaks;
    SyncRest(u, n);
    BreaksSync(u[n..]);
    SyncThen(u, n, Breaks(Visible(u)[n..]));
  }

  lemma NamedIndexFound(u: Text)
    requires Clear(u) && NamedIndex(Visible(u)).Some?
    ensures Found(u, NamedIndex(Visible(u)).value)
  {
    hide Visible, Optionally, IndexName, Clear, Skips, Found;
    var v := Visible(u);
    var i := Optionally(v, [IF, NOT, EXISTS]);
    OptionSkips(u, [IF, NOT, EXISTS]);
    SkipsRest(u, i);
    IndexNameFound(u[i..]);
    FoundLater(u, i, IndexName(v[i..]).value);
  }

  lemma CreateIndexFound(u: Text)
    requires Clear(u) && CreateIndex(Visible(u)).Some?
    ensures Found(u, CreateIndex(Visible(u)).value)
  {
    hide Visible, Optionally, IndexKind, NamedIndex, Clear, Skips, WordLength, Found;
    var v := Visible(u);
    var i := Optionally(v, [OR, REPLACE]);
    OptionSkips(u, [OR, REPLACE]);
    SkipsRest(u, i);
    var k := IndexKind(v[i..]);
    KindSkips(u[i..]);
    SkipsThen(u, i, k);
    var j := i + k;
    SkipsRest(u, j);
    var w := WordLength(v[j..], INDEX).value;
    WordSkips(u[j..], INDEX);
    SkipsThen(u, j, w);
    SkipsRest(u, j + w);
    NamedIndexFound(u[j + w..]);
    FoundLater(u, j + w, NamedIndex(v[j + w..]).value);
  }

  lemma CreateFound(u: Text)
    requires Clear(u) && CreateTarget(Visible(u)).Some?
    ensures Found(u, CreateTarget(Visible(u)).value)
  {
    hide Visible, CreateIndex, Clear, Skips, WordLength, Found, Breaks;
    var v := Visible(u);
    var i := Breaks(v);
    var n := i + WordLength(v[i..], CREATE).value;
    LeadSkips(u, CREATE);
    SkipsRest(u, n);
    CreateIndexFound(u[n..]);
    FoundLater(u, n, CreateIndex(v[n..]).value);
  }

  /** Wherever the patterns find a target, the scanner is in plain code before it and after it. */
  lemma TargetFound(u: Text)
    requires Clear(u) && Target(Visible(u)).Some?
    ensures Found(u, Target(Visible(u)).value)
  {
    hide Visible, AlterTarget, CreateTarget, Clear, Found;
    if AlterTarget(Visible(u)).Some? {
      AlterFound(u);
    } else {
      CreateFound(u);
    }
  }
}
