/** Splitting, completing and rescanning an online DDL statement. */
module OnlineDdlScan {
  import opened Bytes
  import opened SqlScanner
  import opened SqlContext
  import opened SqlEdges
  import opened OnlineDdl
  import AlterRescan

  /** A statement whose quotes and comments are closed and which does not end in `--`. */
  predicate EndsInCode(statement: Text) {
    ViewOf(statement, [], Plain).View? && ViewOf(statement, [], Plain).state.Plain?
  }

  /** A statement as the splitting leaves it. */
  predicate Tidy(statement: Text) {
    && statement != [] && !IsSpace(statement[0])
    && EndsInCode(statement) && ViewOf(statement, [], Plain).seen == QUIET
    && !IsSpace(Mask(statement, COMMENTS_ONLY)[|statement| - 1])
    && statement[|statement| - 1] != SEMICOLON
  }

  /** Comments and white space, trimmed. */
  predicate Trailing(suffix: Text) {
    Trim(suffix) == suffix && AllSpace(Mask(suffix, COMMENTS_ONLY)) && Warned(suffix, Plain) == QUIET
  }

  // ---------- what splitting gives ----------

  lemma QuietTrim(sql: Text)
    requires Warned(sql, Plain) == QUIET
    ensures Warned(Trim(sql), Plain) == QUIET
  {
    hide ViewOf, Warned, Trim;
    var before, after := TrimParts(sql);
    var s := Trim(sql);
    assert sql == before + (s + after);
    ViewSpace(before, s + after);
    WarnedJoin(before, s + after, Plain);
    assert after != [] ==> IsSpace(after[0]);
    GapWarned(s, after, Plain);
  }

  lemma TrimEdges(s: Text)
    requires s != [] && Trim(s) == s
    ensures !IsSpace(s[0]) && !IsSpace(s[|s| - 1])
  {
    var before, after := TrimParts(s);
  }

  lemma TrimNothing(s: Text)
    requires s != [] ==> !IsSpace(s[0]) && !IsSpace(s[|s| - 1])
    ensures Trim(s) == s
  {
    assert [] + s + [] == s;
    TrimUnique([], s, []);
  }

  /** The cut before the trailing blanks or the semicolon is a token boundary in code. */
  lemma StatementEnd(s: Text, e: nat)
    requires 0 < e <= |s| && EndsInCode(s[..e])
    requires !IsSpace(Mask(s, COMMENTS_ONLY)[e - 1])
    requires e < |s| ==> IsSpace(Mask(s, COMMENTS_ONLY)[e]) || Mask(s, COMMENTS_ONLY)[e] == SEMICOLON
    ensures ViewOf(s[..e], s[e..], Plain) == ViewOf(s[..e], [], Plain)
    ensures Regions(s, Plain) == Regions(s[..e], Plain) + Regions(s[e..], Plain)
  {
    hide ViewOf, Regions;
    var a, f := s[..e], s[e..];
    assert a + f == s;
    if e == |s| {
      assert f == [];
    } else {
      if Regions(s, Plain)[e].Quoted? {
        OpenAtEnd(s, Plain, e);
      }
      CodeEnd(s, Plain, e);
      ViewAgree(a, f, Plain);
    }
    ViewRegions(a, f, Plain);
    ViewAll(a, Plain);
  }

  lemma MaskJoin(a: Text, b: Text, o: Options)
    requires Regions(a + b, Plain) == Regions(a, Plain) + Regions(b, Plain)
    ensures Mask(a + b, o) == Mask(a, o) + Mask(b, o)
  {
    ShowJoin(a, Regions(a, Plain), b, Regions(b, Plain), o);
  }

  lemma QuietJoin(a: Text, f: Text)
    requires EndsInCode(a) && ViewOf(a, f, Plain) == ViewOf(a, [], Plain)
    ensures Warned(a + f, Plain) == ViewOf(a, [], Plain).seen.Or(Warned(f, Plain))
  {
    WarnedJoin(a, f, Plain);
  }

  lemma QuietParts(v: Warnings, w: Warnings)
    requires v.Or(w) == QUIET
    ensures v == QUIET && w == QUIET
  {
  }

  /** Trimming comments and white space leaves comments and white space. */
  lemma TrimmedTrailing(g: Text)
    requires AllSpace(Mask(g, COMMENTS_ONLY)) && Warned(g, Plain) == QUIET
    ensures Trailing(Trim(g))
  {
    hide ViewOf, Warned, Trim, Regions;
    QuietTrim(g);
    AlterRescan.TrimTwice(g);
    var before, after := TrimParts(g);
    var s := Trim(g);
    assert g == before + (s + after);
    ViewSpace(before, s + after);
    ViewRegions(before, s + after, Plain);
    assert after != [] ==> IsSpace(after[0]);
    GapContext(s, after, Plain);
    forall i | 0 <= i < |s| ensures IsSpace(Mask(s, COMMENTS_ONLY)[i]) {
      assert Regions(s, Plain)[i] == Regions(g, Plain)[|before| + i];
      assert s[i] == g[|before| + i];
      assert IsSpace(Mask(g, COMMENTS_ONLY)[|before| + i]);
    }
  }

  /** White space around one semicolon. */
  predicate BlankExcept(shown: Text, k: nat) {
    k < |shown| && shown[k] == SEMICOLON && forall i :: 0 <= i < |shown| && i != k ==> IsSpace(shown[i])
  }

  /** Comments around a semicolon are read alike when the semicolon is taken out. */
  lemma WithoutSemicolon(p: Text, q: Text)
    requires var f := p + ([SEMICOLON] + q); Warned(f, Plain) == QUIET && BlankExcept(Mask(f, COMMENTS_ONLY), |p|)
    ensures AllSpace(Mask(p + q, COMMENTS_ONLY)) && Warned(p + q, Plain) == QUIET
  {
    hide ViewOf, Regions, Warned, AllSpace, ShowAll;
    var t := [SEMICOLON] + q;
    var rs := BeforeSemicolon(p, q);
    var v := ViewOf(p, t, Plain);
    BlankContext(p, t, q, Plain);
    ViewRegions(p, q, Plain);
    SemicolonStep(q);
    WarnedJoin(p, t, Plain);
    WarnedJoin(p, q, Plain);
    QuietParts(v.seen, Warned(q, Plain));
    OutOfTheMiddle(p, rs, q, Regions(q, Plain));
  }

  /** Before such a semicolon the scanner is in code. */
  lemma BeforeSemicolon(p: Text, q: Text) returns (rs: seq<Region>)
    requires BlankExcept(Mask(p + ([SEMICOLON] + q), COMMENTS_ONLY), |p|)
    ensures var t := [SEMICOLON] + q;
            && ViewOf(p, t, Plain).View? && ViewOf(p, t, Plain).state.Plain? && ViewOf(p, t, Plain).regions == rs
            && Blanks(p, rs)
            && Mask(p + t, COMMENTS_ONLY) == ShowAll(p + t, rs + ([Plain] + Regions(q, Plain)), COMMENTS_ONLY)
  {
    hide ViewOf, Regions, Mask, ShowAll, BlankExcept, Blanks;
    var t := [SEMICOLON] + q;
    assert (p + t)[..|p|] == p && (p + t)[|p|..] == t;
    SemicolonBoundary(p + t, |p|);
    rs := ViewOf(p, t, Plain).regions;
    SemicolonStep(q);
    MaskRegions(p + t, rs + ([Plain] + Regions(q, Plain)));
    BlanksBefore(p, rs, q, Regions(q, Plain));
  }

  lemma SemicolonBoundary(f: Text, k: nat)
    requires k < |f| && BlankExcept(Mask(f, COMMENTS_ONLY), k)
    ensures ViewOf(f[..k], f[k..], Plain).View? && ViewOf(f[..k], f[k..], Plain).state.Plain?
    ensures Regions(f, Plain) == ViewOf(f[..k], f[k..], Plain).regions + Regions(f[k..], Plain)
  {
    hide ViewOf, Regions, Mask, BlankExcept;
    SemicolonIsCode(f, k);
    PlainBoundary(f, Plain, k);
    var rs := Regions(f, Plain);
    assert rs == rs[..k] + rs[k..];
  }

  lemma SemicolonIsCode(f: Text, k: nat)
    requires k < |f| && BlankExcept(Mask(f, COMMENTS_ONLY), k)
    ensures f[k] == SEMICOLON && Regions(f, Plain)[k].Plain?
  {
    hide Regions, MaskFrom;
    Shown(f, k, COMMENTS_ONLY);
    NoStringYet(f, Plain, k);
  }

  lemma MaskRegions(f: Text, rs: seq<Region>)
    requires Regions(f, Plain) == rs
    ensures |rs| == |f| && Mask(f, COMMENTS_ONLY) == ShowAll(f, rs, COMMENTS_ONLY)
  {
    hide Regions;
  }

  lemma BlanksBefore(p: Text, rs: seq<Region>, q: Text, qs: seq<Region>)
    requires |rs| == |p| && |qs| == |q|
    requires BlankExcept(ShowAll(p + ([SEMICOLON] + q), rs + ([Plain] + qs), COMMENTS_ONLY), |p|)
    ensures Blanks(p, rs)
  {
    var f, fs := p + ([SEMICOLON] + q), rs + ([Plain] + qs);
    forall i | 0 <= i < |p| ensures IsSpace(ShowAll(p, rs, COMMENTS_ONLY)[i]) {
      assert rs[i] == fs[i] && IsSpace(ShowAll(f, fs, COMMENTS_ONLY)[i]);
    }
  }

  lemma OutOfTheMiddle(p: Text, rs: seq<Region>, q: Text, qs: seq<Region>)
    requires |rs| == |p| && |qs| == |q|
    requires BlankExcept(ShowAll(p + ([SEMICOLON] + q), rs + ([Plain] + qs), COMMENTS_ONLY), |p|)
    ensures AllSpace(ShowAll(p + q, rs + qs, COMMENTS_ONLY))
  {
    var f, fs := p + ([SEMICOLON] + q), rs + ([Plain] + qs);
    forall i | 0 <= i < |p + q| ensures IsSpace(ShowAll(p + q, rs + qs, COMMENTS_ONLY)[i]) {
      var j := if i < |p| then i else i + 1;
      assert (rs + qs)[i] == fs[j] && (p + q)[i] == f[j];
      assert IsSpace(ShowAll(f, fs, COMMENTS_ONLY)[j]);
    }
  }

  lemma SemicolonStep(q: Text)
    ensures Regions([SEMICOLON] + q, Plain) == [Plain] + Regions(q, Plain)
    ensures Warned([SEMICOLON] + q, Plain) == Warned(q, Plain)
  {
    var t := [SEMICOLON] + q;
    assert t[1..] == q;
    RegionsStep(t, Plain);
    WarnedStep(t, Plain);
  }

  /** The statement is code to its last byte and the suffix is comments and white space only. */
  lemma SplitGives(sql: Text)
    requires Warned(sql, Plain) == QUIET
    requires var st := SplitSuffix(sql).statement; st != [] && EndsInCode(st) && SEMICOLON !in Mask(st, EVERYTHING)
    ensures Tidy(SplitSuffix(sql).statement) && Trailing(SplitSuffix(sql).suffix)
  {
    hide EndsInCode, Warned, Trim, Mask, Content, Tidy, Trailing;
    var s := Trim(sql);
    QuietTrim(sql);
    AlterRescan.TrimTwice(sql);
    var shown := Mask(s, COMMENTS_ONLY);
    var last := Content(shown);
    if shown[last - 1] != SEMICOLON {
      assert last < |s| ==> IsSpace(shown[last..][0]);
      StatementParts(s, last);
      TrimmedTrailing(s[last..]);
    } else {
      var k, e := last - 1, Content(shown[..last - 1]);
      BlankOrSemicolon(shown, e, k);
      CutAtSemicolon(s, k, e);
    }
  }

  /** A position after the last code of a trimmed text, or before its last semicolon. */
  predicate StatementEndsAt(s: Text, e: nat) {
    && 0 < e <= |s| && !IsSpace(Mask(s, COMMENTS_ONLY)[e - 1])
    && (e < |s| ==> IsSpace(Mask(s, COMMENTS_ONLY)[e]) || Mask(s, COMMENTS_ONLY)[e] == SEMICOLON)
    && EndsInCode(Trim(s[..e])) && SEMICOLON !in Mask(Trim(s[..e]), EVERYTHING)
  }

  lemma CutAtSemicolon(s: Text, k: nat, e: nat)
    requires Trim(s) == s && Warned(s, Plain) == QUIET
    requires StatementEndsAt(s, e) && e <= k < |s| && Mask(s, COMMENTS_ONLY)[k] == SEMICOLON
    requires BlankExcept(Mask(s, COMMENTS_ONLY)[e..], k - e)
    ensures Tidy(Trim(s[..e])) && Trailing(Trim(s[e..k] + s[k + 1..]))
  {
    hide StatementEndsAt, Warned, Trim, Mask, Tidy, Trailing, BlankExcept;
    StatementParts(s, e);
    SuffixAtSemicolon(s, e, k);
  }

  lemma SuffixAtSemicolon(s: Text, e: nat, k: nat)
    requires e <= k < |s| && Mask(s, COMMENTS_ONLY)[k] == SEMICOLON
    requires Mask(s[e..], COMMENTS_ONLY) == Mask(s, COMMENTS_ONLY)[e..]
    requires Warned(s[e..], Plain) == QUIET && BlankExcept(Mask(s[e..], COMMENTS_ONLY), k - e)
    ensures Trailing(Trim(s[e..k] + s[k + 1..]))
  {
    hide Warned, Trim, Mask, Trailing, BlankExcept;
    Shown(s, k, COMMENTS_ONLY);
    TakeApart(s, e, k);
    WithoutSemicolon(s[e..k], s[k + 1..]);
    TrimmedTrailing(s[e..k] + s[k + 1..]);
  }

  lemma TakeApart(s: Text, e: nat, k: nat)
    requires e <= k < |s|
    ensures s[e..] == s[e..k] + ([s[k]] + s[k + 1..])
  {
  }

  lemma BlankOrSemicolon(shown: Text, e: nat, k: nat)
    requires e <= k < |shown| && AllSpace(shown[..k][e..]) && shown[k] == SEMICOLON && AllSpace(shown[k + 1..])
    ensures BlankExcept(shown[e..], k - e)
    ensures e < k ==> IsSpace(shown[e])
  {
    forall i | 0 <= i < |shown| - e && i != k - e ensures IsSpace(shown[e..][i]) {
      if e + i < k {
        assert shown[..k][e..][i] == shown[e + i];
      } else {
        assert shown[k + 1..][e + i - k - 1] == shown[e + i];
      }
    }
    assert e < k ==> shown[e..][0] == shown[e];
  }

  lemma MaskAt(s: Text, i: nat, o: Options)
    requires i < |s|
    ensures Mask(s, o)[i] == Show(s[i], Regions(s, Plain)[i], o)
  {
    hide Regions;
  }

  /** A byte shown as something else than white space is the byte itself, in no comment. */
  lemma Shown(s: Text, i: nat, o: Options)
    requires i < |s| && !IsSpace(Mask(s, o)[i])
    ensures s[i] == Mask(s, o)[i] && !IsSpace(s[i]) && !IsComment(Regions(s, Plain)[i])
  {
    hide Regions, Mask, ShowAll;
    assert Mask(s, o)[i] == Show(s[i], Regions(s, Plain)[i], o) by { MaskAt(s, i, o); }
  }

  /** The parts of a trimmed text on both sides of a statement's end. */
  lemma StatementParts(s: Text, e: nat)
    requires Trim(s) == s && Warned(s, Plain) == QUIET
    requires e <= |s| && StatementEndsAt(s, e)
    ensures Trim(s[..e]) == s[..e] && Tidy(s[..e])
    ensures Mask(s[e..], COMMENTS_ONLY) == Mask(s, COMMENTS_ONLY)[e..] && Warned(s[e..], Plain) == QUIET
  {
    hide ViewOf, Regions, Warned, Trim, Mask;
    var a, f := s[..e], s[e..];
    Shown(s, e - 1, COMMENTS_ONLY);
    TrimEdges(s);
    TrimNothing(a);
    StatementEnd(s, e);
    assert a + f == s;
    MaskJoin(a, f, COMMENTS_ONLY);
    QuietJoin(a, f);
    QuietParts(ViewOf(a, [], Plain).seen, Warned(f, Plain));
    assert Mask(a, COMMENTS_ONLY)[e - 1] == Mask(s, COMMENTS_ONLY)[e - 1];
    LastSemicolon(a);
  }

  /** A semicolon at the end of a closed statement would be code. */
  lemma LastSemicolon(a: Text)
    requires a != [] && EndsInCode(a) && SEMICOLON !in Mask(a, EVERYTHING)
    requires !IsSpace(Mask(a, COMMENTS_ONLY)[|a| - 1])
    ensures a[|a| - 1] != SEMICOLON
  {
    hide ViewOf, Regions;
    if Regions(a, Plain)[|a| - 1].Quoted? {
      QuotedEnd(a, Plain);
    }
    assert Mask(a, EVERYTHING)[|a| - 1] in Mask(a, EVERYTHING);
  }

  // ---------- putting a statement and its suffix together ----------

  /** A tidy statement and its trailing comments are split where they were joined. */
  lemma TidySplit(st: Text, suffix: Text)
    requires Tidy(st) && Trailing(suffix)
    ensures SplitSuffix(st + Padded(suffix)) == Parts(st, suffix)
    ensures Warned(st + Padded(suffix), Plain) == QUIET
    ensures Regions(st + Padded(suffix), Plain) == Regions(st, Plain) + Regions(Padded(suffix), Plain)
    ensures AllSpace(Mask(Padded(suffix), COMMENTS_ONLY))
  {
    hide ViewOf, Regions, Warned, Trim, Move;
    var u := Padded(suffix);
    var r := st + u;
    PaddedSuffix(suffix);
    ViewContext(st, [], u, Plain);
    ViewRegions(st, u, Plain);
    ViewAll(st, Plain);
    WarnedJoin(st, u, Plain);
    MaskJoin(st, u, COMMENTS_ONLY);
    ContentUnique(Mask(st, COMMENTS_ONLY), Mask(u, COMMENTS_ONLY));
    MaskShape(st, Plain, COMMENTS_ONLY);
    if suffix != [] {
      TrimEdges(suffix);
    }
    TrimNothing(r);
    TrimNothing(st);
    assert r[..|st|] == st && r[|st|..] == u;
  }

  lemma PaddedSuffix(suffix: Text)
    requires Trailing(suffix)
    ensures var u := Padded(suffix);
            && Harmless(u) && AtGap(u)
            && AllSpace(Mask(u, COMMENTS_ONLY)) && Warned(u, Plain) == QUIET && Trim(u) == suffix
  {
    hide Regions, Warned, Trim, Mask, ViewOf;
    if suffix != [] {
      TrimEdges(suffix);
      AlterRescan.TrimSpace(suffix);
      ViewSpace([SPACE], suffix);
      ViewRegions([SPACE], suffix, Plain);
      WarnedJoin([SPACE], suffix, Plain);
      OneSpace();
      assert Regions([SPACE] + suffix, Plain) == Regions([SPACE], Plain) + Regions(suffix, Plain);
      MaskJoin([SPACE], suffix, COMMENTS_ONLY);
    }
  }

  lemma OneSpace()
    ensures Regions([SPACE], Plain) == [Plain] && Mask([SPACE], COMMENTS_ONLY) == [SPACE]
    ensures seq(1, i => Plain) == [Plain]
  {
    assert Regions([], Plain) == [];
    assert Regions([SPACE], Plain) == [Plain] + Regions([SPACE][1..], Plain);
  }

  // ---------- appending to a statement ----------

  /** Text that can be appended to a statement: all code, after a comma or a space. */
  predicate Code(y: Text) {
    && y != [] && (y[0] == COMMA || y[0] == SPACE)
    && Unremarkable(y) && forall i :: 0 <= i < |y| ==> !(y[i] < SPACE || y[i] == 127)
  }

  /** Code appended to a statement that ends in code is code, and the statement is read as before. */
  lemma Append(st: Text, y: Text)
    requires EndsInCode(st) && Code(y)
    ensures Regions(st + y, Plain) == Regions(st, Plain) + AllPlain(|y|)
    ensures forall o: Options :: Mask(st + y, o) == Mask(st, o) + y
    ensures EndsInCode(st + y) && ViewOf(st + y, [], Plain).seen == ViewOf(st, [], Plain).seen
  {
    hide ViewOf, Regions, Move;
    ViewContext(st, [], y, Plain);
    assert y + [] == y;
    ViewJoin(st, y, [], Plain);
    PlainView(y, []);
    ViewAll(st, Plain);
    ViewAll(st + y, Plain);
    forall o: Options ensures Mask(st + y, o) == Mask(st, o) + y {
      ShowJoin(st, Regions(st, Plain), y, AllPlain(|y|), o);
      assert ShowAll(y, AllPlain(|y|), o) == y;
    }
  }

  /** After a space, appended code is code if and only if the statement ends in code. */
  lemma AppendedInCode(st: Text, y: Text)
    requires Code(y) && y[0] == SPACE
    ensures Regions(st + y, Plain)[|st|..] == AllPlain(|y|) <==> EndsInCode(st)
  {
    hide ViewOf, Regions, Move;
    if EndsInCode(st) {
      Append(st, y);
    } else {
      ViewAll(st, Plain);
      NotCodeAfter(st, y, Plain);
      assert Regions(st + y, Plain)[|st|..][0] == Regions(st + y, Plain)[|st|];
      assert AllPlain(|y|)[0] == Plain;
    }
  }

  /**
   * After a comma, appended code is code if and only if the statement ends in code
   * before that comma, where a final `--` opens no comment.
   */
  lemma AppendedAfterComma(st: Text, y: Text)
    requires Code(y) && y[0] == COMMA
    ensures Regions(st + y, Plain)[|st|..] == AllPlain(|y|) <==> AlterRescan.Closed(st)
  {
    hide ViewOf, Regions, Move;
    assert y == [COMMA] + y[1..];
    CommaContext(st, y[1..], Plain);
    assert (st + y)[..|st|] == st && (st + y)[|st|..] == y;
    assert Regions(st + y, Plain)[|st|..][0] == Regions(st + y, Plain)[|st|] && AllPlain(|y|)[0] == Plain;
    if Regions(st + y, Plain)[|st|].Plain? {
      PlainBoundary(st + y, Plain, |st|);
    }
    if AlterRescan.Closed(st) {
      assert y + [] == y;
      PlainView(y, []);
      ViewAll(y, Plain);
      ViewRegions(st, y, Plain);
    }
  }
}
