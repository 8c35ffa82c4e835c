/** A statement that the build leaves ending in two dashes, so that what it appends is a comment. */
module OnlineDdlHidden {
  import opened Bytes
  import opened Wrappers
  import opened SqlScanner
  import opened SqlContext
  import opened SqlEdges
  import opened Identifiers
  import opened AlterClauses
  import opened DdlTarget
  import opened DdlClauses
  import opened OnlineDdl
  import opened OnlineDdlScan

  const INDEXED := Ascii("CREATE INDEX k ON t (a) ")
  const DASHES: Text := [DASH, DASH]
  const COMMENT: Text := [SLASH, STAR, STAR, SLASH]
  const BLANKS: Text := [SPACE, SPACE]

  /** The appended clauses. */
  const APPENDED := Missing([SPACE], false, false)

  /**
   * `CREATE INDEX k ON t (a) --`, directly followed by an empty block comment, is built without error:
   * before the comment the dashes are code, before the appended clauses they open a line comment.
   */
  lemma ClausesInComment()
    ensures var sql, r := INDEXED + DASHES + COMMENT, INDEXED + DASHES + APPENDED + ([SPACE] + COMMENT);
            && Build(sql) == Done(r)
            && |APPENDED| > 0
            && forall i :: |INDEXED + DASHES| <= i < |INDEXED + DASHES + APPENDED| ==>
                 Regions(r, Plain)[i] == LineComment
  {
    hide Regions, SplitSuffix, Complete, Warned, Mask, Missing;
    OrdinaryHead();
    SplitAtDashes();
    HeadIs(DASHES + COMMENT, COMMENTS_ONLY);
    assert INDEXED + DASHES + COMMENT == INDEXED + (DASHES + COMMENT);
    DashesBeforeComment();
    HeadIs(DASHES, EVERYTHING);
    DashesMask(EVERYTHING);
    assert SEMICOLON !in INDEXED + BLANKS;
    CompleteAtDashes();
    AppendedHidden();
  }

  // ---------- plain text ----------

  /** Printable text in which nothing is special to the scanner, without a semicolon. */
  predicate Ordinary(s: Text) {
    forall i :: 0 <= i < |s| ==> IsOrdinary(s[i])
  }

  predicate IsOrdinary(b: Byte) {
    32 <= b < 127 && !IsQuote(b) && b != HASH && b != SLASH && b != DASH && b != SEMICOLON
  }

  lemma OrdinaryHead()
    ensures Ordinary(INDEXED) && |INDEXED| == 24
  {
  }

  lemma OrdinaryScans(a: Text, b: Text, o: Options)
    requires Ordinary(a)
    ensures Regions(a + b, Plain) == AllPlain(|a|) + Regions(b, Plain)
    ensures Mask(a + b, o) == a + Mask(b, o)
    ensures Warned(a + b, Plain) == Warned(b, Plain)
  {
    hide Regions, ViewOf, Warned, Show;
    PlainView(a, b);
    ViewRegions(a, b, Plain);
    WarnedJoin(a, b, Plain);
    ShowJoin(a, AllPlain(|a|), b, Regions(b, Plain), o);
    OrdinaryShown(a, o);
  }

  lemma OrdinaryShown(a: Text, o: Options)
    requires Ordinary(a)
    ensures ShowAll(a, AllPlain(|a|), o) == a
  {
  }

  lemma HeadIs(b: Text, o: Options)
    ensures Regions(INDEXED + b, Plain) == AllPlain(|INDEXED|) + Regions(b, Plain)
    ensures Mask(INDEXED + b, o) == INDEXED + Mask(b, o)
    ensures Warned(INDEXED + b, Plain) == Warned(b, Plain)
  {
    OrdinaryHead();
    OrdinaryScans(INDEXED, b, o);
  }

  // ---------- splitting ----------

  lemma DashesBeforeComment()
    ensures Mask(DASHES + COMMENT, COMMENTS_ONLY) == DASHES + (BLANKS + BLANKS)
    ensures Warned(DASHES + COMMENT, Plain) == QUIET
  {
    hide ShowAll, Regions, Warned;
    var s := DASHES + COMMENT;
    assert s[1..] == [DASH] + COMMENT && ([DASH] + COMMENT)[1..] == COMMENT;
    EmptyComment();
    RegionsStep(s, Plain);
    RegionsStep(s[1..], Plain);
    WarnedStep(s, Plain);
    WarnedStep(s[1..], Plain);
    DashesShown(Regions(s, Plain));
  }

  lemma EmptyComment()
    ensures Regions(COMMENT, Plain) == [BlockComment, BlockComment, BlockComment, BlockComment]
    ensures Warned(COMMENT, Plain) == QUIET
  {
    hide Regions, Warned;
    var s: Text := [STAR, SLASH];
    assert COMMENT[2..] == s && s[2..] == [];
    RegionsStep(COMMENT, Plain);
    RegionsStep(s, BlockComment);
    WarnedStep(COMMENT, Plain);
    WarnedStep(s, BlockComment);
    WarnedNothing(Plain);
  }

  lemma DashesShown(rs: seq<Region>)
    requires rs == [Plain, Plain, BlockComment, BlockComment, BlockComment, BlockComment]
    ensures ShowAll(DASHES + COMMENT, rs, COMMENTS_ONLY) == DASHES + (BLANKS + BLANKS)
  {
  }

  lemma SplitAtDashes()
    ensures SplitSuffix(INDEXED + DASHES + COMMENT) == Parts(INDEXED + DASHES, COMMENT)
  {
    hide Mask, Trim, Warned, Regions;
    var st, sql := INDEXED + DASHES, INDEXED + DASHES + COMMENT;
    assert sql == INDEXED + (DASHES + COMMENT);
    HeadIs(DASHES + COMMENT, COMMENTS_ONLY);
    DashesBeforeComment();
    assert Mask(sql, COMMENTS_ONLY) == st + (BLANKS + BLANKS);
    ContentUnique(st, BLANKS + BLANKS);
    TrimNothing(sql);
    TrimNothing(st);
    TrimNothing(COMMENT);
    assert sql[..|st|] == st && sql[|st|..] == COMMENT;
  }

  // ---------- completing ----------

  lemma DashesMask(o: Options)
    ensures Mask(DASHES, o) == BLANKS
  {
    assert DASHES[2..] == [];
    assert Regions(DASHES, Plain) == [LineComment, LineComment];
  }

  lemma CompleteAtDashes()
    ensures Complete(INDEXED + DASHES) == Done(INDEXED + DASHES + APPENDED)
  {
    hide Mask, Target, AlterTarget, TopLevel, ReadClause, Regions, Warned;
    HeadIs(DASHES, STRINGS);
    HeadIs(DASHES, EVERYTHING);
    DashesMask(STRINGS);
    DashesMask(EVERYTHING);
    IndexedTarget();
    IndexedTail();
    NoClause(ALGORITHM);
    NoClause(LOCK);
  }

  lemma NotWord(s: Text, keyword: Text)
    requires IsKeyword(keyword) && s != [] && Upper(s[0]) != keyword[0]
    ensures WordLength(s, keyword).None?
  {
  }

  lemma WordIs(keyword: Text, rest: Text)
    requires IsKeyword(keyword) && rest != [] && !IsBreak(rest[0])
    ensures WordLength(keyword + ([SPACE] + rest), keyword) == Some(|keyword| + 1)
  {
    var s := keyword + ([SPACE] + rest);
    assert s[..|keyword|] == keyword && UpperText(keyword) == keyword;
    assert s[|keyword|..] == [SPACE] + rest;
    OneBreak(rest);
  }

  lemma OneBreak(rest: Text)
    requires rest != [] && !IsBreak(rest[0])
    ensures Breaks(rest) == 0 && Breaks([SPACE] + rest) == 1
  {
    assert ([SPACE] + rest)[1..] == rest;
  }

  lemma IndexedTarget()
    ensures Target(INDEXED + BLANKS) == Some(Span(18, 19)) && AlterTarget(INDEXED + BLANKS).None?
  {
    hide Target, AlterTarget, CreateIndex, NamedIndex, IndexTable, ReferenceAt;
    var e := Ascii("(a)   ");
    var r := Ascii("t ") + e;
    var t := ON + ([SPACE] + r);
    var n := Ascii("k ") + t;
    var i := INDEX + ([SPACE] + n);
    assert INDEXED + BLANKS == CREATE + ([SPACE] + i);
    ReferenceHere(e);
    TableHere(r);
    NameHere(t);
    IndexHere(n);
    CreateHere(i);
  }

  lemma CreateHere(r: Text)
    requires r != [] && !IsBreak(r[0])
    ensures var s := CREATE + ([SPACE] + r); AlterTarget(s).None? && Target(s) == Shift(7, CreateIndex(r))
  {
    hide CreateIndex, WordLength;
    var s := CREATE + ([SPACE] + r);
    assert s[0..] == s && s[7..] == r;
    NotWord(s, ALTER);
    WordIs(CREATE, r);
  }

  lemma IndexHere(r: Text)
    requires r != [] && !IsBreak(r[0])
    ensures CreateIndex(INDEX + ([SPACE] + r)) == Shift(6, NamedIndex(r))
  {
    hide NamedIndex, WordLength;
    var s := INDEX + ([SPACE] + r);
    assert s[0..] == s && s[6..] == r;
    NotWord(s, OR);
    NotWord(s, UNIQUE);
    NotWord(s, FULLTEXT);
    NotWord(s, SPATIAL);
    WordIs(INDEX, r);
  }

  /** An index named `k`. */
  lemma NameHere(t: Text)
    requires t != [] && !IsBreak(t[0])
    ensures NamedIndex(Ascii("k ") + t) == Shift(2, IndexTable(t))
  {
    hide WordLength, IndexTable;
    var s := Ascii("k ") + t;
    assert s[0..] == s && s[1..] == [SPACE] + t && s[2..] == t;
    NotWord(s, IF);
    assert BareLength(s[1..]) == 0 && IdentLength(s) == Some(1);
    OneBreak(t);
  }

  lemma TableHere(r: Text)
    requires r != [] && !IsBreak(r[0])
    ensures var t := ON + ([SPACE] + r); IndexTable(t) == Shift(3, ReferenceAt(r, true))
  {
    hide WordLength, ReferenceAt;
    var t := ON + ([SPACE] + r);
    assert t[0..] == t && t[3..] == r;
    NotWord(t, USING);
    WordIs(ON, r);
  }

  /** A table named `t`, not qualified. */
  lemma ReferenceHere(r: Text)
    requires r != [] && !IsBreak(r[0]) && r[0] != DOT
    ensures ReferenceAt(Ascii("t ") + r, true) == Some(Span(0, 1))
  {
    var s := Ascii("t ") + r;
    assert s[1..] == [SPACE] + r;
    OneBreak(r);
    assert BareLength(s[1..]) == 0 && IdentLength(s) == Some(1);
    assert DotLength(s[1..]).None?;
  }

  lemma IndexedTail()
    ensures (INDEXED + BLANKS)[19..] == Ascii(" (a)   ")
    ensures TopLevel(Ascii(" (a)   "), 0) == seq(7, i => SPACE)
  {
    var s := Ascii(" (a)   ");
    assert (INDEXED + BLANKS)[19..] == s;
  }

  lemma NoClause(clause: Text)
    requires IsClause(clause)
    ensures ReadClause(seq(7, i => SPACE), clause) == Absent
  {
    hide FindAll;
    var s := seq(7, i => SPACE);
    assert s + [] == s;
    assert clause[0] == 'A' as int as Byte || clause[0] == 'L' as int as Byte;
    PassOver(s, [], false, clause, Start);
    PassOver(s, [], false, clause, Assign);
    PassOver(s, [], false, clause, Spaced);
    FindNothing(EndsInWord(s, false), clause);
  }

  lemma FindNothing(inWord: bool, clause: Text)
    requires clause != []
    ensures forall form: Form :: FindAll([], inWord, clause, form) == []
  {
  }

  // ---------- the result ----------

  lemma {:induction false} LineRuns(s: Text)
    requires LF !in s && CR !in s
    ensures Regions(s, LineComment) == seq(|s|, i => LineComment)
    decreases |s|
  {
    if s != [] {
      LineRuns(s[1..]);
      assert [LineComment] + seq(|s| - 1, i => LineComment) == seq(|s|, i => LineComment);
    }
  }

  lemma AppendedHidden()
    ensures |APPENDED| > 0
    ensures var r := INDEXED + DASHES + APPENDED + ([SPACE] + COMMENT);
            forall i :: |INDEXED| <= i < |r| ==> Regions(r, Plain)[i] == LineComment
  {
    hide Regions, Missing, INDEXED, APPENDED;
    AppendedOrdinary();
    OrdinaryHead();
    HiddenAfter(INDEXED, APPENDED);
  }

  /** After such a head and two dashes, text on the same line is a comment. */
  lemma HiddenAfter(a: Text, x: Text)
    requires Ordinary(a) && x != [] && x[0] == SPACE && Ordinary(x)
    ensures var r := a + DASHES + x + ([SPACE] + COMMENT);
            forall i :: |a| <= i < |r| ==> Regions(r, Plain)[i] == LineComment
  {
    hide Regions, Mask;
    var rest := x + ([SPACE] + COMMENT);
    AfterDashes(rest);
    OrdinaryScans(a, DASHES + rest, COMMENTS_ONLY);
    AllHidden(Regions(a + (DASHES + rest), Plain), AllPlain(|a|), |rest| + 2);
    assert a + DASHES + x + ([SPACE] + COMMENT) == a + (DASHES + rest);
  }

  lemma AfterDashes(rest: Text)
    requires AtGap(rest) && LF !in rest && CR !in rest
    ensures Regions(DASHES + rest, Plain) == seq(|rest| + 2, i => LineComment)
  {
    hide Regions;
    var s := DASHES + rest;
    assert s[2..] == rest;
    RegionsStep(s, Plain);
    LineRuns(rest);
  }

  lemma AllHidden(rs: seq<Region>, a: seq<Region>, n: nat)
    requires rs == a + seq(n, k => LineComment)
    ensures forall i :: |a| <= i < |rs| ==> rs[i] == LineComment
  {
  }

  lemma AppendedOrdinary()
    ensures APPENDED != [] && APPENDED[0] == SPACE && Ordinary(APPENDED)
  {
    hide Ordinary, ALGORITHM, LOCK, INPLACE, NONE;
    WordsOrdinary();
    ClauseOrdinary(ALGORITHM, INPLACE);
    ClauseOrdinary(LOCK, NONE);
    OrdinaryJoin([SPACE] + ClauseText(ALGORITHM, INPLACE), [SPACE] + ClauseText(LOCK, NONE));
  }

  lemma ClauseOrdinary(clause: Text, value: Text)
    requires Ordinary(clause) && Ordinary(value)
    ensures Ordinary([SPACE] + ClauseText(clause, value))
  {
    hide Ordinary;
    assert Ordinary([SPACE]) && Ordinary([EQUALS]) by { MarksOrdinary(); }
    OrdinaryJoin([EQUALS], value);
    OrdinaryJoin(clause, [EQUALS] + value);
    OrdinaryJoin([SPACE], clause + ([EQUALS] + value));
  }

  lemma MarksOrdinary()
    ensures Ordinary([SPACE]) && Ordinary([EQUALS])
  {
  }

  lemma WordsOrdinary()
    ensures Ordinary(ALGORITHM) && Ordinary(LOCK) && Ordinary(INPLACE) && Ordinary(NONE)
  {
  }

  lemma OrdinaryJoin(a: Text, b: Text)
    requires Ordinary(a) && Ordinary(b)
    ensures Ordinary(a + b)
  {
  }
}
