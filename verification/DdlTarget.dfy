/**
 * Finding the table an ALTER TABLE or CREATE INDEX statement names.  The
 * patterns are matched over masked text, by hand: every choice that a regular
 * expression would try, in its order.
 */
module DdlTarget {
  import opened Bytes
  import opened Wrappers
  import opened Identifiers

  /** The bytes of a table reference inside a statement. */
  datatype Span = Span(start: nat, end: nat)

  const ALTER: Text := Ascii("ALTER")
  const TABLE: Text := Ascii("TABLE")
  const ONLINE: Text := Ascii("ONLINE")
  const IGNORE: Text := Ascii("IGNORE")
  const IF: Text := Ascii("IF")
  const NOT: Text := Ascii("NOT")
  const EXISTS: Text := Ascii("EXISTS")
  const CREATE: Text := Ascii("CREATE")
  const OR: Text := Ascii("OR")
  const REPLACE: Text := Ascii("REPLACE")
  const UNIQUE: Text := Ascii("UNIQUE")
  const FULLTEXT: Text := Ascii("FULLTEXT")
  const SPATIAL: Text := Ascii("SPATIAL")
  const INDEX: Text := Ascii("INDEX")
  const USING: Text := Ascii("USING")
  const BTREE: Text := Ascii("BTREE")
  const HASH_METHOD: Text := Ascii("HASH")
  const RTREE: Text := Ascii("RTREE")
  const ON: Text := Ascii("ON")

  predicate IsKeyword(keyword: Text) {
    |keyword| >= 2 && forall i :: 0 <= i < |keyword| ==> IsUpper(keyword[i])
  }

  /** Length of a keyword, in any case, and the white space that must follow it. */
  function WordLength(s: Text, keyword: Text): (r: Option<nat>)
    ensures r.Some? ==> |keyword| < r.value <= |s|
  {
    if |keyword| < |s| && UpperText(s[..|keyword|]) == keyword && IsBreak(s[|keyword|]) then
      Some(|keyword| + Breaks(s[|keyword|..]))
    else None
  }

  /** Length of several keywords in a row, each with white space after it. */
  function PhraseLength(s: Text, keywords: seq<Text>): (r: Option<nat>)
    ensures r.Some? ==> r.value <= |s|
    decreases |keywords|
  {
    if keywords == [] then Some(0) else
      var w := WordLength(s, keywords[0]);
      if w.None? then None else Longer(w.value, PhraseLength(s[w.value..], keywords[1..]))
  }

  /** The same, where the phrase may be absent. */
  function Optionally(s: Text, keywords: seq<Text>): (n: nat)
    ensures n <= |s|
  {
    var r := PhraseLength(s, keywords);
    if r.None? then 0 else r.value
  }

  function Modifier(s: Text): (n: nat)
    ensures n <= |s|
  {
    if WordLength(s, ONLINE).Some? then WordLength(s, ONLINE).value else Optionally(s, [IGNORE])
  }

  function IndexKind(s: Text): (n: nat)
    ensures n <= |s|
  {
    if WordLength(s, UNIQUE).Some? then WordLength(s, UNIQUE).value
    else if WordLength(s, FULLTEXT).Some? then WordLength(s, FULLTEXT).value
    else Optionally(s, [SPATIAL])
  }

  function IndexMethod(s: Text): (n: nat)
    ensures n <= |s|
  {
    if PhraseLength(s, [USING, BTREE]).Some? then PhraseLength(s, [USING, BTREE]).value
    else if PhraseLength(s, [USING, HASH_METHOD]).Some? then PhraseLength(s, [USING, HASH_METHOD]).value
    else Optionally(s, [USING, RTREE])
  }

  function Shift(n: nat, r: Option<Span>): Option<Span> {
    if r.None? then None else Some(Span(n + r.value.start, n + r.value.end))
  }

  /** Whether a table reference may end here. */
  predicate Ends(s: Text, paren: bool) {
    s == [] || IsBreak(s[0]) || (paren && s[0] == LPAREN)
  }

  /** Length of two identifiers joined by a dot. */
  function QualifiedLength(s: Text): (r: Option<nat>)
    ensures r.Some? ==> 0 < r.value <= |s|
  {
    var first := IdentLength(s);
    if first.None? then None else
      var dot := DotLength(s[first.value..]);
      if dot.None? then None else
        Longer(first.value + dot.value, IdentLength(s[first.value + dot.value..]))
  }

  /** A reference at the start of a text: qualified if that can end there, else bare. */
  function ReferenceAt(s: Text, paren: bool): (r: Option<Span>)
    ensures r.Some? ==> r.value.start < r.value.end <= |s|
  {
    var first, whole := IdentLength(s), QualifiedLength(s);
    if whole.Some? && Ends(s[whole.value..], paren) then Some(Span(0, whole.value))
    else if first.Some? && Ends(s[first.value..], paren) then Some(Span(0, first.value))
    else None
  }

  function AlteredTable(s: Text): (r: Option<Span>)
    ensures r.Some? ==> r.value.start < r.value.end <= |s|
  {
    var n := Optionally(s, [IF, EXISTS]);
    var guarded := if n > 0 then Shift(n, ReferenceAt(s[n..], false)) else None;
    if guarded.Some? then guarded else ReferenceAt(s, false)
  }

  function AlterTable(s: Text): (r: Option<Span>)
    ensures r.Some? ==> r.value.start < r.value.end <= |s|
  {
    var i := Modifier(s);
    var j := i + Modifier(s[i..]);
    var w := WordLength(s[j..], TABLE);
    if w.None? then None else Shift(j + w.value, AlteredTable(s[j + w.value..]))
  }

  /** The table named by an ALTER TABLE statement. */
  function AlterTarget(s: Text): (r: Option<Span>)
    ensures r.Some? ==> r.value.start < r.value.end <= |s|
  {
    var i := Breaks(s);
    var w := WordLength(s[i..], ALTER);
    if w.None? then None else Shift(i + w.value, AlterTable(s[i + w.value..]))
  }

  function IndexTable(s: Text): (r: Option<Span>)
    ensures r.Some? ==> r.value.start < r.value.end <= |s|
  {
    var i := IndexMethod(s);
    var w := WordLength(s[i..], ON);
    if w.None? then None else Shift(i + w.value, ReferenceAt(s[i + w.value..], true))
  }

  function IndexName(s: Text): (r: Option<Span>)
    ensures r.Some? ==> r.value.start < r.value.end <= |s|
  {
    var name := IdentLength(s);
    if name.None? then None else
      var gap := Breaks(s[name.value..]);
      if gap == 0 then None else Shift(name.value + gap, IndexTable(s[name.value + gap..]))
  }

  function NamedIndex(s: Text): (r: Option<Span>)
    ensures r.Some? ==> r.value.start < r.value.end <= |s|
  {
    var i := Optionally(s, [IF, NOT, EXISTS]);
    Shift(i, IndexName(s[i..]))
  }

  function CreateIndex(s: Text): (r: Option<Span>)
    ensures r.Some? ==> r.value.start < r.value.end <= |s|
  {
    var i := Optionally(s, [OR, REPLACE]);
    var j := i + IndexKind(s[i..]);
    var w := WordLength(s[j..], INDEX);
    if w.None? then None else Shift(j + w.value, NamedIndex(s[j + w.value..]))
  }

  /** The table named by a CREATE INDEX statement. */
  function CreateTarget(s: Text): (r: Option<Span>)
    ensures r.Some? ==> r.value.start < r.value.end <= |s|
  {
    var i := Breaks(s);
    var w := WordLength(s[i..], CREATE);
    if w.None? then None else Shift(i + w.value, CreateIndex(s[i + w.value..]))
  }

  function Target(s: Text): (r: Option<Span>)
    ensures r.Some? ==> r.value.start < r.value.end <= |s|
  {
    if AlterTarget(s).Some? then AlterTarget(s) else CreateTarget(s)
  }

  // ---------- extending a statement that goes on after its target ----------

  /** Text that can be put after a statement: a separator, then no quote. */
  predicate Appendable(y: Text) {
    y != [] && (y[0] == COMMA || y[0] == SPACE) && BACKTICK !in y && DQUOTE !in y
  }

  lemma {:induction false} BreaksWithin(s: Text, y: Text)
    ensures Breaks(s) < |s| ==> Breaks(s + y) == Breaks(s)
    ensures Breaks(s) == |s| ==> Breaks(s + y) == |s| + Breaks(y)
    decreases |s|
  {
    if s == [] {
      assert s + y == y;
    } else {
      assert (s + y)[1..] == s[1..] + y;
      BreaksWithin(s[1..], y);
    }
  }

  lemma {:induction false} BareWithin(s: Text, y: Text)
    requires Appendable(y)
    ensures BareLength(s + y) == BareLength(s)
    decreases |s|
  {
    if s == [] {
      assert s + y == y;
    } else {
      assert (s + y)[1..] == s[1..] + y;
      BareWithin(s[1..], y);
    }
  }

  lemma {:induction false} NoBody(y: Text, quote: Byte)
    requires quote !in y
    ensures BodyLength(y, quote).None?
  {
    if y != [] {
      NoBody(y[1..], quote);
    }
  }

  lemma {:induction false} BodyWithin(s: Text, y: Text, quote: Byte)
    requires y != [] && quote !in y
    ensures BodyLength(s + y, quote) == BodyLength(s, quote)
    decreases |s|
  {
    if s == [] {
      assert s + y == y;
      NoBody(y, quote);
    } else {
      assert (s + y)[1..] == s[1..] + y;
      if s[0] != quote {
        BodyWithin(s[1..], y, quote);
      } else if |s| > 1 && s[1] == quote {
        assert (s + y)[2..] == s[2..] + y;
        BodyWithin(s[2..], y, quote);
      } else {
        assert |s| == 1 ==> (s + y)[1] == y[0];
      }
    }
  }

  /** No identifier grows or appears when a separator is appended. */
  lemma IdentWithin(s: Text, y: Text)
    requires Appendable(y)
    ensures IdentLength(s + y) == IdentLength(s)
  {
    hide BodyLength, BareLength;
    BareWithin(s, y);
    if s == [] {
      assert s + y == y;
    } else {
      assert (s + y)[1..] == s[1..] + y;
      BodyWithin(s[1..], y, BACKTICK);
      BodyWithin(s[1..], y, DQUOTE);
    }
  }

  /** A keyword followed by something stays, and one that is cut short does not appear. */
  lemma WordWithin(s: Text, y: Text, keyword: Text)
    requires Appendable(y) && IsKeyword(keyword)
    ensures WordLength(s, keyword).Some? && WordLength(s, keyword).value < |s| ==>
              WordLength(s + y, keyword) == WordLength(s, keyword)
    ensures WordLength(s, keyword).None? && |s| != |keyword| ==> WordLength(s + y, keyword).None?
    ensures y[0] == COMMA ==> WordLength(s + y, keyword) == WordLength(s, keyword)
  {
    hide Breaks;
    var t, n := s + y, |keyword|;
    if n < |s| {
      assert t[..n] == s[..n] && t[n..] == s[n..] + y;
      BreaksWithin(s[n..], y);
      NoBreak(y);
    } else if n == |s| {
      assert t[n] == y[0];
    } else if n < |t| {
      assert UpperText(t[..n])[|s|] == Upper(y[0]);
    }
  }

  lemma NoBreak(y: Text)
    requires Appendable(y)
    ensures y[0] == COMMA ==> Breaks(y) == 0
  {
  }

  /** Two keywords with different first letters do not both start a text. */
  lemma WordClash(s: Text, y: Text, found: Text, keyword: Text)
    requires IsKeyword(found) && IsKeyword(keyword) && found[0] != keyword[0]
    requires WordLength(s, found).Some?
    ensures WordLength(s + y, keyword).None?
  {
    assert UpperText(s[..|found|])[0] == Upper(s[0]);
    if |keyword| < |s + y| {
      assert UpperText((s + y)[..|keyword|])[0] == Upper((s + y)[0]) == Upper(s[0]);
    }
  }

  predicate AllKeywords(keywords: seq<Text>) {
    forall i :: 0 <= i < |keywords| ==> IsKeyword(keywords[i])
  }

  lemma {:induction false} PhraseWithin(s: Text, y: Text, keywords: seq<Text>)
    requires Appendable(y) && AllKeywords(keywords)
    ensures PhraseLength(s, keywords).Some? && PhraseLength(s, keywords).value < |s| ==>
              PhraseLength(s + y, keywords) == PhraseLength(s, keywords)
    ensures y[0] == COMMA ==> PhraseLength(s + y, keywords) == PhraseLength(s, keywords)
    decreases |keywords|
  {
    hide WordLength;
    if keywords != [] {
      WordWithin(s, y, keywords[0]);
      var w := WordLength(s, keywords[0]);
      if w.Some? {
        assert (s + y)[w.value..] == s[w.value..] + y;
        PhraseWithin(s[w.value..], y, keywords[1..]);
      }
    }
  }

  // ---------- ALTER TABLE, where a comma is appended ----------

  predicate Comma(y: Text) {
    Appendable(y) && y[0] == COMMA
  }

  lemma QualifiedComma(s: Text, y: Text)
    requires Comma(y)
    ensures QualifiedLength(s + y) == QualifiedLength(s)
  {
    hide IdentLength, Breaks;
    IdentWithin(s, y);
    if IdentLength(s).Some? {
      var r := s[IdentLength(s).value..];
      assert (s + y)[IdentLength(s).value..] == r + y;
      BreaksWithin(r, y);
      NoBreak(y);
      var n := Breaks(r);
      if n < |r| && r[n] == DOT {
        assert (r + y)[n + 1..] == r[n + 1..] + y;
        BreaksWithin(r[n + 1..], y);
        var k := IdentLength(s).value + DotLength(r).value;
        assert (s + y)[k..] == s[k..] + y;
        IdentWithin(s[k..], y);
      }
    }
  }

  lemma ReferenceComma(s: Text, y: Text, paren: bool)
    requires Comma(y)
    ensures ReferenceAt(s, paren).None? ==> ReferenceAt(s + y, paren).None?
    ensures ReferenceAt(s, paren).Some? && ReferenceAt(s, paren).value.end < |s| ==>
              ReferenceAt(s + y, paren) == ReferenceAt(s, paren)
  {
    hide IdentLength, QualifiedLength;
    IdentWithin(s, y);
    QualifiedComma(s, y);
    if QualifiedLength(s).Some? {
      assert (s + y)[QualifiedLength(s).value..] == s[QualifiedLength(s).value..] + y;
    }
    if IdentLength(s).Some? {
      assert (s + y)[IdentLength(s).value..] == s[IdentLength(s).value..] + y;
    }
  }

  lemma AlteredComma(s: Text, y: Text)
    requires Comma(y)
    requires AlteredTable(s).Some? && AlteredTable(s).value.end < |s|
    ensures AlteredTable(s + y) == AlteredTable(s)
  {
    hide PhraseLength, ReferenceAt;
    PhraseWithin(s, y, [IF, EXISTS]);
    var n := Optionally(s, [IF, EXISTS]);
    assert (s + y)[n..] == s[n..] + y;
    ReferenceComma(s[n..], y, false);
    ReferenceComma(s, y, false);
  }

  lemma ModifierComma(s: Text, y: Text)
    requires Comma(y)
    ensures Modifier(s + y) == Modifier(s)
  {
    hide PhraseLength, WordLength;
    WordWithin(s, y, ONLINE);
    PhraseWithin(s, y, [IGNORE]);
  }

  lemma AlterTableComma(s: Text, y: Text)
    requires Comma(y)
    requires AlterTable(s).Some? && AlterTable(s).value.end < |s|
    ensures AlterTable(s + y) == AlterTable(s)
  {
    hide WordLength, Modifier, AlteredTable;
    ModifierComma(s, y);
    var i := Modifier(s);
    assert (s + y)[i..] == s[i..] + y;
    ModifierComma(s[i..], y);
    var j := i + Modifier(s[i..]);
    assert (s + y)[j..] == s[j..] + y;
    WordWithin(s[j..], y, TABLE);
    var k := j + WordLength(s[j..], TABLE).value;
    assert (s + y)[k..] == s[k..] + y;
    AlteredComma(s[k..], y);
  }

  /** Appending after a comma leaves the target of an ALTER TABLE statement where it is. */
  lemma AlterComma(s: Text, y: Text)
    requires Comma(y)
    requires AlterTarget(s).Some? && AlterTarget(s).value.end < |s|
    ensures AlterTarget(s + y) == AlterTarget(s)
  {
    hide WordLength, AlterTable, Breaks;
    BreaksWithin(s, y);
    var i := Breaks(s);
    assert (s + y)[i..] == s[i..] + y;
    WordWithin(s[i..], y, ALTER);
    var j := i + WordLength(s[i..], ALTER).value;
    assert (s + y)[j..] == s[j..] + y;
    AlterTableComma(s[j..], y);
  }

  // ---------- an assignment is appended after a space ----------

  /** A space, then a word and an equals sign. */
  predicate Assignment(y: Text) {
    && Appendable(y) && |y| > 1 && y[0] == SPACE && !IsBreak(y[1]) && y[1] != DOT
    && IdentLength(y[1..]).Some?
    && 1 + IdentLength(y[1..]).value < |y|
    && y[1 + IdentLength(y[1..]).value] == EQUALS
  }

  lemma BreaksAssignment(y: Text)
    requires Assignment(y)
    ensures Breaks(y) == 1
  {
    assert y[1..][0] == y[1];
  }

  /** A dot and the white space around it, when an assignment is appended. */
  lemma DotAssignment(r: Text, y: Text)
    requires Assignment(y)
    ensures DotLength(r).None? ==> DotLength(r + y).None?
    ensures DotLength(r).Some? && DotLength(r).value < |r| ==> DotLength(r + y) == DotLength(r)
    ensures DotLength(r).Some? && DotLength(r).value == |r| ==> DotLength(r + y) == Some(|r| + 1)
  {
    hide Breaks, IdentLength;
    BreaksWithin(r, y);
    BreaksAssignment(y);
    var n := Breaks(r);
    if n == |r| {
      assert (r + y)[n + 1] == y[1];
    } else if r[n] == DOT {
      assert (r + y)[n + 1..] == r[n + 1..] + y;
      BreaksWithin(r[n + 1..], y);
    }
  }

  // ---------- white space is appended ----------

  predicate Spacing(y: Text) {
    y != [] && y[0] == SPACE && AllBreaks(y)
  }

  lemma {:induction false} SpacingBreaks(y: Text)
    requires AllBreaks(y)
    ensures Breaks(y) == |y| && BACKTICK !in y && DQUOTE !in y
  {
    if y != [] {
      assert y == [y[0]] + y[1..];
      SpacingBreaks(y[1..]);
    }
  }

  lemma DotSpacing(r: Text, y: Text)
    requires Spacing(y)
    ensures DotLength(r).None? ==> DotLength(r + y).None?
    ensures DotLength(r).Some? && DotLength(r).value < |r| ==> DotLength(r + y) == DotLength(r)
    ensures DotLength(r).Some? && DotLength(r).value == |r| ==> DotLength(r + y) == Some(|r + y|)
  {
    hide Breaks;
    SpacingBreaks(y);
    BreaksWithin(r, y);
    var n := Breaks(r);
    if n < |r| && r[n] == DOT {
      assert (r + y)[n + 1..] == r[n + 1..] + y;
      BreaksWithin(r[n + 1..], y);
    }
  }

  /** White space at the end changes no reference. */
  lemma ReferenceSpacing(s: Text, y: Text, paren: bool)
    requires Spacing(y)
    ensures QualifiedLength(s + y) == QualifiedLength(s) && ReferenceAt(s + y, paren) == ReferenceAt(s, paren)
  {
    hide IdentLength, DotLength, AllBreaks;
    SpacingBreaks(y);
    IdentWithin(s, y);
    if IdentLength(s).Some? {
      var f := IdentLength(s).value;
      var r := s[f..];
      assert (s + y)[f..] == r + y;
      DotSpacing(r, y);
      if DotLength(r).Some? {
        var k := f + DotLength(r).value;
        if k < |s| {
          assert (s + y)[k..] == s[k..] + y;
          IdentWithin(s[k..], y);
        } else {
          EmptyIdent(s[k..]);
          EmptyIdent((s + y)[|s + y|..]);
        }
      }
    }
    if QualifiedLength(s).Some? {
      EndsSpacing(s, y, QualifiedLength(s).value, paren);
    }
    if IdentLength(s).Some? {
      EndsSpacing(s, y, IdentLength(s).value, paren);
    }
  }

  lemma EndsSpacing(s: Text, y: Text, n: nat, paren: bool)
    requires Spacing(y) && n <= |s|
    ensures Ends((s + y)[n..], paren) == Ends(s[n..], paren)
  {
    hide AllBreaks;
    assert (s + y)[n..] == s[n..] + y;
  }

  /** A keyword is found as before, or up to the end. */
  lemma WordSpacing(s: Text, y: Text, keyword: Text)
    requires Spacing(y) && IsKeyword(keyword)
    ensures WordLength(s + y, keyword) == WordLength(s, keyword) || WordLength(s + y, keyword) == Some(|s + y|)
    ensures WordLength(s, keyword).Some? && WordLength(s, keyword).value < |s| ==>
              WordLength(s + y, keyword) == WordLength(s, keyword)
  {
    hide Breaks;
    SpacingBreaks(y);
    var t, n := s + y, |keyword|;
    if n < |s| {
      assert t[..n] == s[..n] && t[n..] == s[n..] + y;
      BreaksWithin(s[n..], y);
    } else if n == |s| {
      assert t[n..] == y;
    } else if n < |t| {
      assert UpperText(t[..n])[|s|] == Upper(y[0]);
    }
  }

  lemma NothingFound(s: Text, keywords: seq<Text>)
    requires s == [] && keywords != []
    ensures PhraseLength(s, keywords).None?
  {
  }

  lemma {:induction false} PhraseSpacing(s: Text, y: Text, keywords: seq<Text>)
    requires Spacing(y) && AllKeywords(keywords)
    ensures var p, q := PhraseLength(s, keywords), PhraseLength(s + y, keywords);
            q == p || (q == Some(|s + y|) && (p.None? || p == Some(|s|)))
    decreases |keywords|
  {
    hide WordLength, AllBreaks;
    if keywords != [] {
      WordSpacing(s, y, keywords[0]);
      var v, w := WordLength(s, keywords[0]), WordLength(s + y, keywords[0]);
      if w == v {
        if w.Some? {
          assert (s + y)[w.value..] == s[w.value..] + y;
          PhraseSpacing(s[w.value..], y, keywords[1..]);
        }
      } else if keywords[1..] != [] {
        NothingFound((s + y)[|s + y|..], keywords[1..]);
        if v.Some? {
          NothingFound(s[|s|..], keywords[1..]);
        }
      }
    }
  }

  lemma AlteredSpacing(s: Text, y: Text)
    requires Spacing(y)
    ensures AlteredTable(s + y) == AlteredTable(s)
  {
    hide PhraseLength, ReferenceAt, AllBreaks;
    PhraseSpacing(s, y, [IF, EXISTS]);
    ReferenceSpacing(s, y, false);
    var n, m := Optionally(s, [IF, EXISTS]), Optionally(s + y, [IF, EXISTS]);
    if m == n {
      assert (s + y)[n..] == s[n..] + y;
      ReferenceSpacing(s[n..], y, false);
    } else {
      NoReference((s + y)[m..]);
      NoReference(s[|s|..]);
    }
  }

  lemma NoReference(s: Text)
    requires s == []
    ensures ReferenceAt(s, false).None?
  {
  }

  /** A modifier is read as before if it is followed by something, or TABLE stands in its place. */
  lemma ModifierSpacing(s: Text, y: Text)
    requires Spacing(y) && Modifier(s) < |s|
    requires Modifier(s) == 0 ==> WordLength(s, TABLE).Some?
    ensures Modifier(s + y) == Modifier(s)
  {
    hide WordLength, AllBreaks;
    SpacingBreaks(y);
    WordWithin(s, y, ONLINE);
    PhraseWithin(s, y, [IGNORE]);
    if WordLength(s, ONLINE).None? {
      if PhraseLength(s, [IGNORE]).Some? {
        PhraseFirst(s, [IGNORE]);
        WordClash(s, y, IGNORE, ONLINE);
      } else {
        WordClash(s, y, TABLE, ONLINE);
        PhraseClash(s, y, TABLE, [IGNORE]);
      }
    }
  }

  lemma AlterTableSpacing(s: Text, y: Text)
    requires Spacing(y) && AlterTable(s).Some?
    ensures AlterTable(s + y) == AlterTable(s)
  {
    hide WordLength, Modifier, AlteredTable, AllBreaks;
    SpacingBreaks(y);
    var i := Modifier(s);
    var j := i + Modifier(s[i..]);
    var k := j + WordLength(s[j..], TABLE).value;
    assert s[i..][Modifier(s[i..])..] == s[j..];
    assert i == 0 ==> s[i..] == s;
    assert j == i ==> s[j..] == s[i..];
    assert (s + y)[i..] == s[i..] + y && (s + y)[j..] == s[j..] + y && (s + y)[k..] == s[k..] + y;
    ModifierSpacing(s, y);
    ModifierSpacing(s[i..], y);
    WordWithin(s[j..], y, TABLE);
    AlteredSpacing(s[k..], y);
  }

  /** White space at the end leaves the target of an ALTER TABLE statement where it is. */
  lemma AlterSpacing(s: Text, y: Text)
    requires Spacing(y) && AlterTarget(s).Some?
    ensures AlterTarget(s + y) == AlterTarget(s)
  {
    hide WordLength, AlterTable, Breaks, AllBreaks;
    SpacingBreaks(y);
    BreaksWithin(s, y);
    var i := Breaks(s);
    assert (s + y)[i..] == s[i..] + y;
    WordWithin(s[i..], y, ALTER);
    var j := i + WordLength(s[i..], ALTER).value;
    assert (s + y)[j..] == s[j..] + y;
    AlterTableSpacing(s[j..], y);
  }

  // ---------- CREATE INDEX, where either is appended ----------

  /** An assignment or white space, after a space. */
  predicate Trailer(y: Text) {
    Assignment(y) || Spacing(y)
  }

  lemma QualifiedAssignment(s: Text, y: Text, paren: bool)
    requires Assignment(y)
    requires QualifiedLength(s).None? || QualifiedLength(s).value < |s|
    ensures QualifiedLength(s + y) == QualifiedLength(s)
          || (&& QualifiedLength(s).None? && QualifiedLength(s + y).Some?
              && !Ends((s + y)[QualifiedLength(s + y).value..], paren))
  {
    hide IdentLength, DotLength;
    IdentWithin(s, y);
    if IdentLength(s).Some? {
      var f := IdentLength(s).value;
      var r := s[f..];
      assert (s + y)[f..] == r + y;
      DotAssignment(r, y);
      if DotLength(r).Some? {
        var k := f + DotLength(r).value;
        if k < |s| {
          assert (s + y)[k..] == s[k..] + y;
          IdentWithin(s[k..], y);
        } else {
          assert (s + y)[k + 1..] == y[1..];
          EmptyIdent(s[k..]);
          assert (s + y)[k + 1 + IdentLength(y[1..]).value..][0] == EQUALS;
        }
      }
    }
  }

  lemma EmptyIdent(s: Text)
    requires s == []
    ensures IdentLength(s).None?
  {
  }

  lemma ReferenceTrailer(s: Text, y: Text, paren: bool)
    requires Trailer(y)
    requires ReferenceAt(s, paren).Some? && ReferenceAt(s, paren).value.end < |s|
    ensures ReferenceAt(s + y, paren) == ReferenceAt(s, paren)
  {
    hide IdentLength, QualifiedLength, Spacing, Assignment;
    TrailerAppends(y);
    if Spacing(y) {
      ReferenceSpacing(s, y, paren);
      return;
    }
    IdentWithin(s, y);
    QualifiedAssignment(s, y, paren);
    if QualifiedLength(s).Some? {
      assert (s + y)[QualifiedLength(s).value..] == s[QualifiedLength(s).value..] + y;
    }
    if IdentLength(s).Some? {
      assert (s + y)[IdentLength(s).value..] == s[IdentLength(s).value..] + y;
    }
  }

  lemma PhraseFirst(s: Text, keywords: seq<Text>)
    requires keywords != [] && PhraseLength(s, keywords).Some?
    ensures WordLength(s, keywords[0]).Some? && WordLength(s, keywords[0]).value <= PhraseLength(s, keywords).value
  {
  }

  lemma PhraseClash(s: Text, y: Text, found: Text, keywords: seq<Text>)
    requires keywords != [] && IsKeyword(found) && IsKeyword(keywords[0]) && found[0] != keywords[0][0]
    requires WordLength(s, found).Some?
    ensures PhraseLength(s + y, keywords).None?
  {
    WordClash(s, y, found, keywords[0]);
  }

  /** A second keyword that clashes rules a phrase out. */
  lemma SecondClash(s: Text, y: Text, first: Text, found: Text, second: Text)
    requires Appendable(y)
    requires IsKeyword(first) && IsKeyword(found) && IsKeyword(second) && found[0] != second[0]
    requires PhraseLength(s, [first, found]).Some?
    ensures PhraseLength(s + y, [first, second]).None?
  {
    hide WordLength;
    var w := WordLength(s, first).value;
    WordWithin(s, y, first);
    assert [first, found][1..] == [found] && [first, second][1..] == [second];
    var r := s[w..];
    PhraseFirst(r, [found]);
    assert (s + y)[w..] == r + y;
    PhraseClash(r, y, found, [second]);
  }

  lemma IndexMethodWithin(s: Text, y: Text)
    requires Appendable(y)
    requires IndexMethod(s) < |s| && WordLength(s[IndexMethod(s)..], ON).Some?
    ensures IndexMethod(s + y) == IndexMethod(s)
  {
    hide PhraseLength, WordLength;
    PhraseWithin(s, y, [USING, BTREE]);
    PhraseWithin(s, y, [USING, HASH_METHOD]);
    PhraseWithin(s, y, [USING, RTREE]);
    if PhraseLength(s, [USING, BTREE]).Some? {
    } else if PhraseLength(s, [USING, HASH_METHOD]).Some? {
      SecondClash(s, y, USING, HASH_METHOD, BTREE);
    } else if PhraseLength(s, [USING, RTREE]).Some? {
      SecondClash(s, y, USING, RTREE, BTREE);
      SecondClash(s, y, USING, RTREE, HASH_METHOD);
    } else {
      assert s[0..] == s;
      PhraseClash(s, y, ON, [USING, BTREE]);
      PhraseClash(s, y, ON, [USING, HASH_METHOD]);
      PhraseClash(s, y, ON, [USING, RTREE]);
    }
  }

  lemma IndexTableWithin(s: Text, y: Text)
    requires Trailer(y)
    requires IndexTable(s).Some? && IndexTable(s).value.end < |s|
    ensures IndexTable(s + y) == IndexTable(s)
  {
    hide WordLength, IndexMethod, ReferenceAt, Trailer;
    TrailerAppends(y);
    IndexMethodWithin(s, y);
    var i := IndexMethod(s);
    assert (s + y)[i..] == s[i..] + y;
    WordWithin(s[i..], y, ON);
    var j := i + WordLength(s[i..], ON).value;
    assert (s + y)[j..] == s[j..] + y;
    ReferenceTrailer(s[j..], y, true);
  }

  lemma TrailerAppends(y: Text)
    requires Trailer(y)
    ensures Appendable(y)
  {
    if Spacing(y) {
      SpacingBreaks(y);
    }
  }

  /** What follows the name of an index starts with ON or USING. */
  lemma IndexTableStarts(s: Text)
    requires IndexTable(s).Some?
    ensures s != [] && (Upper(s[0]) == 79 || Upper(s[0]) == 85)
  {
    hide PhraseLength, ReferenceAt;
    if IndexMethod(s) == 0 {
      assert s[0..] == s;
      assert UpperText(s[..|ON|])[0] == Upper(s[0]);
    } else {
      PhraseStarts(s, [USING, BTREE]);
      PhraseStarts(s, [USING, HASH_METHOD]);
      PhraseStarts(s, [USING, RTREE]);
    }
  }

  lemma PhraseStarts(s: Text, keywords: seq<Text>)
    requires keywords != [] && IsKeyword(keywords[0])
    ensures PhraseLength(s, keywords).Some? ==> s != [] && Upper(s[0]) == keywords[0][0]
  {
    if PhraseLength(s, keywords).Some? {
      assert UpperText(s[..|keywords[0]|])[0] == Upper(s[0]);
    }
  }

  /** An index name is not the start of IF NOT EXISTS if ON or USING comes after it. */
  lemma NameNotGuard(s: Text, y: Text)
    requires Appendable(y) && IndexName(s).Some?
    ensures PhraseLength(s + y, [IF, NOT, EXISTS]).None?
  {
    hide IndexTable, PhraseLength, Breaks, IdentLength;
    var n := IdentLength(s).value;
    var r := s[n..];
    BreaksWithin(r, y);
    var m := n + Breaks(r);
    IndexTableStarts(s[m..]);
    assert (s + y)[n..] == r + y && (s + y)[m..][0] == s[m..][0];
    if PhraseLength(s + y, [IF, NOT, EXISTS]).Some? {
      GuardPhrase(s + y);
      GuardIdent(s, y);
    }
  }

  lemma GuardPhrase(s: Text)
    requires PhraseLength(s, [IF, NOT, EXISTS]).Some?
    ensures |s| > 2 && Upper(s[0]) == 73 && Upper(s[1]) == 70 && IsBreak(s[2])
    ensures var r := s[2 + Breaks(s[2..])..]; r != [] && Upper(r[0]) == 78
  {
    hide Breaks;
    var w := WordLength(s, IF).value;
    assert UpperText(s[..2])[0] == Upper(s[0]) && UpperText(s[..2])[1] == Upper(s[1]);
    assert [IF, NOT, EXISTS][1..] == [NOT, EXISTS];
    PhraseStarts(s[w..], [NOT, EXISTS]);
  }

  lemma GuardIdent(s: Text, y: Text)
    requires Appendable(y) && IdentLength(s).Some?
    requires |s + y| > 2 && Upper((s + y)[0]) == 73 && Upper((s + y)[1]) == 70 && IsBreak((s + y)[2])
    ensures IdentLength(s) == Some(2)
  {
    var t := s + y;
    IdentWithin(s, y);
    assert t[1..][1..] == t[2..] && t[1..][0] == t[1] && t[2..][0] == t[2];
    assert BareLength(t[2..]) == 0;
    assert BareLength(t[1..]) == 1;
    assert BareLength(t) == 2;
  }

  lemma IndexNameWithin(s: Text, y: Text)
    requires Trailer(y)
    requires IndexName(s).Some? && IndexName(s).value.end < |s|
    ensures IndexName(s + y) == IndexName(s)
  {
    hide IdentLength, IndexTable, Breaks, Trailer;
    TrailerAppends(y);
    IdentWithin(s, y);
    var n := IdentLength(s).value;
    var r := s[n..];
    assert (s + y)[n..] == r + y;
    BreaksWithin(r, y);
    var m := n + Breaks(r);
    assert (s + y)[m..] == s[m..] + y;
    IndexTableWithin(s[m..], y);
  }

  lemma NamedIndexWithin(s: Text, y: Text)
    requires Trailer(y)
    requires NamedIndex(s).Some? && NamedIndex(s).value.end < |s|
    ensures NamedIndex(s + y) == NamedIndex(s)
  {
    hide PhraseLength, IndexName, Trailer;
    TrailerAppends(y);
    PhraseWithin(s, y, [IF, NOT, EXISTS]);
    var i := Optionally(s, [IF, NOT, EXISTS]);
    assert (s + y)[i..] == s[i..] + y;
    if PhraseLength(s, [IF, NOT, EXISTS]).None? {
      assert s[i..] == s;
      NameNotGuard(s, y);
    }
    IndexNameWithin(s[i..], y);
  }

  lemma IndexKindWithin(s: Text, y: Text)
    requires Appendable(y)
    requires IndexKind(s) < |s| && WordLength(s[IndexKind(s)..], INDEX).Some?
    ensures IndexKind(s + y) == IndexKind(s)
  {
    hide PhraseLength, WordLength;
    WordWithin(s, y, UNIQUE);
    WordWithin(s, y, FULLTEXT);
    PhraseWithin(s, y, [SPATIAL]);
    if WordLength(s, UNIQUE).Some? {
    } else if WordLength(s, FULLTEXT).Some? {
      WordClash(s, y, FULLTEXT, UNIQUE);
    } else if PhraseLength(s, [SPATIAL]).Some? {
      PhraseFirst(s, [SPATIAL]);
      WordClash(s, y, SPATIAL, UNIQUE);
      WordClash(s, y, SPATIAL, FULLTEXT);
    } else {
      assert s[0..] == s;
      WordClash(s, y, INDEX, UNIQUE);
      WordClash(s, y, INDEX, FULLTEXT);
      PhraseClash(s, y, INDEX, [SPATIAL]);
    }
  }

  /** OR REPLACE does not appear in front of what an index statement goes on with. */
  lemma NotReplacing(s: Text, y: Text)
    requires Appendable(y)
    requires IndexKind(s) < |s| && WordLength(s[IndexKind(s)..], INDEX).Some?
    ensures PhraseLength(s + y, [OR, REPLACE]).None?
  {
    hide PhraseLength, WordLength;
    if WordLength(s, UNIQUE).Some? {
      PhraseClash(s, y, UNIQUE, [OR, REPLACE]);
    } else if WordLength(s, FULLTEXT).Some? {
      PhraseClash(s, y, FULLTEXT, [OR, REPLACE]);
    } else if PhraseLength(s, [SPATIAL]).Some? {
      PhraseFirst(s, [SPATIAL]);
      PhraseClash(s, y, SPATIAL, [OR, REPLACE]);
    } else {
      assert s[0..] == s;
      PhraseClash(s, y, INDEX, [OR, REPLACE]);
    }
  }

  lemma CreateIndexWithin(s: Text, y: Text)
    requires Trailer(y)
    requires CreateIndex(s).Some? && CreateIndex(s).value.end < |s|
    ensures CreateIndex(s + y) == CreateIndex(s)
  {
    hide PhraseLength, WordLength, NamedIndex, IndexKind, Trailer;
    TrailerAppends(y);
    PhraseWithin(s, y, [OR, REPLACE]);
    var i := Optionally(s, [OR, REPLACE]);
    var a := s[i..];
    assert (s + y)[i..] == a + y;
    var j := i + IndexKind(a);
    assert a[IndexKind(a)..] == s[j..] && (s + y)[j..] == s[j..] + y;
    if PhraseLength(s, [OR, REPLACE]).None? {
      assert a == s;
      NotReplacing(s, y);
    }
    IndexKindWithin(a, y);
    WordWithin(s[j..], y, INDEX);
    var k := j + WordLength(s[j..], INDEX).value;
    assert (s + y)[k..] == s[k..] + y;
    NamedIndexWithin(s[k..], y);
  }

  /** Appending an assignment or white space after a space leaves the target of a CREATE INDEX statement where it is. */
  lemma CreateTrailer(s: Text, y: Text)
    requires Trailer(y)
    requires CreateTarget(s).Some? && CreateTarget(s).value.end < |s|
    ensures CreateTarget(s + y) == CreateTarget(s) && AlterTarget(s + y).None?
  {
    hide WordLength, CreateIndex, Breaks, Trailer;
    TrailerAppends(y);
    BreaksWithin(s, y);
    var i := Breaks(s);
    var a := s[i..];
    assert (s + y)[i..] == a + y;
    WordWithin(a, y, CREATE);
    WordClash(a, y, CREATE, ALTER);
    var j := i + WordLength(a, CREATE).value;
    assert (s + y)[j..] == s[j..] + y;
    CreateIndexWithin(s[j..], y);
  }

  /** White space after a statement that goes on after its target leaves the target where it is. */
  lemma TargetSpacing(s: Text, y: Text)
    requires Spacing(y) && Target(s).Some? && Target(s).value.end < |s|
    ensures Target(s + y) == Target(s)
  {
    hide AlterTarget, CreateTarget, Spacing;
    if AlterTarget(s).Some? {
      AlterSpacing(s, y);
    } else {
      CreateTrailer(s, y);
    }
  }
}
