/** Quoting, unquoting and parsing MySQL identifiers and table references. */
module Identifiers {
  import opened Bytes
  import opened Wrappers
  import opened SqlScanner
  import opened SqlContext

  /** A parsed reference: a bare table, a database and table, or no reference. */
  datatype Reference = Invalid | Unqualified(table: Text) | Qualified(database: Text, name: Text)

  /** White space of a regular expression. */
  predicate IsBreak(b: Byte) {
    b == TAB || b == LF || b == 12 || b == CR || b == SPACE
  }

  function Breaks(s: Text): (n: nat)
    ensures n <= |s|
    ensures n < |s| ==> !IsBreak(s[n])
  {
    if s == [] || !IsBreak(s[0]) then 0 else 1 + Breaks(s[1..])
  }

  lemma {:induction false} BreaksAre(s: Text)
    ensures forall i :: 0 <= i < Breaks(s) ==> IsBreak(s[i])
  {
    if s != [] && IsBreak(s[0]) {
      BreaksAre(s[1..]);
      forall i | 0 <= i < Breaks(s) ensures IsBreak(s[i]) {
        assert i > 0 ==> s[i] == s[1..][i - 1];
      }
    }
  }

  predicate IsBare(b: Byte) {
    IsLetter(b) || IsDigit(b) || b == UNDERSCORE || b == DOLLAR || b >= 128
  }

  function BareLength(s: Text): (n: nat)
    ensures n <= |s|
    ensures n < |s| ==> !IsBare(s[n])
  {
    if s == [] || !IsBare(s[0]) then 0 else 1 + BareLength(s[1..])
  }

  /** Length of a quoted body through the first quote that is not doubled. */
  function BodyLength(s: Text, quote: Byte): (r: Option<nat>)
    ensures r.Some? ==> 1 <= r.value <= |s|
  {
    if s == [] then None
    else if s[0] != quote then Longer(1, BodyLength(s[1..], quote))
    else if |s| > 1 && s[1] == quote then Longer(2, BodyLength(s[2..], quote))
    else Some(1)
  }

  /** Length of the identifier at the start of a text: quoted and not empty, or a run of word bytes. */
  function IdentLength(s: Text): (r: Option<nat>)
    ensures r.Some? ==> 1 <= r.value <= |s|
  {
    if s == [] then None
    else if s[0] == BACKTICK || s[0] == DQUOTE then
      var r := BodyLength(s[1..], s[0]);
      if r.None? || r.value == 1 then None else Some(1 + r.value)
    else if BareLength(s) > 0 then Some(BareLength(s))
    else None
  }

  /** Length of a dot with optional white space around it. */
  function DotLength(s: Text): (r: Option<nat>)
    ensures r.Some? ==> 1 <= r.value <= |s|
  {
    var n := Breaks(s);
    if n < |s| && s[n] == DOT then Some(n + 1 + Breaks(s[n + 1..])) else None
  }

  function Doubled(name: Text, quote: Byte): Text {
    if name == [] then []
    else (if name[0] == quote then [quote, quote] else [name[0]]) + Doubled(name[1..], quote)
  }

  function EscapeIdent(name: Text): Text {
    Doubled(name, BACKTICK)
  }

  function Undoubled(s: Text, quote: Byte): Text {
    if s == [] then []
    else if |s| > 1 && s[0] == quote && s[1] == quote then [quote] + Undoubled(s[2..], quote)
    else [s[0]] + Undoubled(s[1..], quote)
  }

  function UnquoteIdentifier(ident: Text): Text {
    if |ident| < 2 then ident
    else if ident[0] == BACKTICK || ident[0] == DQUOTE then Undoubled(ident[1..|ident| - 1], ident[0])
    else ident
  }

  function QuoteIdentifier(name: Text): Text {
    [BACKTICK] + EscapeIdent(name) + [BACKTICK]
  }

  /** The canonical form of a table: both names quoted, joined by a dot. */
  function Canonical(database: Text, table: Text): Text {
    QuoteIdentifier(database) + [DOT] + QuoteIdentifier(table)
  }

  function ParseTableReference(s: Text): Reference {
    var i := Breaks(s);
    var first := IdentLength(s[i..]);
    if first.None? then Invalid else
      var j := i + first.value;
      var dot := DotLength(s[j..]);
      var second := if dot.None? then None else IdentLength(s[j + dot.value..]);
      if second.Some? && AllBreaks(s[j + dot.value + second.value..]) then
        Qualified(UnquoteIdentifier(s[i..j]), UnquoteIdentifier(s[j + dot.value..j + dot.value + second.value]))
      else if AllBreaks(s[j..]) then Unqualified(UnquoteIdentifier(s[i..j]))
      else Invalid
  }

  predicate AllBreaks(s: Text) {
    Breaks(s) == |s|
  }

  // ---------- the theorems ----------

  lemma {:induction false} UndoubledDoubled(name: Text, quote: Byte)
    ensures Undoubled(Doubled(name, quote), quote) == name
  {
    if name != [] {
      UndoubledDoubled(name[1..], quote);
      var s, rest := Doubled(name, quote), Doubled(name[1..], quote);
      if name[0] == quote {
        assert s[2..] == rest;
      } else {
        assert s[1..] == rest;
      }
    }
  }

  /** Unquoting a quoted name gives the name back. */
  lemma UnquoteQuoted(name: Text)
    ensures UnquoteIdentifier(QuoteIdentifier(name)) == name
  {
    var q := QuoteIdentifier(name);
    assert q[1..|q| - 1] == EscapeIdent(name);
    UndoubledDoubled(name, BACKTICK);
  }

  /** How the scanner reads a backtick-quoted identifier. */
  lemma MoveInside(s: Text)
    requires s != []
    ensures Move(s, Quoted(BACKTICK)) ==
            if s[0] != BACKTICK then (1, Quoted(BACKTICK))
            else if |s| > 1 && s[1] == BACKTICK then (2, Quoted(BACKTICK))
            else (1, Plain)
    ensures TokenWarns(s, Quoted(BACKTICK)) == QUIET
  {
  }

  lemma MoveOpening(s: Text)
    requires s != [] && s[0] == BACKTICK
    ensures Move(s, Plain) == (1, Quoted(BACKTICK)) && TokenWarns(s, Plain) == QUIET
  {
  }

  function InBackticks(n: nat): (rs: seq<Region>)
    ensures |rs| == n
  {
    seq(n, i => Quoted(BACKTICK))
  }

  lemma InBackticksStep(n: nat, m: nat)
    requires 1 <= n <= 2
    ensures Fill(n, Quoted(BACKTICK)) + InBackticks(m) == InBackticks(n + m)
  {
  }

  lemma DoubledStep(name: Text, quote: Byte)
    requires name != []
    ensures Doubled(name, quote) ==
            (if name[0] == quote then [quote, quote] else [name[0]]) + Doubled(name[1..], quote)
  {
  }

  /** Inside the backticks the scanner stays in the identifier up to the closing one. */
  lemma {:induction false} QuotedBody(name: Text, follow: Text)
    requires follow == [] || follow[0] != BACKTICK
    ensures ViewOf(EscapeIdent(name) + [BACKTICK], follow, Quoted(BACKTICK))
         == View(InBackticks(|EscapeIdent(name)| + 1), Plain, QUIET)
    decreases |name|
  {
    hide Move, ViewOf, Doubled, InBackticks;
    var body := EscapeIdent(name) + [BACKTICK];
    var s := body + follow;
    ViewStep(body, follow, Quoted(BACKTICK));
    MoveInside(s);
    if name == [] {
      assert Doubled(name, BACKTICK) == [] by { EscapeNothing(); }
      assert body == [BACKTICK] && body[1..] == [];
      assert follow != [] ==> s[1] == follow[0];
      ViewNone(follow, Plain);
      InBackticksStep(1, 0);
    } else {
      DoubledStep(name, BACKTICK);
      var rest := EscapeIdent(name[1..]) + [BACKTICK];
      QuotedBody(name[1..], follow);
      InBackticksStep(if name[0] == BACKTICK then 2 else 1, |rest|);
      if name[0] == BACKTICK {
        assert body == [BACKTICK, BACKTICK] + rest && body[2..] == rest;
      } else {
        assert body == [name[0]] + rest && body[1..] == rest;
      }
    }
  }

  lemma EscapeNothing()
    ensures EscapeIdent([]) == []
  {
  }

  lemma {:induction false} QuotedLength(name: Text, follow: Text)
    requires follow == [] || follow[0] != BACKTICK
    ensures BodyLength(EscapeIdent(name) + [BACKTICK] + follow, BACKTICK) == Some(|EscapeIdent(name)| + 1)
    decreases |name|
  {
    var s := EscapeIdent(name) + [BACKTICK] + follow;
    if name == [] {
      assert follow != [] ==> s[1] == follow[0];
    } else {
      QuotedLength(name[1..], follow);
      var rest := EscapeIdent(name[1..]) + [BACKTICK] + follow;
      if name[0] == BACKTICK {
        assert s == [BACKTICK, BACKTICK] + rest && s[2..] == rest;
      } else {
        assert s == [name[0]] + rest && s[1..] == rest;
      }
    }
  }

  /** Whatever bytes a name holds, its quoted form is one closed region to the scanner. */
  lemma QuotedIsOneRegion(name: Text, follow: Text)
    requires follow == [] || follow[0] != BACKTICK
    ensures ViewOf(QuoteIdentifier(name), follow, Plain)
         == View(InBackticks(|QuoteIdentifier(name)|), Plain, QUIET)
  {
    hide Move, ViewOf, InBackticks, Doubled;
    var q, body := QuoteIdentifier(name), EscapeIdent(name) + [BACKTICK];
    QuotedBody(name, follow);
    assert q == [BACKTICK] + body && q[1..] == body;
    ViewStep(q, follow, Plain);
    MoveOpening(q + follow);
    InBackticksStep(1, |body|);
  }

  lemma QuotedIdentLength(name: Text, follow: Text)
    requires name != [] && (follow == [] || follow[0] != BACKTICK)
    ensures IdentLength(QuoteIdentifier(name) + follow) == Some(|QuoteIdentifier(name)|)
  {
    hide BodyLength;
    QuotedLength(name, follow);
    var s := QuoteIdentifier(name) + follow;
    assert s[1..] == EscapeIdent(name) + [BACKTICK] + follow;
  }

  /** Parsing a canonical reference gives both names back, for all non-empty names. */
  lemma ParseCanonical(database: Text, table: Text)
    requires database != [] && table != []
    ensures ParseTableReference(Canonical(database, table)) == Qualified(database, table)
  {
    hide IdentLength, QuoteIdentifier, UnquoteIdentifier;
    var d, t := QuoteIdentifier(database), QuoteIdentifier(table);
    var s := Canonical(database, table);
    QuoteStarts(database);
    QuoteStarts(table);
    assert s == d + ([DOT] + t) && s[0..] == s;
    QuotedIdentLength(database, [DOT] + t);
    assert s[|d|..] == [DOT] + t && s[|d|..][1..] == t;
    assert s[|d| + 1..] == t && t + [] == t;
    QuotedIdentLength(table, []);
    assert s[..|d|] == d && s[|d| + 1..|d| + 1 + |t|] == t;
    assert s[|d| + 1 + |t|..] == [];
    UnquoteQuoted(database);
    UnquoteQuoted(table);
  }

  lemma QuoteStarts(name: Text)
    ensures |QuoteIdentifier(name)| > 0 && QuoteIdentifier(name)[0] == BACKTICK
  {
  }
}
