/** The change text handed to pt-online-schema-change. */
module PtoscSql {
  import opened Bytes
  import opened Wrappers
  import opened SqlScanner
  import opened Identifiers
  import opened AlterClauses
  import opened DdlTarget
  import opened DdlClauses
  import opened OnlineDdl

  datatype Refusal =
    | Executable
    | Ambiguous
    | Empty
    | Several
    | IgnoreModifier
    | IfExistsGuard
    | NoChange
    | NotSupported
    | NoColumns
    | Waits

  datatype Change = Alter(text: Text) | Refused(reason: Refusal)

  const ADD: Text := Ascii("ADD")
  const WAIT: Text := Ascii("WAIT")
  const NOWAIT: Text := Ascii("NOWAIT")

  /** The definition of an index without CREATE, and the end of the table reference after it. */
  datatype IndexParts = IndexParts(start: nat, nameEnd: nat, end: nat)

  function ChangeIndex(s: Text): (r: Option<IndexParts>)
    ensures r.Some? ==> r.value.start <= r.value.nameEnd <= r.value.end <= |s|
  {
    var i := Breaks(s);
    var w := WordLength(s[i..], CREATE);
    if w.None? then None else ChangeAfter(s, i + w.value)
  }

  /** From the end of CREATE on: the kind of index, INDEX, and the rest. */
  function ChangeAfter(s: Text, start: nat): (r: Option<IndexParts>)
    requires start <= |s|
    ensures r.Some? ==> r.value.start <= r.value.nameEnd <= r.value.end <= |s|
  {
    var j := start + IndexKind(s[start..]);
    var x := WordLength(s[j..], INDEX);
    if x.None? then None else ChangeNamed(s, start, j + x.value)
  }

  /** A guard, the index name, and the rest. */
  function ChangeNamed(s: Text, start: nat, k: nat): (r: Option<IndexParts>)
    requires start <= k <= |s|
    ensures r.Some? ==> r.value.start <= r.value.nameEnd <= r.value.end <= |s|
  {
    var l := k + Optionally(s[k..], [IF, NOT, EXISTS]);
    var name := IdentLength(s[l..]);
    if name.None? then None else ChangeTable(s, start, l + name.value)
  }

  /** From the end of the index name on: an index method, ON and the table. */
  function ChangeTable(s: Text, start: nat, nameEnd: nat): (r: Option<IndexParts>)
    requires start <= nameEnd <= |s|
    ensures r.Some? ==> r.value.start <= r.value.nameEnd <= r.value.end <= |s|
  {
    var gap := nameEnd + Breaks(s[nameEnd..]);
    var used := IndexMethod(s[gap..]);
    var defined := if used == 0 then nameEnd else gap + Content(s[gap..gap + used]);
    var w := WordLength(s[gap + used..], ON);
    if gap == nameEnd || w.None? then None else
      var at := gap + used + w.value;
      var table := ReferenceAt(s[at..], true);
      if table.None? then None else Some(IndexParts(start, defined, at + table.value.end))
  }

  /** The words of a text, separated by white space. */
  function Fields(s: Text): seq<Text> {
    if s == [] then []
    else if IsSpace(s[0]) then Fields(s[1..])
    else [s[..FieldLength(s)]] + Fields(s[FieldLength(s)..])
  }

  function FieldLength(s: Text): (n: nat)
    ensures n <= |s|
    ensures s != [] && !IsSpace(s[0]) ==> n > 0
  {
    if s == [] || IsSpace(s[0]) then 0 else 1 + FieldLength(s[1..])
  }

  /** What pt-online-schema-change cannot express about an ALTER TABLE. */
  function BadModifier(words: seq<Text>): Option<Refusal> {
    if words == [] then None
    else if UpperText(words[0]) == IGNORE then Some(IgnoreModifier)
    else if UpperText(words[0]) == IF && |words| > 1 && UpperText(words[1]) == EXISTS then Some(IfExistsGuard)
    else BadModifier(words[1..])
  }

  /** Length of an ALGORITHM or LOCK clause with a known value, at the start of a text. */
  function ClauseLength(s: Text): (r: Option<nat>)
    ensures r.Some? ==> 0 < r.value <= |s|
  {
    var n := if StartsWithWord(s, ALGORITHM) then |ALGORITHM| else if StartsWithWord(s, LOCK) then |LOCK| else 0;
    if n == 0 then None else
      var i := n + Breaks(s[n..]);
      var j := if i < |s| && s[i] == EQUALS then i + 1 + Breaks(s[i + 1..]) else i;
      var word := FirstOf(s[j..], [DEFAULT_VALUE, INPLACE, COPY, INSTANT, NOCOPY, NONE, SHARED, EXCLUSIVE]);
      if j == n || word.None? then None else Some(j + |word.value|)
  }

  /** A text without the clauses that its masked form shows. */
  function WithoutClauses(s: Text, masked: Text, inWord: bool): Text
    requires |s| == |masked|
    decreases |s|
  {
    if s == [] then [] else
      var n := ClauseLength(masked);
      if !inWord && n.Some? then WithoutClauses(s[n.value..], masked[n.value..], IsWord(masked[n.value - 1]))
      else [s[0]] + WithoutClauses(s[1..], masked[1..], IsWord(masked[0]))
  }

  function TopLevelMask(sql: Text): (t: Text)
    ensures |t| == |sql|
  {
    TopLevel(Mask(sql, EVERYTHING), 0)
  }

  method MaskTopLevelSQL(sql: Text) returns (masked: Text)
    ensures masked == TopLevelMask(sql)
  {
    hide Mask, TopLevel;
    var shown, _, _ := ScanSQL(sql, EVERYTHING);
    masked := BlankParentheses(shown, 0);
    assert shown[0..] == shown;
  }

  function StripCreateClauses(tail: Text): Text {
    Trim(WithoutClauses(tail, TopLevelMask(tail), false))
  }

  predicate WaitsHere(s: Text) {
    || StartsWithWord(s, NOWAIT)
    || (var w := WordLength(s, WAIT);
        w.Some? && var n := DigitCount(s[w.value..]);
        n > 0 && (w.value + n == |s| || !IsWord(s[w.value + n])))
  }

  predicate HasWait(s: Text, inWord: bool) {
    s != [] && ((!inWord && WaitsHere(s)) || HasWait(s[1..], IsWord(s[0])))
  }

  function AlterChange(statement: Text, target: Span): Change
    requires target.start <= target.end <= |statement|
  {
    var bad := BadModifier(Fields(Mask(statement, STRINGS)[..target.start]));
    if bad.Some? then Refused(bad.value) else
      match Stripped(statement[target.end..])
      case Ok(text) => Alter(text)
      case Unsupported => Refused(NoChange)
  }

  function IndexChange(statement: Text, parts: IndexParts): Change
    requires parts.start <= parts.nameEnd <= parts.end <= |statement|
  {
    var tail := StripCreateClauses(statement[parts.end..]);
    if tail == [] || tail[0] != LPAREN then Refused(NoColumns)
    else if HasWait(TopLevelMask(tail), false) then Refused(Waits)
    else Alter(ADD + [SPACE] + Trim(statement[parts.start..parts.nameEnd]) + [SPACE] + tail)
  }

  function BuildChange(sql: Text): Change {
    if Warned(sql, Plain).executable then Refused(Executable)
    else if Warned(sql, Plain).ambiguous then Refused(Ambiguous)
    else
      var statement := SplitSuffix(sql).statement;
      var shown := Mask(statement, STRINGS);
      if statement == [] then Refused(Empty)
      else if SEMICOLON in Mask(statement, EVERYTHING) then Refused(Several)
      else if AlterTarget(shown).Some? then AlterChange(statement, AlterTarget(shown).value)
      else if ChangeIndex(shown).Some? then IndexChange(statement, ChangeIndex(shown).value)
      else Refused(NotSupported)
  }
}
