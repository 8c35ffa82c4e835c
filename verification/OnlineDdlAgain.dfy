/**
 * The statement built for online DDL: what was appended is code outside
 * parentheses, its clauses are the allowed ones, and building it again changes
 * nothing.
 */
module OnlineDdlAgain {
  import opened Bytes
  import opened Wrappers
  import opened SqlScanner
  import opened SqlContext
  import opened SqlEdges
  import opened Identifiers
  import opened AlterClauses
  import opened DdlTarget
  import opened DdlClauses
  import opened OnlineDdl
  import opened OnlineDdlScan

  // ---------- the appended text ----------

  predicate Safe(s: Text) {
    forall i :: 0 <= i < |s| ==> IsUpper(s[i]) || s[i] == EQUALS || s[i] == COMMA || s[i] == SPACE
  }

  predicate IsSeparator(sep: Text) {
    sep == [COMMA, SPACE] || sep == [SPACE]
  }

  /** A clause and the value that is appended for it. */
  predicate IsDefault(clause: Text, value: Text) {
    (clause == ALGORITHM && value == INPLACE) || (clause == LOCK && value == NONE)
  }

  lemma DefaultSafe(clause: Text, value: Text)
    requires IsDefault(clause, value)
    ensures IsClause(clause) && Safe(ClauseText(clause, value))
    ensures |clause| >= 4 && |value| >= 4 && |ClauseText(clause, value)| == |clause| + 1 + |value|
    ensures forall i :: 0 <= i < |clause| ==> IsUpper(clause[i])
    ensures forall i :: 0 <= i < |value| ==> IsUpper(value[i])
  {
  }

  lemma SafeJoin(a: Text, b: Text)
    requires Safe(a) && Safe(b)
    ensures Safe(a + b)
  {
  }

  /** Appended text: a separator, a clause, and perhaps more. */
  predicate Addition(y: Text, sep: Text, clause: Text, value: Text, rest: Text) {
    && IsSeparator(sep) && IsDefault(clause, value)
    && y == sep + (ClauseText(clause, value) + rest)
    && (rest == [] || (IsDefault(LOCK, NONE) && clause == ALGORITHM && rest == sep + ClauseText(LOCK, NONE)))
  }

  lemma MissingAdds(sep: Text, hasAlgorithm: bool, hasLock: bool)
    requires IsSeparator(sep)
    ensures hasAlgorithm && hasLock ==> Missing(sep, hasAlgorithm, hasLock) == []
    ensures hasAlgorithm && !hasLock ==> Addition(Missing(sep, hasAlgorithm, hasLock), sep, LOCK, NONE, [])
    ensures !hasAlgorithm && hasLock ==> Addition(Missing(sep, hasAlgorithm, hasLock), sep, ALGORITHM, INPLACE, [])
    ensures !hasAlgorithm && !hasLock ==>
              Addition(Missing(sep, hasAlgorithm, hasLock), sep, ALGORITHM, INPLACE, sep + ClauseText(LOCK, NONE))
  {
    hide ClauseText;
    var a, l := ClauseText(ALGORITHM, INPLACE), ClauseText(LOCK, NONE);
    assert (sep + a) + (sep + l) == sep + (a + (sep + l));
    assert (sep + a) + [] == sep + (a + []) && [] + (sep + l) == sep + (l + []);
  }

  lemma AdditionSafe(y: Text, sep: Text, clause: Text, value: Text, rest: Text)
    requires Addition(y, sep, clause, value, rest)
    ensures Safe(y) && y != [] && (y[0] == COMMA || y[0] == SPACE)
    ensures Code(y) && Appendable(y)
  {
    hide ClauseText;
    DefaultSafe(clause, value);
    DefaultSafe(LOCK, NONE);
    SafeJoin(sep, ClauseText(LOCK, NONE));
    SafeJoin(ClauseText(clause, value), rest);
    SafeJoin(sep, ClauseText(clause, value) + rest);
  }

  /** The first letters of an addition after its separator. */
  lemma AdditionWord(y: Text, sep: Text, clause: Text, value: Text, rest: Text)
    requires Addition(y, sep, clause, value, rest)
    ensures y[|sep|..] == clause + ([EQUALS] + (value + rest))
    ensures |y| > |sep| && (y[|sep|] == 65 || y[|sep|] == 76)
  {
    DefaultSafe(clause, value);
    var w := ClauseText(clause, value);
    assert w + rest == clause + ([EQUALS] + (value + rest));
    assert y[|sep|..] == w + rest;
    assert y[|sep|] == y[|sep|..][0] == clause[0];
  }

  lemma {:induction false} BareRun(w: Text, rest: Text)
    requires forall i :: 0 <= i < |w| ==> IsUpper(w[i])
    requires rest != [] && !IsBare(rest[0])
    ensures BareLength(w + rest) == |w|
    decreases |w|
  {
    if w == [] {
      assert w + rest == rest;
    } else {
      assert (w + rest)[1..] == w[1..] + rest;
      BareRun(w[1..], rest);
    }
  }

  lemma AdditionAssigns(y: Text, sep: Text, clause: Text, value: Text, rest: Text)
    requires Addition(y, sep, clause, value, rest)
    ensures sep == [COMMA, SPACE] ==> Comma(y)
    ensures sep == [SPACE] ==> DdlTarget.Assignment(y)
  {
    hide ClauseText, Appendable;
    AdditionSafe(y, sep, clause, value, rest);
    AdditionWord(y, sep, clause, value, rest);
    DefaultSafe(clause, value);
    var z := [EQUALS] + (value + rest);
    BareRun(clause, z);
    if sep == [SPACE] {
      assert y[1..] == clause + z;
      assert y[1..][|clause|] == z[0];
      UpperIdent(y[1..]);
    }
  }

  lemma UpperIdent(s: Text)
    requires s != [] && IsUpper(s[0])
    ensures IdentLength(s) == Some(BareLength(s))
  {
  }

  lemma {:induction false} FirstOfClash(s: Text, words: seq<Text>)
    requires s != []
    requires forall i :: 0 <= i < |words| ==> words[i] != [] && words[i][0] != Upper(s[0])
    ensures FirstOf(s, words).None?
    decreases |words|
  {
    if words != [] {
      if |words[0]| <= |s| {
        assert UpperText(s[..|words[0]|])[0] == Upper(s[0]);
      }
      FirstOfClash(s, words[1..]);
    }
  }

  lemma AdditionSeparate(y: Text, sep: Text, clause: Text, value: Text, rest: Text)
    requires Addition(y, sep, clause, value, rest)
    ensures Separate(y)
  {
    hide ClauseText, FirstOf;
    AdditionWord(y, sep, clause, value, rest);
    var n := if sep == [SPACE] then 1 else 0;
    assert y[1] == (if sep == [SPACE] then y[|sep|] else SPACE);
    SeparatorBreaks(y);
    var b := y[n..];
    assert b[0] == COMMA || b[0] == 65 || b[0] == 76;
    FirstOfClash(b, KnownValues(ALGORITHM));
    FirstOfClash(b, KnownValues(LOCK));
  }

  lemma SeparatorBreaks(y: Text)
    requires |y| > 1 && (y[0] == COMMA || (y[0] == SPACE && !IsBreak(y[1])))
    ensures Breaks(y) == if y[0] == COMMA then 0 else 1
  {
    assert y[1..][0] == y[1];
  }

  // ---------- what the patterns find in it ----------

  function Found(form: Form, value: Text): seq<Text> {
    match form
    case Start => [[]]
    case Assign => [value]
    case Spaced => []
  }

  lemma {:induction false} ValueRun(w: Text, rest: Text)
    requires forall i :: 0 <= i < |w| ==> IsUpper(w[i])
    requires rest == [] || !IsWord(rest[0])
    ensures ValueLength(w + rest) == |w|
    decreases |w|
  {
    if w == [] {
      assert w + rest == rest;
    } else {
      assert (w + rest)[1..] == w[1..] + rest;
      ValueRun(w[1..], rest);
    }
  }

  lemma UpperSame(w: Text)
    requires forall i :: 0 <= i < |w| ==> IsUpper(w[i])
    ensures UpperText(w) == w
  {
  }

  lemma NoBreaks(s: Text)
    requires s != [] ==> !IsBreak(s[0])
    ensures Breaks(s) == 0
  {
  }

  lemma OwnCapture(clause: Text, value: Text, rest: Text)
    requires IsDefault(clause, value) && (rest == [] || !IsWord(rest[0]))
    ensures var s := clause + ([EQUALS] + (value + rest));
            && CaptureAt(s, clause, Start) == Some(Capture(|clause| + 1, []))
            && CaptureAt(s, clause, Assign) == Some(Capture(|clause| + 1 + |value|, value))
            && CaptureAt(s, clause, Spaced).None?
  {
    hide CaptureAfter, IsDefault;
    DefaultSafe(clause, value);
    var r := [EQUALS] + (value + rest);
    var s := clause + r;
    assert s[..|clause|] == clause && s[|clause|..] == r;
    UpperSame(clause);
    AssignmentCapture(|clause|, clause, value, rest);
  }

  /** After the letters of a clause: an equals sign, a value and something else. */
  lemma AssignmentCapture(n: nat, clause: Text, value: Text, rest: Text)
    requires value != [] && (forall i :: 0 <= i < |value| ==> IsUpper(value[i]))
    requires rest == [] || !IsWord(rest[0])
    ensures var r := [EQUALS] + (value + rest);
            && CaptureAfter(n, r, clause, Start) == Some(Capture(n + 1, []))
            && CaptureAfter(n, r, clause, Assign) == Some(Capture(n + 1 + |value|, value))
            && CaptureAfter(n, r, clause, Spaced).None?
  {
    hide Breaks, ValueLength, FirstOf, KnownValues;
    var r := [EQUALS] + (value + rest);
    assert r[1..] == value + rest && r[1..1 + |value|] == value;
    assert (value + rest)[0] == value[0];
    UpperSame(value);
    NoBreaks(r);
    NoBreaks(value + rest);
    ValueRun(value, rest);
  }

  /** Inside a default clause no clause starts but itself, at its first letter. */
  lemma NoOtherStart(clause: Text, value: Text)
    requires IsDefault(clause, value)
    ensures NoStart(ClauseText(clause, value), false, if clause == LOCK then ALGORITHM else LOCK)
  {
    var other := if clause == LOCK then ALGORITHM else LOCK;
    var w := ClauseText(clause, value);
    forall i | 0 <= i < |w| ensures EndsInWord(w[..i], false) || Upper(w[i]) != other[0] {
      assert i > 0 ==> w[..i][i - 1] == w[i - 1];
    }
  }

  lemma NoSecondStart(clause: Text, value: Text)
    requires IsDefault(clause, value)
    ensures NoStart(value, false, clause)
  {
    forall i | 0 <= i < |value| ensures EndsInWord(value[..i], false) || Upper(value[i]) != clause[0] {
      assert i > 0 ==> value[..i][i - 1] == value[i - 1];
    }
  }

  lemma NoStartAfterFirst(clause: Text, value: Text)
    requires IsDefault(clause, value)
    ensures NoStart(clause[1..] + ([EQUALS] + value), true, clause)
  {
    var a := clause[1..] + ([EQUALS] + value);
    forall i | 0 <= i < |a| ensures EndsInWord(a[..i], true) || Upper(a[i]) != clause[0] {
      assert i > 0 ==> a[..i][i - 1] == a[i - 1];
    }
  }

  lemma OwnStart(clause: Text, value: Text, rest: Text)
    requires IsDefault(clause, value) && (rest == [] || !IsWord(rest[0]))
    ensures FindAll(clause + ([EQUALS] + (value + rest)), false, clause, Start) ==
            [[]] + FindAll(rest, true, clause, Start)
  {
    hide FindAll, CaptureAt, NoStart, IsDefault;
    var s := clause + ([EQUALS] + (value + rest));
    DefaultSafe(clause, value);
    OwnCapture(clause, value, rest);
    FindStep(s, false, clause, Start);
    NoSecondStart(clause, value);
    OwnSlices(clause, value, rest);
    PassOver(value, rest, false, clause, Start);
  }

  lemma OwnAssign(clause: Text, value: Text, rest: Text)
    requires IsDefault(clause, value) && (rest == [] || !IsWord(rest[0]))
    ensures FindAll(clause + ([EQUALS] + (value + rest)), false, clause, Assign) ==
            [value] + FindAll(rest, true, clause, Assign)
  {
    hide FindAll, CaptureAt, IsDefault, IsClause, Safe;
    DefaultSafe(clause, value);
    OwnCapture(clause, value, rest);
    OwnSlices(clause, value, rest);
    FindFirst(clause + ([EQUALS] + (value + rest)), false, clause, Assign, [value], |clause| + 1 + |value|);
    assert IsWord(value[|value| - 1]);
  }

  lemma OwnSpaced(clause: Text, value: Text, rest: Text)
    requires IsDefault(clause, value) && (rest == [] || !IsWord(rest[0]))
    ensures FindAll(clause + ([EQUALS] + (value + rest)), false, clause, Spaced) == FindAll(rest, true, clause, Spaced)
  {
    hide FindAll, CaptureAt, NoStart, IsDefault;
    var s := clause + ([EQUALS] + (value + rest));
    DefaultSafe(clause, value);
    OwnCapture(clause, value, rest);
    FindStep(s, false, clause, Spaced);
    NoStartAfterFirst(clause, value);
    OwnSlices(clause, value, rest);
    PassOver(clause[1..] + ([EQUALS] + value), rest, true, clause, Spaced);
  }

  lemma OwnFound(clause: Text, value: Text, rest: Text, form: Form)
    requires IsDefault(clause, value) && (rest == [] || !IsWord(rest[0]))
    ensures FindAll(clause + ([EQUALS] + (value + rest)), false, clause, form) ==
            Found(form, value) + FindAll(rest, true, clause, form)
  {
    hide FindAll, IsDefault;
    DefaultSafe(clause, value);
    match form {
      case Start => OwnStart(clause, value, rest);
      case Assign => OwnAssign(clause, value, rest);
      case Spaced =>
        OwnSpaced(clause, value, rest);
        assert [] + FindAll(rest, true, clause, Spaced) == FindAll(rest, true, clause, Spaced);
    }
  }

  lemma OwnSlices(clause: Text, value: Text, rest: Text)
    requires clause != [] && value != []
    ensures var s := clause + ([EQUALS] + (value + rest));
            && s[0] == clause[0] && s[1..] == clause[1..] + ([EQUALS] + value) + rest
            && s[|clause|] == EQUALS && s[|clause| + 1..] == value + rest
            && s[|clause| + |value|] == value[|value| - 1] && s[|clause| + 1 + |value|..] == rest
    ensures var a := clause[1..] + ([EQUALS] + value); a[|a| - 1] == value[|value| - 1]
  {
  }

  lemma SeparatorPassed(sep: Text, s: Text, inWord: bool, clause: Text, form: Form)
    requires IsSeparator(sep) && IsClause(clause)
    ensures FindAll(sep + s, inWord, clause, form) == FindAll(s, false, clause, form)
  {
    hide FindAll;
    PassOver(sep, s, inWord, clause, form);
  }

  lemma OtherPassed(clause: Text, value: Text, rest: Text, other: Text, form: Form)
    requires IsDefault(clause, value) && IsClause(other) && other != clause
    ensures FindAll(ClauseText(clause, value) + rest, false, other, form) == FindAll(rest, true, other, form)
  {
    hide FindAll, NoStart;
    DefaultSafe(clause, value);
    NoOtherStart(clause, value);
    var w := ClauseText(clause, value);
    assert w[|w| - 1] == value[|value| - 1];
    PassOver(w, rest, false, other, form);
  }

  /** Each appended clause is found once, in the form it is written in. */
  lemma AdditionFound(y: Text, sep: Text, clause: Text, value: Text, rest: Text, inWord: bool, sought: Text, form: Form)
    requires Addition(y, sep, clause, value, rest) && IsClause(sought)
    ensures FindAll(y, inWord, sought, form) ==
            (if sought == clause then Found(form, value) else []) +
            (if rest != [] && sought == LOCK then Found(form, NONE) else [])
  {
    hide FindAll, ClauseText;
    AdditionWord(y, sep, clause, value, rest);
    SeparatorPassed(sep, ClauseText(clause, value) + rest, inWord, sought, form);
    if sought == clause {
      ClauseSpelled(clause, value, rest);
      OwnFound(clause, value, rest, form);
    } else {
      OtherPassed(clause, value, rest, sought, form);
    }
    if rest == [] {
      FindNothing(true, sought);
    } else {
      var l := ClauseText(LOCK, NONE);
      SeparatorPassed(sep, l, true, sought, form);
      assert l + [] == l;
      FindNothing(true, sought);
      if sought == LOCK {
        ClauseSpelled(LOCK, NONE, []);
        OwnFound(LOCK, NONE, [], form);
      } else {
        OtherPassed(LOCK, NONE, [], sought, form);
      }
    }
  }

  lemma ClauseSpelled(clause: Text, value: Text, rest: Text)
    ensures ClauseText(clause, value) + rest == clause + ([EQUALS] + (value + rest))
  {
  }

  /** Reading a tail with clauses appended that were absent. */
  lemma ReadAfter(tail: Text, y: Text, sep: Text, clause: Text, value: Text, rest: Text, sought: Text)
    requires Addition(y, sep, clause, value, rest) && IsClause(sought)
    requires !ReadClause(tail, sought).Unreadable?
    requires (sought == clause || (rest != [] && sought == LOCK)) ==> ReadClause(tail, sought).Absent?
    ensures ReadClause(tail + y, sought) ==
            if sought == clause then Present(value)
            else if rest != [] && sought == LOCK then Present(NONE)
            else ReadClause(tail, sought)
  {
    hide FindAll, ClauseText;
    AdditionSeparate(y, sep, clause, value, rest);
    forall form: Form
      ensures FindAll(tail + y, false, sought, form) ==
              FindAll(tail, false, sought, form) +
              ((if sought == clause then Found(form, value) else []) +
               (if rest != [] && sought == LOCK then Found(form, NONE) else []))
    {
      FindExtend(tail, y, false, sought, form);
      AdditionFound(y, sep, clause, value, rest, EndsInWord(tail, false), sought, form);
    }
  }

  // ---------- the theorems ----------

  /** A statement that goes on after its target. */
  predicate HasBody(statement: Text) {
    var target := Target(Mask(statement, STRINGS));
    target.Some? && target.value.end < |statement|
  }

  /** No parenthesis is open at the end of a statement. */
  predicate Balanced(statement: Text)
    requires HasBody(statement)
  {
    DepthAfter(Mask(statement, EVERYTHING)[Target(Mask(statement, STRINGS)).value.end..], 0) == 0
  }

  predicate Sound(statement: Text) {
    EndsInCode(statement) && HasBody(statement) && Balanced(statement)
  }

  lemma TargetStays(x: Text, y: Text, sep: Text, clause: Text, value: Text, rest: Text)
    requires Addition(y, sep, clause, value, rest)
    requires sep == if AlterTarget(x).Some? then [COMMA, SPACE] else [SPACE]
    requires Target(x).Some? && Target(x).value.end < |x|
    ensures Target(x + y) == Target(x) && AlterTarget(x + y).Some? == AlterTarget(x).Some?
  {
    hide AlterTarget, CreateTarget, Addition;
    AdditionAssigns(y, sep, clause, value, rest);
    if AlterTarget(x).Some? {
      AlterComma(x, y);
    } else {
      CreateTrailer(x, y);
    }
  }

  lemma {:induction false} TopLevelSame(y: Text)
    requires Safe(y)
    ensures TopLevel(y, 0) == y
  {
    if y != [] {
      assert Safe(y[1..]);
      TopLevelSame(y[1..]);
    }
  }

  /** The tail of the completed statement is the old tail and the appended text. */
  lemma TailStays(st: Text, y: Text, sep: Text, clause: Text, value: Text, rest: Text)
    requires Sound(st) && sep == Separator(st) && Addition(y, sep, clause, value, rest)
    ensures TailOf(st).Some? && TailOf(st + y) == Some(TailOf(st).value + y)
    ensures Separator(st + y) == sep
    ensures HasBody(st + y) && Target(Mask(st + y, STRINGS)) == Target(Mask(st, STRINGS))
  {
    hide Target, AlterTarget, Addition, Mask, TopLevel, DepthAfter, EndsInCode, Code, Safe;
    AdditionSafe(y, sep, clause, value, rest);
    Append(st, y);
    var x, shown := Mask(st, STRINGS), Mask(st, EVERYTHING);
    assert Target(x).Some?;
    TargetStays(x, y, sep, clause, value, rest);
    var end := Target(x).value.end;
    assert (shown + y)[end..] == shown[end..] + y;
    TopLevelJoin(shown[end..], y, 0);
    TopLevelSame(y);
  }

  /** A statement with one allowed ALGORITHM and with LOCK NONE. */
  predicate Ready(statement: Text) {
    && TailOf(statement).Some?
    && ReadClause(TailOf(statement).value, ALGORITHM).Present?
    && AllowedAlgorithm(ReadClause(TailOf(statement).value, ALGORITHM).value)
    && ReadClause(TailOf(statement).value, LOCK) == Present(NONE)
  }

  /** Nothing is appended to such a statement. */
  lemma ReadyComplete(statement: Text)
    requires Ready(statement)
    ensures Complete(statement) == Done(statement)
  {
    hide TailOf, ReadClause, Separator, Missing, ClauseText;
    SeparatorKind(statement);
    MissingAdds(Separator(statement), true, true);
    assert statement + [] == statement;
  }

  /** What is read from a statement that can be completed: each clause absent, or with an allowed value. */
  predicate Completable(tail: Text) {
    var a, l := ReadClause(tail, ALGORITHM), ReadClause(tail, LOCK);
    (a.Absent? || (a.Present? && AllowedAlgorithm(a.value))) && (l.Absent? || l == Present(NONE))
  }

  lemma CompletableTail(st: Text)
    requires Complete(st).Done?
    ensures TailOf(st).Some? && Completable(TailOf(st).value)
  {
    hide TailOf, ReadClause, Separator, Missing, AllowedAlgorithm;
  }

  lemma DefaultValues(clause: Text, value: Text)
    requires IsDefault(clause, value)
    ensures ALGORITHM != LOCK && AllowedAlgorithm(INPLACE)
    ensures clause == ALGORITHM ==> value == INPLACE
    ensures clause == LOCK ==> value == NONE
    ensures clause == ALGORITHM || clause == LOCK
  {
    assert |LOCK| == 4 && |ALGORITHM| == 9;
  }

  lemma AppendedReady(st: Text, y: Text, sep: Text, clause: Text, value: Text, rest: Text)
    requires Sound(st) && TailOf(st).Some? && Completable(TailOf(st).value)
    requires sep == Separator(st) && Addition(y, sep, clause, value, rest)
    requires ReadClause(TailOf(st).value, ALGORITHM).Absent? <==> clause == ALGORITHM
    requires ReadClause(TailOf(st).value, LOCK).Absent? <==> clause == LOCK || rest != []
    ensures Ready(st + y)
  {
    hide Sound, TailOf, ReadClause, Separator, ClauseText, IsDefault, AllowedAlgorithm, Addition;
    var tail := TailOf(st).value;
    AdditionDefault(y, sep, clause, value, rest);
    DefaultValues(clause, value);
    DefaultValues(LOCK, NONE);
    TailStays(st, y, sep, clause, value, rest);
    ReadAfter(tail, y, sep, clause, value, rest, ALGORITHM);
    ReadAfter(tail, y, sep, clause, value, rest, LOCK);
  }

  lemma AdditionDefault(y: Text, sep: Text, clause: Text, value: Text, rest: Text)
    requires Addition(y, sep, clause, value, rest)
    ensures IsDefault(clause, value) && IsDefault(LOCK, NONE) && IsClause(ALGORITHM) && IsClause(LOCK)
  {
    hide ClauseText;
  }

  /** Completing a complete statement changes nothing; its clauses are one allowed ALGORITHM and LOCK=NONE. */
  lemma CompleteAgain(st: Text)
    requires Sound(st) && Complete(st).Done?
    ensures Ready(Complete(st).sql) && Complete(Complete(st).sql) == Complete(st)
  {
    hide Sound, TailOf, ReadClause, Separator, Missing, ClauseText, Ready, Addition;
    var tail := TailOf(st).value;
    var a, l := ReadClause(tail, ALGORITHM), ReadClause(tail, LOCK);
    var sep := Separator(st);
    SeparatorKind(st);
    MissingAdds(sep, a.Present?, l.Present?);
    var y := Missing(sep, a.Present?, l.Present?);
    if a.Present? && l.Present? {
      assert st + y == st;
      assert Ready(st) by { HasBoth(st); }
    } else {
      var clause, value := if a.Present? then LOCK else ALGORITHM, if a.Present? then NONE else INPLACE;
      var rest := if a.Present? || l.Present? then [] else sep + ClauseText(LOCK, NONE);
      SomethingLeft(sep);
      CompletableTail(st);
      AppendedReady(st, y, sep, clause, value, rest);
    }
    ReadyComplete(st + y);
  }

  lemma HasBoth(st: Text)
    requires Complete(st).Done?
    requires ReadClause(TailOf(st).value, ALGORITHM).Present? && ReadClause(TailOf(st).value, LOCK).Present?
    ensures Ready(st)
  {
    hide TailOf, ReadClause, Separator, Missing;
  }

  lemma SomethingLeft(sep: Text)
    ensures sep + ClauseText(LOCK, NONE) != [] && ALGORITHM != LOCK
  {
    assert |LOCK| == 4 && |ALGORITHM| == 9;
  }

  lemma SeparatorKind(st: Text)
    ensures IsSeparator(Separator(st))
  {
  }

  /** The text that completing appends. */
  function Appended(st: Text): Text
    requires Complete(st).Done?
  {
    var tail := TailOf(st).value;
    Missing(Separator(st), ReadClause(tail, ALGORITHM).Present?, ReadClause(tail, LOCK).Present?)
  }

  lemma AppendedShape(st: Text)
    requires Complete(st).Done?
    ensures Complete(st).sql == st + Appended(st)
    ensures Appended(st) == [] || (Code(Appended(st)) && Safe(Appended(st)))
  {
    hide TailOf, ReadClause, Separator, Missing, ClauseText, Code, Safe;
    var tail := TailOf(st).value;
    var a, l := ReadClause(tail, ALGORITHM).Present?, ReadClause(tail, LOCK).Present?;
    var sep, y := Separator(st), Appended(st);
    SeparatorKind(st);
    MissingAdds(sep, a, l);
    if !a {
      AdditionSafe(y, sep, ALGORITHM, INPLACE, if l then [] else sep + ClauseText(LOCK, NONE));
    } else if !l {
      AdditionSafe(y, sep, LOCK, NONE, []);
    }
  }

  /** Appending to a tidy statement leaves it tidy. */
  lemma AppendTidy(st: Text, y: Text)
    requires Tidy(st) && SEMICOLON !in Mask(st, EVERYTHING)
    requires y == [] || (Code(y) && Safe(y) && IsUpper(y[|y| - 1]))
    ensures Tidy(st + y) && SEMICOLON !in Mask(st + y, EVERYTHING)
  {
    hide Mask, ViewOf;
    if y == [] {
      assert st + y == st;
    } else {
      Append(st, y);
      forall b | b in y ensures b != SEMICOLON {}
      assert (Mask(st, COMMENTS_ONLY) + y)[|st + y| - 1] == y[|y| - 1];
    }
  }

  lemma MissingEnds(st: Text)
    requires Complete(st).Done? && Appended(st) != []
    ensures IsUpper(Appended(st)[|Appended(st)| - 1])
  {
    hide TailOf, ReadClause, Separator;
    var tail := TailOf(st).value;
    var a, l := ReadClause(tail, ALGORITHM).Present?, ReadClause(tail, LOCK).Present?;
    LastLetter(Separator(st), a, l);
  }

  lemma LastLetter(sep: Text, a: bool, l: bool)
    requires !a || !l
    ensures Missing(sep, a, l) != [] && Missing(sep, a, l)[|Missing(sep, a, l)| - 1] == 69
  {
    var c := if l then ClauseText(ALGORITHM, INPLACE) else ClauseText(LOCK, NONE);
    assert c[|c| - 1] == 69;
  }

  /**
   * What is built from a sound statement: the statement, the appended clauses, and the
   * comments.  Splitting the result finds these parts again, building it again gives the
   * same, its top-level tail has one allowed ALGORITHM and LOCK=NONE, and after the
   * clauses there are only comments and white space.
   */
  lemma BuiltAgain(sql: Text)
    requires Build(sql).Done? && Sound(SplitSuffix(sql).statement)
    ensures var parts, r := SplitSuffix(sql), Build(sql).sql;
            && Complete(parts.statement).Done?
            && var y := Appended(parts.statement);
            && r == parts.statement + y + Padded(parts.suffix)
            && SplitSuffix(r) == Parts(parts.statement + y, parts.suffix)
            && Build(r) == Build(sql)
            && AllSpace(Mask(Padded(parts.suffix), COMMENTS_ONLY))
            && Regions(r, Plain) ==
               Regions(parts.statement, Plain) + AllPlain(|y|) + Regions(Padded(parts.suffix), Plain)
    ensures Ready(SplitSuffix(Build(sql).sql).statement)
  {
    hide Ready, SplitSuffix, Complete, Appended, Warned, Mask, Regions;
    hide Tidy, Trailing, TailOf, ReadClause, Padded, HasBody, Balanced;
    var parts := SplitSuffix(sql);
    var st, y := parts.statement, Appended(parts.statement);
    BuiltParts(sql);
    TidySplit(st + y, parts.suffix);
    CompleteAgain(st);
    assert st + y + Padded(parts.suffix) == (st + y) + Padded(parts.suffix);
  }

  /** The two parts of what is built: a tidy statement and trailing comments. */
  lemma BuiltParts(sql: Text)
    requires Build(sql).Done? && Sound(SplitSuffix(sql).statement)
    ensures var parts := SplitSuffix(sql);
            && Complete(parts.statement).Done?
            && var y := Appended(parts.statement);
            && Complete(parts.statement).sql == parts.statement + y
            && Tidy(parts.statement + y) && SEMICOLON !in Mask(parts.statement + y, EVERYTHING)
            && Trailing(parts.suffix)
            && Regions(parts.statement + y, Plain) == Regions(parts.statement, Plain) + AllPlain(|y|)
            && Build(sql).sql == parts.statement + y + Padded(parts.suffix)
  {
    hide SplitSuffix, Complete, Appended, Warned, Mask, Regions;
    hide Tidy, Trailing, TailOf, ReadClause, Padded, HasBody, Balanced;
    var parts := SplitSuffix(sql);
    var st, y := parts.statement, Appended(parts.statement);
    SplitGives(sql);
    AppendedShape(st);
    if y != [] {
      MissingEnds(st);
      Append(st, y);
    }
    AppendTidy(st, y);
    assert y == [] ==> st + y == st && Regions(st, Plain) + AllPlain(|y|) == Regions(st, Plain);
  }

  /** The appended clauses stand outside parentheses, and the target stays where it is. */
  lemma AppendedAtTopLevel(st: Text)
    requires Sound(st) && Complete(st).Done?
    ensures TailOf(st).Some? && TailOf(st + Appended(st)) == Some(TailOf(st).value + Appended(st))
    ensures HasBody(st + Appended(st)) && Target(Mask(st + Appended(st), STRINGS)) == Target(Mask(st, STRINGS))
  {
    hide TailOf, ReadClause, Separator, Missing, ClauseText, Target, Mask, Balanced;
    var tail := TailOf(st).value;
    var a, l := ReadClause(tail, ALGORITHM).Present?, ReadClause(tail, LOCK).Present?;
    var sep, y := Separator(st), Appended(st);
    SeparatorKind(st);
    MissingAdds(sep, a, l);
    if !a || !l {
      TailStays(st, y, sep, if a then LOCK else ALGORITHM, if a then NONE else INPLACE,
                if a || l then [] else sep + ClauseText(LOCK, NONE));
    } else {
      assert st + y == st && tail + y == tail;
    }
  }

  /** Comments and white space are masked to white space of the patterns. */
  lemma TrailingMask(u: Text)
    requires AllSpace(Mask(u, COMMENTS_ONLY))
    ensures AllBreaks(Mask(u, STRINGS))
  {
    hide Regions, MaskFrom;
    forall i | 0 <= i < |u| ensures IsBreak(Mask(u, STRINGS)[i]) {
      MaskAt(u, i, COMMENTS_ONLY);
      MaskAt(u, i, STRINGS);
      assert IsSpace(Mask(u, COMMENTS_ONLY)[i]);
      if !IsQuote(u[i]) {
        NoStringYet(u, Plain, i);
      }
    }
    OnlyBreaks(Mask(u, STRINGS));
  }

  lemma {:induction false} OnlyBreaks(s: Text)
    requires forall i :: 0 <= i < |s| ==> IsBreak(s[i])
    ensures AllBreaks(s)
  {
    if s != [] {
      OnlyBreaks(s[1..]);
    }
  }

  /** The comments after a statement that goes on after its target leave the target where it is. */
  lemma SuffixTarget(st: Text, suffix: Text)
    requires HasBody(st) && AllSpace(Mask(Padded(suffix), COMMENTS_ONLY)) && Trim(suffix) == suffix
    requires Regions(st + Padded(suffix), Plain) == Regions(st, Plain) + Regions(Padded(suffix), Plain)
    ensures Target(Mask(st + Padded(suffix), STRINGS)) == Target(Mask(st, STRINGS))
  {
    hide Target, Trim, Regions, AllBreaks, AllSpace;
    var u := Padded(suffix);
    MaskJoin(st, u, STRINGS);
    if suffix == [] {
      assert st + u == st;
    } else {
      TrimEdges(suffix);
      TrailingMask(u);
      FirstSpace(u);
      TargetSpacing(Mask(st, STRINGS), Mask(u, STRINGS));
    }
  }

  lemma FirstSpace(u: Text)
    requires u != [] && u[0] == SPACE
    ensures Mask(u, STRINGS)[0] == SPACE
  {
    RegionsStep(u, Plain);
  }

  /** The text built from a sound statement has the target of the statement. */
  lemma BuiltTarget(sql: Text)
    requires Build(sql).Done? && Sound(SplitSuffix(sql).statement)
    ensures Target(Mask(SplitSuffix(sql).statement, STRINGS)).Some?
    ensures Target(Mask(Build(sql).sql, STRINGS)) == Target(Mask(SplitSuffix(sql).statement, STRINGS))
  {
    hide SplitSuffix, Complete, Appended, Warned, Mask, Regions, Target;
    hide Tidy, Trailing, TailOf, EndsInCode, HasBody, Balanced, Padded;
    var parts := SplitSuffix(sql);
    var v := parts.statement + Appended(parts.statement);
    BuiltParts(sql);
    AppendedAtTopLevel(parts.statement);
    TidySplit(v, parts.suffix);
    TrailingTrimmed(parts.suffix);
    SuffixTarget(v, parts.suffix);
    BodyTarget(parts.statement);
  }

  lemma TrailingTrimmed(suffix: Text)
    requires Trailing(suffix)
    ensures Trim(suffix) == suffix
  {
  }

  lemma BodyTarget(statement: Text)
    requires HasBody(statement)
    ensures Target(Mask(statement, STRINGS)).Some?
  {
  }
}
