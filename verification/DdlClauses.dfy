/**
 * Reading the ALGORITHM and LOCK clauses of a statement: its text after the
 * target with everything in parentheses blanked, and the clauses found there.
 */
module DdlClauses {
  import opened Bytes
  import opened Wrappers
  import opened Identifiers
  import opened AlterClauses
  import opened AlterRescan
  import DdlTarget

  const DEFAULT_VALUE: Text := Ascii("DEFAULT")
  const INPLACE: Text := Ascii("INPLACE")
  const COPY: Text := Ascii("COPY")
  const INSTANT: Text := Ascii("INSTANT")
  const NOCOPY: Text := Ascii("NOCOPY")
  const NONE: Text := Ascii("NONE")
  const SHARED: Text := Ascii("SHARED")
  const EXCLUSIVE: Text := Ascii("EXCLUSIVE")

  // ---------- the text outside parentheses ----------

  function Outside(b: Byte, depth: nat): Byte {
    if b == LPAREN || b == RPAREN || depth > 0 then SPACE else b
  }

  /** A text with parentheses and everything in them blanked. */
  function TopLevel(s: Text, depth: nat): (t: Text)
    ensures |t| == |s|
  {
    if s == [] then [] else [Outside(s[0], depth)] + TopLevel(s[1..], Nest(s[0], depth))
  }

  lemma {:induction false} TopLevelJoin(a: Text, b: Text, depth: nat)
    ensures TopLevel(a + b, depth) == TopLevel(a, depth) + TopLevel(b, DepthAfter(a, depth))
    decreases |a|
  {
    if a == [] {
      assert a + b == b;
    } else {
      assert (a + b)[1..] == a[1..] + b;
      TopLevelJoin(a[1..], b, Nest(a[0], depth));
    }
  }

  /** A byte shown at top level is there in the text with no parenthesis open before it. */
  lemma {:induction false} TopLevelShows(s: Text, depth: nat, i: nat)
    requires i < |s|
    ensures TopLevel(s, depth)[i] == s[i] || TopLevel(s, depth)[i] == SPACE
    ensures TopLevel(s, depth)[i] != SPACE ==> DepthAfter(s[..i], depth) == 0
    ensures DepthAfter(s[..i], depth) == 0 && s[i] != LPAREN && s[i] != RPAREN ==> TopLevel(s, depth)[i] == s[i]
    decreases |s|
  {
    if i > 0 {
      TopLevelShows(s[1..], Nest(s[0], depth), i - 1);
      assert s[..i][1..] == s[1..][..i - 1];
    }
  }

  lemma TopLevelStep(s: Text, i: nat, depth: nat)
    requires i < |s|
    ensures TopLevel(s[i..], depth) == [Outside(s[i], depth)] + TopLevel(s[i + 1..], Nest(s[i], depth))
  {
    assert s[i..][1..] == s[i + 1..];
  }

  /** The blanking loop: from `start` on, parentheses and what they hold become spaces in place. */
  method BlankParentheses(masked: Text, start: nat) returns (tail: Text)
    requires start <= |masked|
    ensures tail == TopLevel(masked[start..], 0)
  {
    hide TopLevel;
    var buffer := new Byte[|masked|](i requires 0 <= i < |masked| => masked[i]);
    var depth := 0;
    var i := start;
    while i < buffer.Length
      invariant start <= i <= buffer.Length == |masked|
      invariant forall k :: i <= k < buffer.Length ==> buffer[k] == masked[k]
      invariant TopLevel(masked[start..], 0) == buffer[start..i] + TopLevel(masked[i..], depth)
    {
      TopLevelStep(masked, i, depth);
      ghost var done, rest := buffer[start..i], TopLevel(masked[i + 1..], Nest(masked[i], depth));
      ghost var shown := Outside(masked[i], depth);
      if buffer[i] == LPAREN {
        depth := depth + 1;
        buffer[i] := SPACE;
      } else if buffer[i] == RPAREN {
        if depth > 0 {
          depth := depth - 1;
        }
        buffer[i] := SPACE;
      } else if depth > 0 {
        buffer[i] := SPACE;
      }
      assert buffer[start..i + 1] == done + [shown];
      assert done + ([shown] + rest) == done + [shown] + rest;
      i := i + 1;
    }
    tail := buffer[start..];
    assert masked[|masked|..] == [] && TopLevel([], depth) == [] by { TopLevelNothing(depth); }
    assert buffer[start..i] == buffer[start..];
  }

  lemma TopLevelNothing(depth: nat)
    ensures TopLevel([], depth) == []
  {
  }

  // ---------- clauses ----------

  /** The three patterns: `CLAUSE =`, `CLAUSE = VALUE` and `CLAUSE KNOWN-VALUE`. */
  datatype Form = Start | Assign | Spaced

  /** A match at the start of a text: its length and the value it captures. */
  datatype Capture = Capture(length: nat, value: Text)

  function KnownValues(clause: Text): seq<Text> {
    if clause == LOCK then [DEFAULT_VALUE, NONE, SHARED, EXCLUSIVE]
    else [DEFAULT_VALUE, INPLACE, COPY, INSTANT, NOCOPY]
  }

  function FirstOf(s: Text, words: seq<Text>): (r: Option<Text>)
    ensures r.Some? ==> |r.value| <= |s|
    decreases |words|
  {
    if words == [] then None
    else if StartsWithWord(s, words[0]) then Some(words[0])
    else FirstOf(s, words[1..])
  }

  predicate IsValueByte(b: Byte) {
    IsLetter(b) || b == UNDERSCORE
  }

  function ValueLength(s: Text): (n: nat)
    ensures n <= |s|
  {
    if s == [] || !IsValueByte(s[0]) then 0 else 1 + ValueLength(s[1..])
  }

  predicate StartsWithLetters(s: Text, clause: Text) {
    |clause| <= |s| && UpperText(s[..|clause|]) == clause
  }

  function CaptureAt(s: Text, clause: Text, form: Form): (r: Option<Capture>)
    ensures r.Some? ==> |clause| <= r.value.length <= |s|
  {
    if !StartsWithLetters(s, clause) then None
    else CaptureAfter(|clause|, s[|clause|..], clause, form)
  }

  /** The rest of a match, after the clause's own letters. */
  function CaptureAfter(n: nat, s: Text, clause: Text, form: Form): (r: Option<Capture>)
    ensures r.Some? ==> n <= r.value.length <= n + |s|
  {
    var i := Breaks(s);
    match form
    case Spaced =>
      var word := FirstOf(s[i..], KnownValues(clause));
      if i == 0 || word.None? then None else Some(Capture(n + i + |word.value|, word.value))
    case Start =>
      if i < |s| && s[i] == EQUALS then Some(Capture(n + i + 1, [])) else None
    case Assign =>
      if i < |s| && s[i] == EQUALS then AssignedValue(n + i + 1, s[i + 1..]) else None
  }

  /** The rest of a match after an equals sign. */
  function AssignedValue(n: nat, s: Text): (r: Option<Capture>)
    ensures r.Some? ==> n <= r.value.length <= n + |s|
  {
    var j := Breaks(s);
    var k := j + ValueLength(s[j..]);
    if k == j then None else Some(Capture(n + k, UpperText(s[j..k])))
  }

  /** All matches, leftmost first and not overlapping; `inWord` says whether a word byte comes before. */
  function FindAll(s: Text, inWord: bool, clause: Text, form: Form): (values: seq<Text>)
    requires clause != []
    decreases |s|
  {
    if s == [] then [] else
      var c := CaptureAt(s, clause, form);
      if !inWord && c.Some? then
        [c.value.value] + FindAll(s[c.value.length..], IsWord(s[c.value.length - 1]), clause, form)
      else FindAll(s[1..], IsWord(s[0]), clause, form)
  }

  datatype Reading = Unreadable | Repeated | Absent | Present(value: Text)

  /** The value of a clause, as the three patterns together read it. */
  function ReadClause(tail: Text, clause: Text): Reading
    requires clause != []
  {
    var starts, assigns, spaced :=
      FindAll(tail, false, clause, Start), FindAll(tail, false, clause, Assign), FindAll(tail, false, clause, Spaced);
    if |starts| != |assigns| then Unreadable
    else if |assigns| + |spaced| == 0 then Absent
    else if |assigns| + |spaced| > 1 then Repeated
    else if |assigns| == 1 then Present(assigns[0])
    else Present(spaced[0])
  }

  // ---------- appending a clause ----------

  predicate IsClause(clause: Text) {
    clause == ALGORITHM || clause == LOCK
  }

  function EndsInWord(s: Text, inWord: bool): bool {
    if s == [] then inWord else IsWord(s[|s| - 1])
  }

  /** Bytes at which no match can start are passed over. */
  predicate NoStart(a: Text, inWord: bool, clause: Text)
    requires clause != []
  {
    forall i :: 0 <= i < |a| ==> EndsInWord(a[..i], inWord) || Upper(a[i]) != clause[0]
  }

  lemma FindStep(s: Text, inWord: bool, clause: Text, form: Form)
    requires clause != [] && s != []
    ensures FindAll(s, inWord, clause, form) ==
            var c := CaptureAt(s, clause, form);
            if !inWord && c.Some? then
              [c.value.value] + FindAll(s[c.value.length..], IsWord(s[c.value.length - 1]), clause, form)
            else FindAll(s[1..], IsWord(s[0]), clause, form)
  {
  }

  lemma CaptureFirst(s: Text, clause: Text, form: Form)
    requires clause != []
    ensures CaptureAt(s, clause, form).Some? ==> s != [] && Upper(s[0]) == clause[0]
  {
    if StartsWithLetters(s, clause) {
      assert UpperText(s[..|clause|])[0] == Upper(s[0]);
    }
  }

  lemma NoStartRest(a: Text, inWord: bool, clause: Text)
    requires clause != [] && a != [] && NoStart(a, inWord, clause)
    ensures inWord || Upper(a[0]) != clause[0]
    ensures NoStart(a[1..], IsWord(a[0]), clause)
    ensures EndsInWord(a[1..], IsWord(a[0])) == EndsInWord(a, inWord)
  {
    assert a[..0] == [];
    forall i | 0 <= i < |a[1..]|
      ensures EndsInWord(a[1..][..i], IsWord(a[0])) || Upper(a[1..][i]) != clause[0]
    {
      assert EndsInWord(a[..i + 1], inWord) || Upper(a[i + 1]) != clause[0];
      assert i > 0 ==> a[1..][..i][i - 1] == a[..i + 1][i];
    }
  }

  lemma {:induction false} PassOver(a: Text, s: Text, inWord: bool, clause: Text, form: Form)
    requires IsClause(clause) && NoStart(a, inWord, clause)
    ensures FindAll(a + s, inWord, clause, form) == FindAll(s, EndsInWord(a, inWord), clause, form)
    decreases |a|
  {
    hide FindAll, CaptureAt, NoStart, EndsInWord;
    if a == [] {
      assert a + s == s;
      assert EndsInWord([], inWord) == inWord by { NoWord(inWord); }
    } else {
      NoStartRest(a, inWord, clause);
      CaptureFirst(a + s, clause, form);
      FindStep(a + s, inWord, clause, form);
      assert (a + s)[1..] == a[1..] + s;
      PassOver(a[1..], s, IsWord(a[0]), clause, form);
    }
  }

  lemma NoWord(inWord: bool)
    ensures EndsInWord([], inWord) == inWord
  {
  }

  /** Text that continues a statement and cannot complete a clause begun before it. */
  predicate Separate(y: Text) {
    && y != [] && (y[0] == COMMA || y[0] == SPACE)
    && Breaks(y) < |y| && y[Breaks(y)] != EQUALS
    && FirstOf(y[Breaks(y)..], KnownValues(ALGORITHM)).None?
    && FirstOf(y[Breaks(y)..], KnownValues(LOCK)).None?
  }

  lemma {:induction false} FirstOfWithin(s: Text, y: Text, words: seq<Text>)
    requires s != [] && y != [] && !IsWord(y[0])
    requires forall i :: 0 <= i < |words| ==> DdlTarget.IsKeyword(words[i])
    ensures FirstOf(s + y, words) == FirstOf(s, words)
    decreases |words|
  {
    hide StartsWithWord;
    if words != [] {
      WordIgnoresTail(s, y, words[0]);
      FirstOfWithin(s, y, words[1..]);
    }
  }

  lemma {:induction false} ValueWithin(s: Text, y: Text)
    requires y != [] && !IsWord(y[0])
    ensures ValueLength(s + y) == ValueLength(s)
    decreases |s|
  {
    if s == [] {
      assert s + y == y;
    } else {
      assert (s + y)[1..] == s[1..] + y;
      ValueWithin(s[1..], y);
    }
  }

  lemma LettersWithin(s: Text, y: Text, clause: Text)
    requires IsClause(clause) && y != [] && !IsWord(y[0])
    ensures StartsWithLetters(s + y, clause) == StartsWithLetters(s, clause)
  {
    if |clause| <= |s| {
      assert (s + y)[..|clause|] == s[..|clause|];
    } else if |clause| <= |s + y| {
      assert UpperText((s + y)[..|clause|])[|s|] == Upper(y[0]);
    }
  }

  lemma StartWithin(n: nat, r: Text, y: Text, clause: Text)
    requires Separate(y)
    ensures CaptureAfter(n, r + y, clause, Start) == CaptureAfter(n, r, clause, Start)
  {
    hide Breaks, FirstOf;
    DdlTarget.BreaksWithin(r, y);
    if Breaks(r) == |r| {
      assert (r + y)[|r| + Breaks(y)] == y[Breaks(y)];
    }
  }

  lemma FirstOfNothing(clause: Text)
    requires IsClause(clause)
    ensures FirstOf([], KnownValues(clause)).None?
  {
    KnownAreKeywords(clause);
    FirstOfEmpty(KnownValues(clause));
  }

  lemma KnownAreKeywords(clause: Text)
    ensures forall i :: 0 <= i < |KnownValues(clause)| ==> DdlTarget.IsKeyword(KnownValues(clause)[i])
  {
  }

  lemma {:induction false} FirstOfEmpty(words: seq<Text>)
    requires forall i :: 0 <= i < |words| ==> DdlTarget.IsKeyword(words[i])
    ensures FirstOf([], words).None?
    decreases |words|
  {
    if words != [] {
      FirstOfEmpty(words[1..]);
    }
  }

  lemma SeparateKnown(y: Text, clause: Text)
    requires Separate(y) && IsClause(clause)
    ensures Breaks(y) < |y| && FirstOf(y[Breaks(y)..], KnownValues(clause)).None?
  {
  }

  lemma SpacedWithin(n: nat, r: Text, y: Text, clause: Text)
    requires Separate(y) && IsClause(clause)
    ensures CaptureAfter(n, r + y, clause, Spaced) == CaptureAfter(n, r, clause, Spaced)
  {
    hide Breaks, FirstOf, KnownValues;
    SeparateKnown(y, clause);
    KnownAreKeywords(clause);
    DdlTarget.BreaksWithin(r, y);
    var i := Breaks(r);
    if i == |r| {
      assert (r + y)[|r| + Breaks(y)..] == y[Breaks(y)..];
      assert r[i..] == [];
      FirstOfNothing(clause);
    } else {
      assert (r + y)[i..] == r[i..] + y;
      FirstOfWithin(r[i..], y, KnownValues(clause));
    }
  }

  lemma AssignWithin(n: nat, r: Text, y: Text, clause: Text)
    requires Separate(y)
    requires CaptureAfter(n, r, clause, Assign).Some? || CaptureAfter(n, r, clause, Start).None?
    ensures CaptureAfter(n, r + y, clause, Assign) == CaptureAfter(n, r, clause, Assign)
  {
    hide Breaks, FirstOf, AssignedValue;
    StartWithin(n, r, y, clause);
    DdlTarget.BreaksWithin(r, y);
    if CaptureAfter(n, r, clause, Assign).Some? {
      var i := Breaks(r);
      assert (r + y)[i + 1..] == r[i + 1..] + y;
      AssignedWithin(n + i + 1, r[i + 1..], y);
    }
  }

  lemma AssignedWithin(n: nat, r: Text, y: Text)
    requires Separate(y) && AssignedValue(n, r).Some?
    ensures AssignedValue(n, r + y) == AssignedValue(n, r)
  {
    hide Breaks, FirstOf, ValueLength, KnownValues;
    DdlTarget.BreaksWithin(r, y);
    var j := Breaks(r);
    ValueNothing(r[j..]);
    assert (r + y)[j..] == r[j..] + y;
    ValueWithin(r[j..], y);
    assert (r + y)[j..j + ValueLength(r[j..])] == r[j..j + ValueLength(r[j..])];
  }

  lemma ValueNothing(s: Text)
    ensures ValueLength(s) > 0 ==> s != []
  {
  }

  /** Appending text does not change what is captured before it. */
  lemma CaptureWithin(s: Text, y: Text, clause: Text, form: Form)
    requires Separate(y) && IsClause(clause)
    requires form.Assign? ==> CaptureAt(s, clause, Assign).Some? || CaptureAt(s, clause, Start).None?
    ensures CaptureAt(s + y, clause, form) == CaptureAt(s, clause, form)
  {
    hide CaptureAfter, StartsWithLetters;
    LettersWithin(s, y, clause);
    if StartsWithLetters(s, clause) {
      LettersLength(s, clause);
      var n, r := |clause|, s[|clause|..];
      assert (s + y)[n..] == r + y;
      match form {
        case Start => StartWithin(n, r, y, clause);
        case Spaced => SpacedWithin(n, r, y, clause);
        case Assign => AssignWithin(n, r, y, clause);
      }
    }
  }

  lemma LettersLength(s: Text, clause: Text)
    requires StartsWithLetters(s, clause)
    ensures |clause| <= |s|
  {
  }

  /** Nothing can start inside `CLAUSE =`. */
  lemma AfterStart(s: Text, clause: Text, form: Form)
    requires IsClause(clause) && CaptureAt(s, clause, Start).Some?
    ensures var n := CaptureAt(s, clause, Start).value.length;
            && s[n - 1] == EQUALS
            && FindAll(s[1..], IsWord(s[0]), clause, form) == FindAll(s[n..], false, clause, form)
  {
    hide FindAll, CaptureAt, NoStart;
    assert clause != [];
    StartLetters(s, clause);
    NoStartWithin(s, clause);
    hide IsClause;
    var n := CaptureAt(s, clause, Start).value.length;
    var a := s[1..n];
    PassOver(a, s[n..], IsWord(s[0]), clause, form);
    assert a + s[n..] == s[1..];
    assert a[..|a| - 1] + [s[n - 1]] == a;
    EndsHere(a, IsWord(s[0]));
  }

  lemma EndsHere(a: Text, inWord: bool)
    ensures a != [] ==> EndsInWord(a, inWord) == IsWord(a[|a| - 1])
  {
  }

  /** `CLAUSE =` is the clause's letters, white space and the equals sign. */
  lemma StartLetters(s: Text, clause: Text)
    requires IsClause(clause) && CaptureAt(s, clause, Start).Some?
    ensures var n, k := CaptureAt(s, clause, Start).value.length, |clause|;
            && StartsWithLetters(s, clause) && 1 < k < n <= |s| && s[n - 1] == EQUALS
            && forall i :: k <= i < n - 1 ==> IsBreak(s[i])
  {
    LettersLength(s, clause);
    var k := |clause|;
    var r := s[k..];
    BreaksAre(r);
    assert r[Breaks(r)] == s[k + Breaks(r)];
    assert forall i :: k <= i < k + Breaks(r) ==> s[i] == r[i - k];
  }

  lemma NoStartWithin(s: Text, clause: Text)
    requires IsClause(clause) && CaptureAt(s, clause, Start).Some?
    ensures NoStart(s[1..CaptureAt(s, clause, Start).value.length], IsWord(s[0]), clause)
  {
    StartLetters(s, clause);
    LettersAreWords(s, clause);
    assert clause[0] == 'A' as int as Byte || clause[0] == 'L' as int as Byte;
    var n, k := CaptureAt(s, clause, Start).value.length, |clause|;
    hide CaptureAt, IsClause, StartsWithLetters;
    var a := s[1..n];
    forall i | 0 <= i < |a| ensures EndsInWord(a[..i], IsWord(s[0])) || Upper(a[i]) != clause[0] {
      assert a[i] == s[i + 1];
      assert i > 0 ==> a[..i][i - 1] == s[i];
    }
  }

  lemma LettersAreWords(s: Text, clause: Text)
    requires IsClause(clause) && StartsWithLetters(s, clause)
    ensures forall i :: 0 <= i < |clause| ==> IsWord(s[i])
  {
    forall i | 0 <= i < |clause| ensures IsWord(s[i]) {
      assert UpperText(s[..|clause|])[i] == Upper(s[i]) == clause[i];
    }
  }

  /** The number of `CLAUSE =` and of `CLAUSE = VALUE` matches. */
  function Starts(s: Text, inWord: bool, clause: Text): nat
    requires clause != []
  {
    |FindAll(s, inWord, clause, Start)|
  }

  function Assigns(s: Text, inWord: bool, clause: Text): nat
    requires clause != []
  {
    |FindAll(s, inWord, clause, Assign)|
  }

  lemma FewerStarts(s: Text, inWord: bool, clause: Text)
    requires IsClause(clause) && s != []
    ensures Starts(s[1..], IsWord(s[0]), clause) <= Starts(s, inWord, clause)
    ensures !inWord && CaptureAt(s, clause, Start).Some? ==>
              var n := CaptureAt(s, clause, Start).value.length;
              && Starts(s, inWord, clause) == 1 + Starts(s[n..], false, clause)
              && Assigns(s[1..], IsWord(s[0]), clause) == Assigns(s[n..], false, clause)
  {
    hide FindAll, CaptureAt;
    FindStep(s, inWord, clause, Start);
    if !inWord && CaptureAt(s, clause, Start).Some? {
      AfterStart(s, clause, Start);
      AfterStart(s, clause, Assign);
    }
  }

  /** Of a shorter text there are no more. */
  lemma {:induction false} FewerStartsFrom(s: Text, inWord: bool, k: nat, clause: Text)
    requires IsClause(clause) && k <= |s|
    ensures Starts(s[k..], EndsInWord(s[..k], inWord), clause) <= Starts(s, inWord, clause)
    decreases k
  {
    hide FindAll, Starts;
    if k == 0 {
      assert s[..0] == [] && s[0..] == s;
    } else {
      FewerStarts(s, inWord, clause);
      FewerStartsFrom(s[1..], IsWord(s[0]), k - 1, clause);
      assert s[1..][k - 1..] == s[k..];
      assert k > 1 ==> s[1..][..k - 1][k - 2] == s[..k][k - 1];
    }
  }

  lemma AssignStarts(s: Text, clause: Text)
    requires CaptureAt(s, clause, Assign).Some?
    ensures CaptureAt(s, clause, Start).Some?
    ensures CaptureAt(s, clause, Start).value.length < CaptureAt(s, clause, Assign).value.length
  {
    hide Breaks, ValueLength;
  }

  /** A captured assignment leaves at most one start fewer behind it. */
  lemma StartsAfterAssign(s: Text, clause: Text)
    requires IsClause(clause) && CaptureAt(s, clause, Assign).Some?
    ensures var n := CaptureAt(s, clause, Assign).value.length;
            1 + Starts(s[n..], IsWord(s[n - 1]), clause) <= Starts(s, false, clause)
  {
    hide FindAll, CaptureAt, Starts;
    AssignStarts(s, clause);
    var m, n := CaptureAt(s, clause, Start).value.length, CaptureAt(s, clause, Assign).value.length;
    FewerStarts(s, false, clause);
    FewerStartsFrom(s[m..], false, n - m, clause);
    assert s[m..][n - m..] == s[n..];
    assert s[m..][..n - m][n - m - 1] == s[n - 1];
  }

  /** Every assignment has a start of its own. */
  lemma {:induction false} AssignsAreStarts(s: Text, inWord: bool, clause: Text)
    requires IsClause(clause)
    ensures Assigns(s, inWord, clause) <= Starts(s, inWord, clause)
    decreases |s|
  {
    hide FindAll, CaptureAt;
    if s == [] {
      FindNothing(inWord, clause);
    } else {
      FindStep(s, inWord, clause, Assign);
      var c := CaptureAt(s, clause, Assign);
      if !inWord && c.Some? {
        StartsAfterAssign(s, clause);
        AssignsAreStarts(s[c.value.length..], IsWord(s[c.value.length - 1]), clause);
      } else {
        FewerStarts(s, inWord, clause);
        AssignsAreStarts(s[1..], IsWord(s[0]), clause);
      }
    }
  }

  lemma FindNothing(inWord: bool, clause: Text)
    requires clause != []
    ensures forall form: Form :: FindAll([], inWord, clause, form) == []
  {
  }

  /** When every start is an assignment, so it is at the first place and in the rest. */
  lemma EvenRest(s: Text, inWord: bool, clause: Text)
    requires IsClause(clause) && s != []
    requires Assigns(s, inWord, clause) == Starts(s, inWord, clause)
    ensures !inWord ==> CaptureAt(s, clause, Assign).Some? || CaptureAt(s, clause, Start).None?
    ensures var c := CaptureAt(s, clause, Assign);
            var n := if !inWord && c.Some? then c.value.length else 1;
            Assigns(s[n..], IsWord(s[n - 1]), clause) == Starts(s[n..], IsWord(s[n - 1]), clause)
  {
    hide FindAll, CaptureAt;
    FindStep(s, inWord, clause, Assign);
    FindStep(s, inWord, clause, Start);
    var c := CaptureAt(s, clause, Assign);
    if !inWord && c.Some? {
      StartsAfterAssign(s, clause);
      AssignsAreStarts(s[c.value.length..], IsWord(s[c.value.length - 1]), clause);
    } else {
      FewerStarts(s, inWord, clause);
      if !inWord && CaptureAt(s, clause, Start).Some? {
        AssignsAreStarts(s[CaptureAt(s, clause, Start).value.length..], false, clause);
      }
    }
  }

  lemma EndsLater(s: Text, inWord: bool, n: nat)
    requires 0 < n <= |s|
    ensures EndsInWord(s[n..], IsWord(s[n - 1])) == EndsInWord(s, inWord)
  {
  }

  /** What is found first, and where the search goes on. */
  lemma FindFirst(s: Text, inWord: bool, clause: Text, form: Form, found: seq<Text>, n: nat)
    requires clause != [] && s != []
    requires var c := CaptureAt(s, clause, form);
             if !inWord && c.Some? then found == [c.value.value] && n == c.value.length else found == [] && n == 1
    ensures 0 < n <= |s| && FindAll(s, inWord, clause, form) == found + FindAll(s[n..], IsWord(s[n - 1]), clause, form)
  {
    hide FindAll, CaptureAt;
    FindStep(s, inWord, clause, form);
  }

  /** What is found in a text and in separate text appended to it is found in both together. */
  lemma {:induction false} FindExtend(s: Text, y: Text, inWord: bool, clause: Text, form: Form)
    requires IsClause(clause) && Separate(y)
    requires form.Assign? ==> Assigns(s, inWord, clause) == Starts(s, inWord, clause)
    ensures FindAll(s + y, inWord, clause, form) ==
            FindAll(s, inWord, clause, form) + FindAll(y, EndsInWord(s, inWord), clause, form)
    decreases |s|
  {
    hide FindAll, CaptureAt, Separate, Starts, Assigns, EndsInWord;
    if s == [] {
      assert s + y == y;
      FindNothing(inWord, clause);
      NoWord(inWord);
    } else {
      if form.Assign? {
        EvenRest(s, inWord, clause);
      }
      if !inWord {
        CaptureWithin(s, y, clause, form);
      }
      var c := CaptureAt(s, clause, form);
      var n := if !inWord && c.Some? then c.value.length else 1;
      var found := if !inWord && c.Some? then [c.value.value] else [];
      FindFirst(s, inWord, clause, form, found, n);
      FindFirst(s + y, inWord, clause, form, found, n);
      assert (s + y)[n..] == s[n..] + y && (s + y)[n - 1] == s[n - 1];
      EndsLater(s, inWord, n);
      FindExtend(s[n..], y, IsWord(s[n - 1]), clause, form);
      var rest := FindAll(s[n..], IsWord(s[n - 1]), clause, form);
      var later := FindAll(y, EndsInWord(s, inWord), clause, form);
      assert found + (rest + later) == found + rest + later;
    }
  }
}
