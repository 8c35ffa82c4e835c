/**
 * What the ALGORITHM and LOCK patterns find: the positions of a text at which
 * a clause begins, and the value that is read when there is one.
 */
module ClauseGrammar {
  import opened Bytes
  import opened Wrappers
  import opened Identifiers
  import opened AlterClauses
  import opened DdlClauses
  import opened OnlineRules
  import opened TargetGrammar

  // ---------- the grammar ----------

  /** A word begins here: no word byte stands before. */
  predicate WordStarts(s: Text, i: nat) {
    i <= |s| && (i > 0 ==> !WordByte(s[i - 1]))
  }

  /** The letters of a clause, in any case, and the white space after them, all of it. */
  predicate NamesTo(s: Text, i: nat, clause: Text, e: nat) {
    i + |clause| <= |s| && SameWord(s[i..i + |clause|], clause) && WhiteTo(s, i + |clause|, e)
  }

  /** A clause and an equals sign. */
  ghost predicate EqualsAt(s: Text, i: nat, clause: Text) {
    WordStarts(s, i) && exists e: nat :: NamesTo(s, i, clause, e) && e < |s| && s[e] == 61
  }

  predicate ValueByte(b: Byte) {
    65 <= b <= 90 || 97 <= b <= 122 || b == 95
  }

  /** All letters and underscores at a position. */
  predicate ValueTo(s: Text, j: nat, k: nat) {
    j < k <= |s| && (forall i :: j <= i < k ==> ValueByte(s[i])) && (k < |s| ==> !ValueByte(s[k]))
  }

  /** After an equals sign: white space and a value. */
  predicate ValueAfter(s: Text, e: nat, j: nat, k: nat, value: Text) {
    WhiteTo(s, e + 1, j) && ValueTo(s, j, k) && value == UpperText(s[j..k])
  }

  /** A clause, an equals sign and a value. */
  ghost predicate AssignsAt(s: Text, i: nat, clause: Text, value: Text) {
    && WordStarts(s, i)
    && exists e: nat, j: nat, k: nat ::
         NamesTo(s, i, clause, e) && e < |s| && s[e] == 61 && ValueAfter(s, e, j, k, value)
  }

  function Known(clause: Text): seq<Text> {
    if clause == Ascii("LOCK") then [Ascii("DEFAULT"), Ascii("NONE"), Ascii("SHARED"), Ascii("EXCLUSIVE")]
    else [Ascii("DEFAULT"), Ascii("INPLACE"), Ascii("COPY"), Ascii("INSTANT"), Ascii("NOCOPY")]
  }

  /** A clause, white space and one of its known values. */
  ghost predicate SpacedAt(s: Text, i: nat, clause: Text, value: Text) {
    && WordStarts(s, i) && value in Known(clause)
    && exists j: nat :: NamesTo(s, i, clause, j) && i + |clause| < j && BeginsWith(s[j..], value)
  }

  ghost predicate ClauseAt(s: Text, i: nat, clause: Text) {
    EqualsAt(s, i, clause) || exists value: Text :: SpacedAt(s, i, clause, value)
  }

  predicate AClause(clause: Text) {
    clause == Ascii("ALGORITHM") || clause == Ascii("LOCK")
  }

  // ---------- matches at a position ----------

  /** A match begins here, with no word byte before it. */
  predicate HitAt(s: Text, inWord: bool, i: nat, clause: Text, form: Form) {
    i < |s| && !EndsInWord(s[..i], inWord) && CaptureAt(s[i..], clause, form).Some?
  }

  lemma {:induction false} PassTo(s: Text, inWord: bool, i: nat, clause: Text, form: Form)
    requires clause != [] && i <= |s| && forall k: nat :: k < i ==> !HitAt(s, inWord, k, clause, form)
    ensures FindAll(s, inWord, clause, form) == FindAll(s[i..], EndsInWord(s[..i], inWord), clause, form)
    decreases i
  {
    hide FindAll, CaptureAt;
    assert s[..0] == [];
    if i == 0 {
      assert s[0..] == s;
    } else {
      FindStep(s, inWord, clause, form);
      assert s[0..] == s && !HitAt(s, inWord, 0, clause, form);
      HitLater(s, inWord, clause, form);
      PassTo(s[1..], IsWord(s[0]), i - 1, clause, form);
      assert s[1..][i - 1..] == s[i..];
      EndsOnward(s, inWord, i);
    }
  }

  lemma EndsOnward(s: Text, inWord: bool, i: nat)
    requires 0 < i <= |s|
    ensures EndsInWord(s[1..][..i - 1], IsWord(s[0])) == EndsInWord(s[..i], inWord)
  {
  }

  lemma HitLater(s: Text, inWord: bool, clause: Text, form: Form)
    requires s != []
    ensures forall k: nat :: HitAt(s[1..], IsWord(s[0]), k, clause, form) <==> HitAt(s, inWord, k + 1, clause, form)
  {
    hide CaptureAt;
    forall k: nat
      ensures HitAt(s[1..], IsWord(s[0]), k, clause, form) <==> HitAt(s, inWord, k + 1, clause, form)
    {
      if k < |s| - 1 {
        assert s[1..][k..] == s[k + 1..];
        EndsOnward(s, inWord, k + 1);
      }
    }
  }

  lemma NoneFound(s: Text, inWord: bool, clause: Text, form: Form)
    requires clause != [] && forall k: nat :: !HitAt(s, inWord, k, clause, form)
    ensures FindAll(s, inWord, clause, form) == []
  {
    hide HitAt;
    PassTo(s, inWord, |s|, clause, form);
  }

  lemma NextHit(s: Text, inWord: bool, k: nat, clause: Text, form: Form) returns (i: nat)
    requires HitAt(s, inWord, k, clause, form)
    ensures i <= k && HitAt(s, inWord, i, clause, form) && forall j: nat :: j < i ==> !HitAt(s, inWord, j, clause, form)
  {
    hide HitAt;
    i := 0;
    while !HitAt(s, inWord, i, clause, form)
      invariant i <= k && forall j: nat :: j < i ==> !HitAt(s, inWord, j, clause, form)
      decreases k - i
    {
      i := i + 1;
    }
  }

  /** The matches from the first one on. */
  lemma FirstFound(s: Text, inWord: bool, i: nat, clause: Text, form: Form)
    requires clause != [] && HitAt(s, inWord, i, clause, form)
    requires forall j: nat :: j < i ==> !HitAt(s, inWord, j, clause, form)
    ensures var c := CaptureAt(s[i..], clause, form).value;
            var n := i + c.length;
            && i < n <= |s|
            && FindAll(s, inWord, clause, form) ==
               [c.value] + FindAll(s[n..], IsWord(s[n - 1]), clause, form)
  {
    hide FindAll, CaptureAt;
    PassTo(s, inWord, i, clause, form);
    FindStep(s[i..], EndsInWord(s[..i], inWord), clause, form);
    var c := CaptureAt(s[i..], clause, form).value;
    assert s[i..][c.length..] == s[i + c.length..];
  }

  lemma HitAfter(s: Text, inWord: bool, n: nat, k: nat, clause: Text, form: Form)
    requires 0 < n <= |s|
    ensures HitAt(s[n..], IsWord(s[n - 1]), k, clause, form) <==> HitAt(s, inWord, n + k, clause, form)
  {
    hide CaptureAt;
    if n + k < |s| {
      Onwards(s, n, n + k);
    }
  }

  /** One place to match gives one value. */
  lemma OnlyFound(s: Text, inWord: bool, i: nat, clause: Text, form: Form)
    requires clause != [] && HitAt(s, inWord, i, clause, form)
    requires forall j: nat :: HitAt(s, inWord, j, clause, form) ==> j == i
    ensures FindAll(s, inWord, clause, form) == [CaptureAt(s[i..], clause, form).value.value]
  {
    hide FindAll, CaptureAt;
    FirstFound(s, inWord, i, clause, form);
    var n := i + CaptureAt(s[i..], clause, form).value.length;
    var r, w := s[n..], IsWord(s[n - 1]);
    forall k: nat ensures !HitAt(r, w, k, clause, form) {
      HitAfter(s, inWord, n, k, clause, form);
    }
    NoneFound(s[n..], IsWord(s[n - 1]), clause, form);
  }

  // ---------- no match inside a match ----------

  /** No match begins inside a match of the first or the last pattern. */
  lemma NoInner(s: Text, inWord: bool, i: nat, k: nat, clause: Text, form: Form)
    requires AClause(clause) && form != Assign && HitAt(s, inWord, i, clause, form)
    requires i < k < i + CaptureAt(s[i..], clause, form).value.length
    ensures !HitAt(s, inWord, k, clause, form)
  {
    hide CaptureAfter, UpperText;
    ClauseLetters(clause);
    var t, n := s[i..], |clause|;
    var b := Breaks(t[n..]);
    LettersAt(t, clause);
    CaptureSpan(t, clause, form);
    BreaksAre(t[n..]);
    assert s[..k][k - 1] == s[k - 1] == t[k - i - 1] && s[k] == t[k - i] && s[k..][0] == s[k];
    LettersAt(s[k..], clause);
    if n <= k - i < n + b {
      assert t[n..][k - i - n] == t[k - i];
    } else if k - i > n + b {
      assert t[n..][k - i - n] == t[k - i] && t[n..][k - i - n - 1] == t[k - i - 1];
    } else if k - i == n + b {
      assert t[n..][b] == t[k - i];
    }
  }

  lemma ClauseLetters(clause: Text)
    requires AClause(clause)
    ensures IsClause(clause) && clause != [] && (clause[0] == 65 || clause[0] == 76)
    ensures forall i :: 0 <= i < |clause| ==> IsUpper(clause[i])
  {
  }

  /** The letters of a clause are word bytes. */
  lemma LettersAt(t: Text, clause: Text)
    requires AClause(clause)
    ensures StartsWithLetters(t, clause) ==>
              Upper(t[0]) == clause[0] && forall i :: 0 <= i < |clause| ==> IsWord(t[i])
  {
    if StartsWithLetters(t, clause) {
      ClauseLetters(clause);
      forall i | 0 <= i < |clause| ensures Upper(t[i]) == clause[i] {
        assert UpperText(t[..|clause|])[i] == Upper(t[i]);
      }
    }
  }

  /** After its letters and white space, a match ends with `=` or with a value of letters that begins unlike it. */
  lemma CaptureSpan(t: Text, clause: Text, form: Form)
    requires AClause(clause) && form != Assign && CaptureAt(t, clause, form).Some?
    ensures var r := t[|clause|..];
            var b := Breaks(r);
            var m := CaptureAt(t, clause, form).value.length - |clause|;
            && b < m <= |r| && Upper(r[b]) != clause[0]
            && (forall i :: b <= i < m - 1 ==> IsWord(r[i]))
  {
    ClauseLetters(clause);
    var r := t[|clause|..];
    var b := Breaks(r);
    if form.Spaced? {
      var v := FirstOf(r[b..], KnownValues(clause)).value;
      FirstIsKnown(r[b..], KnownValues(clause));
      KnownLetters(clause, v);
      assert StartsWithWord(r[b..], v);
      forall i | b <= i < b + |v| ensures Upper(r[i]) == v[i - b] && IsWord(r[i]) {
        assert UpperText(r[b..][..|v|])[i - b] == Upper(r[i]);
      }
    }
  }

  lemma {:induction false} FirstIsKnown(s: Text, words: seq<Text>)
    ensures FirstOf(s, words).Some? ==>
              FirstOf(s, words).value in words && StartsWithWord(s, FirstOf(s, words).value)
    ensures FirstOf(s, words).None? ==> forall w :: w in words ==> !StartsWithWord(s, w)
    decreases |words|
  {
    hide StartsWithWord;
    if words != [] {
      FirstIsKnown(s, words[1..]);
      assert words == [words[0]] + words[1..];
    }
  }

  lemma KnownLetters(clause: Text, v: Text)
    requires AClause(clause) && v in KnownValues(clause)
    ensures v != [] && v[0] != clause[0] && forall i :: 0 <= i < |v| ==> IsUpper(v[i])
  {
    assert DEFAULT_VALUE[0] == 68 && INPLACE[0] == 73 && COPY[0] == 67 && INSTANT[0] == 73 && NOCOPY[0] == 78;
    assert NONE[0] == 78 && SHARED[0] == 83 && EXCLUSIVE[0] == 69;
  }

  lemma SomeFound(s: Text, inWord: bool, k: nat, clause: Text, form: Form)
    requires clause != [] && HitAt(s, inWord, k, clause, form)
    ensures FindAll(s, inWord, clause, form) != []
  {
    hide FindAll, HitAt, CaptureAt;
    var i := NextHit(s, inWord, k, clause, form);
    FirstFound(s, inWord, i, clause, form);
  }

  /** One value comes from one place. */
  lemma OneFound(s: Text, inWord: bool, clause: Text, form: Form) returns (i: nat)
    requires AClause(clause) && form != Assign && |FindAll(s, inWord, clause, form)| == 1
    ensures HitAt(s, inWord, i, clause, form) && forall j: nat :: HitAt(s, inWord, j, clause, form) ==> j == i
    ensures FindAll(s, inWord, clause, form) == [CaptureAt(s[i..], clause, form).value.value]
  {
    hide FindAll, HitAt, CaptureAt, AClause;
    ClauseLetters(clause);
    if forall k: nat :: !HitAt(s, inWord, k, clause, form) {
      NoneFound(s, inWord, clause, form);
    }
    var k: nat :| HitAt(s, inWord, k, clause, form);
    i := NextHit(s, inWord, k, clause, form);
    HitSome(s, inWord, i, clause, form);
    FirstFound(s, inWord, i, clause, form);
    var n := i + CaptureAt(s[i..], clause, form).value.length;
    forall j: nat | HitAt(s, inWord, j, clause, form) ensures j == i {
      if i < j < n {
        NoInner(s, inWord, i, j, clause, form);
      } else if j >= n {
        HitAfter(s, inWord, n, j - n, clause, form);
        SomeFound(s[n..], IsWord(s[n - 1]), j - n, clause, form);
      }
    }
  }

  lemma HitSome(s: Text, inWord: bool, i: nat, clause: Text, form: Form)
    requires HitAt(s, inWord, i, clause, form)
    ensures i < |s| && CaptureAt(s[i..], clause, form).Some?
  {
  }

  // ---------- the patterns ----------

  lemma StartsAre(s: Text, i: nat)
    requires i <= |s|
    ensures WordStarts(s, i) <==> !EndsInWord(s[..i], false)
  {
  }

  lemma NamesAre(s: Text, i: nat, clause: Text, e: nat)
    requires AClause(clause) && i <= |s|
    ensures NamesTo(s, i, clause, e) <==>
            StartsWithLetters(s[i..], clause) && e == i + |clause| + Breaks(s[i + |clause|..])
  {
    hide WhiteTo, UpperText, SameWord;
    UpperWords();
    if i + |clause| <= |s| {
      assert s[i..][..|clause|] == s[i..i + |clause|];
      SameUpper(s[i..i + |clause|], clause);
      WhiteIs(s, i + |clause|, e);
    }
  }

  /** Where a match at a position goes on. */
  lemma CaptureParts(s: Text, i: nat, clause: Text, form: Form)
    requires AClause(clause) && i <= |s|
    ensures StartsWithLetters(s[i..], clause) ==>
              && i + |clause| <= |s|
              && CaptureAt(s[i..], clause, form) == CaptureAfter(|clause|, s[i + |clause|..], clause, form)
    ensures !StartsWithLetters(s[i..], clause) ==> CaptureAt(s[i..], clause, form).None?
  {
    hide CaptureAfter, UpperText;
    if StartsWithLetters(s[i..], clause) {
      Onwards(s, i, i + |clause|);
    }
  }

  lemma EqualsIs(s: Text, i: nat, clause: Text)
    requires AClause(clause)
    ensures EqualsAt(s, i, clause) <==> HitAt(s, false, i, clause, Start)
  {
    hide NamesTo, StartsWithLetters, AClause, WordStarts, EndsInWord, Breaks, CaptureAt;
    if i <= |s| {
      StartsAre(s, i);
      CaptureParts(s, i, clause, Start);
      forall e: nat
        ensures NamesTo(s, i, clause, e) <==>
                StartsWithLetters(s[i..], clause) && e == i + |clause| + Breaks(s[i + |clause|..])
      {
        NamesAre(s, i, clause, e);
      }
      NothingStarts(s, i, clause);
    }
    NamedWithin(s, i, clause);
  }

  lemma NothingStarts(s: Text, i: nat, clause: Text)
    requires AClause(clause) && i <= |s|
    ensures StartsWithLetters(s[i..], clause) ==> i < |s|
  {
  }

  lemma NamedWithin(s: Text, i: nat, clause: Text)
    ensures WordStarts(s, i) ==> i <= |s|
  {
  }

  lemma {:induction false} ValueIs(s: Text, j: nat, k: nat)
    requires j <= |s|
    ensures ValueTo(s, j, k) <==> j < k && k == j + ValueLength(s[j..])
    decreases |s| - j
  {
    if j < |s| && IsValueByte(s[j]) {
      assert s[j..][1..] == s[j + 1..];
      ValueIs(s, j + 1, k);
      ValueNone(s, j + 1);
    }
  }

  lemma ValueNone(s: Text, j: nat)
    requires j <= |s|
    ensures ValueLength(s[j..]) == 0 <==> j == |s| || !ValueByte(s[j])
  {
  }

  /** The value after an equals sign, by positions. */
  lemma AssignParts(s: Text, i: nat, clause: Text)
    requires AClause(clause) && i < |s| && StartsWithLetters(s[i..], clause)
    ensures var e := i + |clause| + Breaks(s[i + |clause|..]);
            if e < |s| && s[e] == 61 then
              var j := e + 1 + Breaks(s[e + 1..]);
              var k := j + ValueLength(s[j..]);
              CaptureAt(s[i..], clause, Assign) == if k == j then None else Some(Capture(k - i, UpperText(s[j..k])))
            else CaptureAt(s[i..], clause, Assign).None?
  {
    hide CaptureAt, StartsWithLetters, Breaks, UpperText, AClause, CaptureAfter, ValueLength;
    CaptureParts(s, i, clause, Assign);
    AssignAfter(s, i + |clause|, |clause|, clause);
  }

  lemma AssignAfter(s: Text, n: nat, m: nat, clause: Text)
    requires n <= |s|
    ensures var e := n + Breaks(s[n..]);
            if e < |s| && s[e] == 61 then
              var j := e + 1 + Breaks(s[e + 1..]);
              var k := j + ValueLength(s[j..]);
              CaptureAfter(m, s[n..], clause, Assign) ==
              if k == j then None else Some(Capture(m + k - n, UpperText(s[j..k])))
            else CaptureAfter(m, s[n..], clause, Assign).None?
  {
    hide Breaks, UpperText, ValueLength, AssignedValue;
    var e := n + Breaks(s[n..]);
    if e < |s| && s[e] == 61 {
      Onwards(s, n, e + 1);
      AssignedFrom(s, m + e + 1 - n, e + 1);
    }
  }

  lemma AssignedFrom(s: Text, m: nat, e: nat)
    requires e <= |s|
    ensures var j := e + Breaks(s[e..]);
            var k := j + ValueLength(s[j..]);
            AssignedValue(m, s[e..]) == if k == j then None else Some(Capture(m + k - e, UpperText(s[j..k])))
  {
    hide Breaks, UpperText, ValueLength;
    var j := e + Breaks(s[e..]);
    Onwards(s, e, j);
    Between(s, e, j, j + ValueLength(s[j..]));
  }

  lemma Between(s: Text, n: nat, j: nat, k: nat)
    requires n <= j <= k <= |s|
    ensures s[n..][j - n..k - n] == s[j..k]
  {
  }

  lemma ValueAfterIs(s: Text, e: nat, j: nat, k: nat, value: Text)
    requires e < |s|
    ensures ValueAfter(s, e, j, k, value) <==>
            && j == e + 1 + Breaks(s[e + 1..]) && j < k && k == j + ValueLength(s[j..])
            && value == UpperText(s[j..k])
  {
    hide Breaks, WhiteTo, ValueTo, ValueLength, UpperText;
    WhiteIs(s, e + 1, j);
    if j <= |s| {
      ValueIs(s, j, k);
    }
    ValueWithin(s, j, k);
  }

  lemma ValueWithin(s: Text, j: nat, k: nat)
    ensures ValueTo(s, j, k) ==> j <= |s|
  {
  }

  lemma AssignFound(s: Text, i: nat, clause: Text)
    requires AClause(clause) && HitAt(s, false, i, clause, Assign)
    ensures AssignsAt(s, i, clause, CaptureAt(s[i..], clause, Assign).value.value)
  {
    hide CaptureAt, StartsWithLetters, Breaks, AClause, NamesTo, WordStarts, EndsInWord, ValueLength, ValueAfter;
    hide UpperText;
    StartsAre(s, i);
    CaptureParts(s, i, clause, Assign);
    AssignParts(s, i, clause);
    var e := i + |clause| + Breaks(s[i + |clause|..]);
    NamesAre(s, i, clause, e);
    var j := e + 1 + Breaks(s[e + 1..]);
    var k := j + ValueLength(s[j..]);
    ValueAfterIs(s, e, j, k, UpperText(s[j..k]));
  }

  lemma AssignRead(s: Text, i: nat, clause: Text, value: Text)
    requires AClause(clause) && AssignsAt(s, i, clause, value)
    ensures HitAt(s, false, i, clause, Assign) && CaptureAt(s[i..], clause, Assign).value.value == value
    ensures EqualsAt(s, i, clause)
  {
    hide CaptureAt, StartsWithLetters, Breaks, AClause, NamesTo, WordStarts, EndsInWord, ValueLength, ValueAfter;
    hide UpperText;
    NamedWithin(s, i, clause);
    StartsAre(s, i);
    var e: nat, j: nat, k: nat :|
      NamesTo(s, i, clause, e) && e < |s| && s[e] == 61 && ValueAfter(s, e, j, k, value);
    NamesAre(s, i, clause, e);
    NothingStarts(s, i, clause);
    ValueAfterIs(s, e, j, k, value);
    AssignParts(s, i, clause);
  }

  // known values

  lemma KnownAre(clause: Text)
    requires AClause(clause)
    ensures Known(clause) == KnownValues(clause)
  {
  }

  /** A text begins with one known value only. */
  lemma ValueUnique(s: Text, a: Text, b: Text)
    requires StartsWithWord(s, a) && StartsWithWord(s, b)
    requires (forall i :: 0 <= i < |a| ==> IsUpper(a[i])) && (forall i :: 0 <= i < |b| ==> IsUpper(b[i]))
    ensures a == b
  {
    assert |a| < |b| ==> UpperText(s[..|b|])[|a|] == Upper(s[|a|]);
    assert |b| < |a| ==> UpperText(s[..|a|])[|b|] == Upper(s[|b|]);
  }

  lemma SpacedParts(s: Text, i: nat, clause: Text)
    requires AClause(clause) && i < |s| && StartsWithLetters(s[i..], clause)
    ensures var j := i + |clause| + Breaks(s[i + |clause|..]);
            var word := FirstOf(s[j..], KnownValues(clause));
            CaptureAt(s[i..], clause, Spaced) ==
            if j == i + |clause| || word.None? then None else Some(Capture(j + |word.value| - i, word.value))
  {
    hide CaptureAt, StartsWithLetters, Breaks, AClause, FirstOf, KnownValues;
    CaptureParts(s, i, clause, Spaced);
    var n := i + |clause|;
    Onwards(s, n, n + Breaks(s[n..]));
  }

  lemma SpacedFound(s: Text, i: nat, clause: Text)
    requires AClause(clause) && HitAt(s, false, i, clause, Spaced)
    ensures SpacedAt(s, i, clause, CaptureAt(s[i..], clause, Spaced).value.value)
  {
    hide CaptureAt, StartsWithLetters, Breaks, AClause, NamesTo, WordStarts, EndsInWord, BeginsWith, FirstOf, Known;
    hide KnownValues;
    StartsAre(s, i);
    CaptureParts(s, i, clause, Spaced);
    SpacedParts(s, i, clause);
    var j := i + |clause| + Breaks(s[i + |clause|..]);
    NamesAre(s, i, clause, j);
    KnownAre(clause);
    FirstIsKnown(s[j..], KnownValues(clause));
    KnownBegins(s[j..], clause, CaptureAt(s[i..], clause, Spaced).value.value);
  }

  lemma KnownBegins(s: Text, clause: Text, value: Text)
    requires AClause(clause) && value in KnownValues(clause)
    ensures StartsWithWord(s, value) <==> BeginsWith(s, value)
  {
    hide StartsWithWord, BeginsWith, KnownValues, AClause;
    KnownLetters(clause, value);
    assert UpperText(value) == value;
    OnlineRules.WordIs(s, value);
  }

  lemma SpacedRead(s: Text, i: nat, clause: Text, value: Text)
    requires AClause(clause) && SpacedAt(s, i, clause, value)
    ensures HitAt(s, false, i, clause, Spaced) && CaptureAt(s[i..], clause, Spaced).value.value == value
  {
    hide CaptureAt, StartsWithLetters, Breaks, AClause, SameWord, WordStarts, EndsInWord, BeginsWith, FirstOf, Known;
    hide KnownValues, StartsWithWord;
    NamedWithin(s, i, clause);
    StartsAre(s, i);
    var j: nat :| NamesTo(s, i, clause, j) && i + |clause| < j && BeginsWith(s[j..], value);
    NamesAre(s, i, clause, j);
    NothingStarts(s, i, clause);
    SpacedParts(s, i, clause);
    KnownAre(clause);
    KnownBegins(s[j..], clause, value);
    FirstIsKnown(s[j..], KnownValues(clause));
    var word := FirstOf(s[j..], KnownValues(clause));
    KnownLetters(clause, value);
    KnownLetters(clause, word.value);
    ValueUnique(s[j..], value, word.value);
  }

  /** No place begins both an assignment and a clause with a known value after white space. */
  lemma NotBoth(s: Text, i: nat, clause: Text)
    requires AClause(clause) && HitAt(s, false, i, clause, Start)
    ensures !HitAt(s, false, i, clause, Spaced)
  {
    hide CaptureAt, StartsWithLetters, Breaks, AClause, FirstOf, KnownValues, CaptureAfter;
    CaptureParts(s, i, clause, Start);
    CaptureParts(s, i, clause, Spaced);
    NotBothAfter(|clause|, s[i + |clause|..], clause);
  }

  lemma NotBothAfter(n: nat, s: Text, clause: Text)
    requires AClause(clause) && CaptureAfter(n, s, clause, Start).Some?
    ensures CaptureAfter(n, s, clause, Spaced).None?
  {
    hide FirstOf, KnownValues, AClause, StartsWithWord;
    var t := s[Breaks(s)..];
    FirstIsKnown(t, KnownValues(clause));
    var word := FirstOf(t, KnownValues(clause));
    if word.Some? {
      KnownLetters(clause, word.value);
      FirstLetter(t, word.value);
    }
  }

  lemma FirstLetter(s: Text, word: Text)
    requires word != [] && StartsWithWord(s, word) && IsUpper(word[0])
    ensures s != [] && IsLetter(s[0])
  {
    assert UpperText(s[..|word|])[0] == Upper(s[0]);
  }

  // ---------- the theorem ----------

  /** The value of a clause is read exactly where one clause stands; no clause is read exactly where none does. */
  lemma ReadExactly(s: Text, clause: Text)
    requires AClause(clause)
    ensures clause != []
    ensures ReadClause(s, clause).Absent? <==> forall i: nat :: !ClauseAt(s, i, clause)
    ensures forall value: Text ::
              ReadClause(s, clause) == Reading.Present(value) <==>
              exists i: nat ::
                && ClauseAt(s, i, clause) && (forall j: nat :: ClauseAt(s, j, clause) ==> j == i)
                && (AssignsAt(s, i, clause, value) || SpacedAt(s, i, clause, value))
  {
    hide ClauseAt, AssignsAt, SpacedAt, AClause, ReadClause;
    ClauseLetters(clause);
    AbsentExactly(s, clause);
    forall value: Text
      ensures ReadClause(s, clause) == Reading.Present(value) <==>
              exists i: nat ::
                && ClauseAt(s, i, clause) && (forall j: nat :: ClauseAt(s, j, clause) ==> j == i)
                && (AssignsAt(s, i, clause, value) || SpacedAt(s, i, clause, value))
    {
      if ReadClause(s, clause) == Reading.Present(value) {
        var i := OnlyClause(s, clause, value);
      }
      if i: nat :|
        && ClauseAt(s, i, clause) && (forall j: nat :: ClauseAt(s, j, clause) ==> j == i)
        && (AssignsAt(s, i, clause, value) || SpacedAt(s, i, clause, value))
      {
        ClauseOnly(s, i, clause, value);
      }
    }
  }

  lemma ClauseHits(s: Text, i: nat, clause: Text)
    requires AClause(clause)
    ensures ClauseAt(s, i, clause) <==> HitAt(s, false, i, clause, Start) || HitAt(s, false, i, clause, Spaced)
  {
    hide HitAt, EqualsAt, SpacedAt, AClause;
    EqualsIs(s, i, clause);
    if HitAt(s, false, i, clause, Spaced) {
      HitSome(s, false, i, clause, Spaced);
      SpacedFound(s, i, clause);
      assert SpacedAt(s, i, clause, CaptureAt(s[i..], clause, Spaced).value.value);
    } else if ClauseAt(s, i, clause) && !EqualsAt(s, i, clause) {
      var value: Text :| SpacedAt(s, i, clause, value);
      SpacedRead(s, i, clause, value);
    }
  }

  /** Every assignment begins like one. */
  lemma AssignHits(s: Text, i: nat, clause: Text)
    requires AClause(clause) && HitAt(s, false, i, clause, Assign)
    ensures HitAt(s, false, i, clause, Start)
  {
    hide HitAt, EqualsAt, AssignsAt, AClause;
    AssignFound(s, i, clause);
    HitSome(s, false, i, clause, Assign);
    AssignRead(s, i, clause, CaptureAt(s[i..], clause, Assign).value.value);
    EqualsIs(s, i, clause);
  }

  lemma AbsentExactly(s: Text, clause: Text)
    requires AClause(clause) && clause != []
    ensures ReadClause(s, clause).Absent? <==> forall i: nat :: !ClauseAt(s, i, clause)
  {
    hide HitAt, ClauseAt, AClause, FindAll;
    forall i: nat
      ensures ClauseAt(s, i, clause) <==> HitAt(s, false, i, clause, Start) || HitAt(s, false, i, clause, Spaced)
      ensures HitAt(s, false, i, clause, Assign) ==> HitAt(s, false, i, clause, Start)
    {
      ClauseHits(s, i, clause);
      if HitAt(s, false, i, clause, Assign) {
        AssignHits(s, i, clause);
      }
    }
    if forall i: nat :: !ClauseAt(s, i, clause) {
      NoneFound(s, false, clause, Start);
      NoneFound(s, false, clause, Assign);
      NoneFound(s, false, clause, Spaced);
    } else {
      var i: nat :| ClauseAt(s, i, clause);
      SomeFound(s, false, i, clause, if HitAt(s, false, i, clause, Start) then Start else Spaced);
    }
  }

  lemma ClauseOnly(s: Text, i: nat, clause: Text, value: Text)
    requires AClause(clause) && clause != []
    requires ClauseAt(s, i, clause) && forall j: nat :: ClauseAt(s, j, clause) ==> j == i
    requires AssignsAt(s, i, clause, value) || SpacedAt(s, i, clause, value)
    ensures ReadClause(s, clause) == Reading.Present(value)
  {
    hide HitAt, ClauseAt, AClause, FindAll, CaptureAt, AssignsAt, SpacedAt;
    forall j: nat
      ensures HitAt(s, false, j, clause, Start) || HitAt(s, false, j, clause, Spaced) ==> j == i
      ensures HitAt(s, false, j, clause, Assign) ==> HitAt(s, false, j, clause, Start)
    {
      ClauseHits(s, j, clause);
      if HitAt(s, false, j, clause, Assign) {
        AssignHits(s, j, clause);
      }
    }
    if AssignsAt(s, i, clause, value) {
      AssignRead(s, i, clause, value);
      AssignHits(s, i, clause);
      NotBoth(s, i, clause);
      HitSome(s, false, i, clause, Start);
      OnlyFound(s, false, i, clause, Start);
      OnlyFound(s, false, i, clause, Assign);
      NoneFound(s, false, clause, Spaced);
    } else {
      SpacedRead(s, i, clause, value);
      if HitAt(s, false, i, clause, Start) {
        NotBoth(s, i, clause);
      }
      OnlyFound(s, false, i, clause, Spaced);
      NoneFound(s, false, clause, Start);
      NoneFound(s, false, clause, Assign);
    }
  }

  lemma OnlyClause(s: Text, clause: Text, value: Text) returns (i: nat)
    requires AClause(clause) && clause != [] && ReadClause(s, clause) == Reading.Present(value)
    ensures ClauseAt(s, i, clause) && forall j: nat :: ClauseAt(s, j, clause) ==> j == i
    ensures AssignsAt(s, i, clause, value) || SpacedAt(s, i, clause, value)
  {
    hide HitAt, ClauseAt, AClause, FindAll, CaptureAt, AssignsAt, SpacedAt;
    forall j: nat
      ensures ClauseAt(s, j, clause) <==> HitAt(s, false, j, clause, Start) || HitAt(s, false, j, clause, Spaced)
      ensures HitAt(s, false, j, clause, Assign) ==> HitAt(s, false, j, clause, Start)
    {
      ClauseHits(s, j, clause);
      if HitAt(s, false, j, clause, Assign) {
        AssignHits(s, j, clause);
      }
    }
    if |FindAll(s, false, clause, Assign)| == 1 {
      i := OneFound(s, false, clause, Start);
      FoundExactly(s, clause, Spaced);
      FoundExactly(s, clause, Assign);
      HitSome(s, false, i, clause, Assign);
      OnlyFound(s, false, i, clause, Assign);
      AssignFound(s, i, clause);
    } else {
      i := OneFound(s, false, clause, Spaced);
      FoundExactly(s, clause, Start);
      HitSome(s, false, i, clause, Spaced);
      SpacedFound(s, i, clause);
    }
  }

  lemma FoundExactly(s: Text, clause: Text, form: Form)
    requires clause != []
    ensures FindAll(s, false, clause, form) == [] <==> forall j: nat :: !HitAt(s, false, j, clause, form)
  {
    hide HitAt, FindAll;
    if forall j: nat :: !HitAt(s, false, j, clause, form) {
      NoneFound(s, false, clause, form);
    } else {
      var j: nat :| HitAt(s, false, j, clause, form);
      SomeFound(s, false, j, clause, form);
    }
  }
}
