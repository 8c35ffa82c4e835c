/**
 * What pt-online-schema-change is asked to do, told by words: which modifiers
 * are refused, which clauses are taken out, which waits are found, and which
 * part of a CREATE INDEX is the index definition.
 */
module PtoscRules {
  import opened Bytes
  import opened Wrappers
  import opened SqlScanner
  import opened Identifiers
  import opened AlterClauses
  import opened DdlTarget
  import opened DdlClauses
  import opened OnlineDdl
  import opened OnlineRules
  import opened TargetGrammar
  import opened ClauseGrammar
  import opened PtoscSql
  import opened PtoscRescan

  // ---------- modifiers ----------

  predicate IgnoreAt(words: seq<Text>, i: nat) {
    i < |words| && SameWord(words[i], Ascii("IGNORE"))
  }

  predicate IfExistsAt(words: seq<Text>, i: nat) {
    i + 1 < |words| && SameWord(words[i], Ascii("IF")) && SameWord(words[i + 1], Ascii("EXISTS"))
  }

  /** The first IGNORE or IF EXISTS of the words decides, in any case; without one there is no objection. */
  lemma {:induction false} ModifierIs(words: seq<Text>)
    ensures BadModifier(words).None? <==> forall i: nat :: !IgnoreAt(words, i) && !IfExistsAt(words, i)
    ensures BadModifier(words).Some? ==>
              exists i: nat ::
                && (forall j: nat :: j < i ==> !IgnoreAt(words, j) && !IfExistsAt(words, j))
                && (BadModifier(words).value == IgnoreModifier ==> IgnoreAt(words, i))
                && (BadModifier(words).value != IgnoreModifier ==>
                      BadModifier(words).value == IfExistsGuard && IfExistsAt(words, i))
  {
    hide UpperText, SameWord, Ascii;
    if words != [] {
      ModifierWords();
      SameUpper(words[0], Ascii("IGNORE"));
      SameUpper(words[0], Ascii("IF"));
      if |words| > 1 {
        SameUpper(words[1], Ascii("EXISTS"));
      }
      var rest := words[1..];
      ModifierIs(rest);
      WordsLater(words);
      if IgnoreAt(words, 0) || IfExistsAt(words, 0) {
        assert forall j: nat :: j < 0 ==> !IgnoreAt(words, j) && !IfExistsAt(words, j);
      } else if BadModifier(rest).Some? {
        var i: nat :|
          && (forall j: nat :: j < i ==> !IgnoreAt(rest, j) && !IfExistsAt(rest, j))
          && (BadModifier(rest).value == IgnoreModifier ==> IgnoreAt(rest, i))
          && (BadModifier(rest).value != IgnoreModifier ==>
                BadModifier(rest).value == IfExistsGuard && IfExistsAt(rest, i));
        forall j: nat | j < i + 1 ensures !IgnoreAt(words, j) && !IfExistsAt(words, j) {
          if j > 0 {
            assert !IgnoreAt(rest, j - 1) && !IfExistsAt(rest, j - 1);
          }
        }
        assert IgnoreAt(rest, i) ==> IgnoreAt(words, i + 1);
        assert IfExistsAt(rest, i) ==> IfExistsAt(words, i + 1);
      } else {
        forall i: nat ensures !IgnoreAt(words, i) && !IfExistsAt(words, i) {
          if i > 0 {
            assert !IgnoreAt(rest, i - 1) && !IfExistsAt(rest, i - 1);
          }
        }
      }
    }
  }

  lemma ModifierWords()
    ensures IGNORE == Ascii("IGNORE") == UpperText(Ascii("IGNORE"))
    ensures IF == Ascii("IF") == UpperText(Ascii("IF")) && EXISTS == Ascii("EXISTS") == UpperText(Ascii("EXISTS"))
  {
  }

  lemma WordsLater(words: seq<Text>)
    requires words != []
    ensures forall i: nat :: IgnoreAt(words[1..], i) ==> IgnoreAt(words, i + 1)
    ensures forall i: nat :: IfExistsAt(words[1..], i) ==> IfExistsAt(words, i + 1)
    ensures forall i: nat :: IgnoreAt(words, i) && i > 0 ==> IgnoreAt(words[1..], i - 1)
    ensures forall i: nat :: IfExistsAt(words, i) && i > 0 ==> IfExistsAt(words[1..], i - 1)
  {
  }

  // ---------- clauses ----------

  function ClauseValues(): seq<Text> {
    [Ascii("DEFAULT"), Ascii("INPLACE"), Ascii("COPY"), Ascii("INSTANT"), Ascii("NOCOPY"), Ascii("NONE"),
     Ascii("SHARED"), Ascii("EXCLUSIVE")]
  }

  /** After a clause's word: an equals sign with white space around it, or white space. */
  ghost predicate GapTo(s: Text, from: nat, j: nat) {
    exists i: nat ::
      && WhiteTo(s, from, i)
      && if i < |s| && s[i] == 61 then WhiteTo(s, i + 1, j) else from < i == j
  }

  /** A text begins with ALGORITHM or LOCK and a known value. */
  ghost predicate OnlineTextAt(s: Text, n: nat) {
    exists word: Text, j: nat, value: Text ::
      && word in [Ascii("ALGORITHM"), Ascii("LOCK")] && value in ClauseValues()
      && BeginsWith(s, word) && GapTo(s, |word|, j) && j <= |s| && BeginsWith(s[j..], value) && n == j + |value|
  }

  lemma GapIs(s: Text, from: nat, j: nat)
    requires from <= |s|
    ensures GapTo(s, from, j) <==>
            var i := from + Breaks(s[from..]);
            if i < |s| && s[i] == EQUALS then j == i + 1 + Breaks(s[i + 1..]) else from < i == j
  {
    hide WhiteTo, Breaks;
    forall i: nat ensures WhiteTo(s, from, i) <==> i == from + Breaks(s[from..]) {
      WhiteIs(s, from, i);
    }
    var i := from + Breaks(s[from..]);
    assert WhiteTo(s, from, i);
    if i < |s| {
      WhiteIs(s, i + 1, j);
    }
  }

  lemma ValuesAre(value: Text)
    ensures value in ClauseValues() <==>
            value in [DEFAULT_VALUE, INPLACE, COPY, INSTANT, NOCOPY, NONE, SHARED, EXCLUSIVE]
    ensures value in ClauseValues() ==> UpperText(value) == value && forall i :: 0 <= i < |value| ==> IsUpper(value[i])
  {
  }

  lemma NotBothWords(s: Text)
    ensures !(StartsWithWord(s, ALGORITHM) && StartsWithWord(s, LOCK))
  {
    assert |s| >= |ALGORITHM| ==> UpperText(s[..|ALGORITHM|])[0] == Upper(s[0]);
    assert |s| >= |LOCK| ==> UpperText(s[..|LOCK|])[0] == Upper(s[0]);
  }

  /** The clause that is taken out at the start of a text, exactly. */
  lemma ClauseIs(s: Text, n: nat)
    ensures ClauseLength(s) == Some(n) <==> OnlineTextAt(s, n)
  {
    hide BeginsWith, StartsWithWord, GapTo, FirstOf, ClauseValues, Ascii, ClauseLength;
    if OnlineTextAt(s, n) {
      var word: Text, j: nat, value: Text :|
        && word in [Ascii("ALGORITHM"), Ascii("LOCK")] && value in ClauseValues()
        && BeginsWith(s, word) && GapTo(s, |word|, j) && j <= |s| && BeginsWith(s[j..], value) && n == j + |value|;
      ClauseRead(s, word, j, value);
    }
    if ClauseLength(s) == Some(n) {
      ClauseMade(s, n);
    }
  }

  lemma ClauseRead(s: Text, word: Text, j: nat, value: Text)
    requires word in [Ascii("ALGORITHM"), Ascii("LOCK")] && value in ClauseValues()
    requires BeginsWith(s, word) && GapTo(s, |word|, j) && j <= |s| && BeginsWith(s[j..], value)
    ensures ClauseLength(s) == Some(j + |value|)
  {
    hide BeginsWith, StartsWithWord, GapTo, FirstOf, ClauseValues, Ascii, Breaks;
    UpperWords();
    ClauseWords();
    OnlineRules.WordIs(s, word);
    NotBothWords(s);
    WordWithin(s, word);
    GapIs(s, |word|, j);
    ValuesAre(value);
    OnlineRules.WordIs(s[j..], value);
    var values := [DEFAULT_VALUE, INPLACE, COPY, INSTANT, NOCOPY, NONE, SHARED, EXCLUSIVE];
    FirstIsKnown(s[j..], values);
    var found := FirstOf(s[j..], values).value;
    ValuesAre(found);
    ValueUnique(s[j..], value, found);
  }

  lemma WordWithin(s: Text, word: Text)
    ensures StartsWithWord(s, word) ==> |word| <= |s|
  {
  }

  lemma ClauseMade(s: Text, n: nat)
    requires ClauseLength(s) == Some(n)
    ensures OnlineTextAt(s, n)
  {
    hide BeginsWith, StartsWithWord, GapTo, FirstOf, ClauseValues, Ascii, Breaks, OnlineTextAt;
    UpperWords();
    ClauseWords();
    var word := if StartsWithWord(s, ALGORITHM) then ALGORITHM else LOCK;
    OnlineRules.WordIs(s, word);
    WordWithin(s, word);
    var i := |word| + Breaks(s[|word|..]);
    var j := if i < |s| && s[i] == EQUALS then i + 1 + Breaks(s[i + 1..]) else i;
    GapIs(s, |word|, j);
    ClauseValue(s, word, j, FirstOf(s[j..], [DEFAULT_VALUE, INPLACE, COPY, INSTANT, NOCOPY, NONE, SHARED, EXCLUSIVE]));
  }

  lemma ClauseValue(s: Text, word: Text, j: nat, value: Option<Text>)
    requires word in [Ascii("ALGORITHM"), Ascii("LOCK")] && BeginsWith(s, word) && GapTo(s, |word|, j) && j <= |s|
    requires value == FirstOf(s[j..], [DEFAULT_VALUE, INPLACE, COPY, INSTANT, NOCOPY, NONE, SHARED, EXCLUSIVE])
    ensures value.Some? ==> OnlineTextAt(s, j + |value.value|)
  {
    hide BeginsWith, StartsWithWord, GapTo, FirstOf, ClauseValues, Ascii, UpperText, IsUpper;
    if value.Some? {
      FirstIsKnown(s[j..], [DEFAULT_VALUE, INPLACE, COPY, INSTANT, NOCOPY, NONE, SHARED, EXCLUSIVE]);
      ValuesAre(value.value);
      OnlineRules.WordIs(s[j..], value.value);
    }
  }

  // ---------- waits ----------

  /** A number that is a word of its own. */
  predicate NumberTo(s: Text, i: nat, j: nat) {
    i < j <= |s| && (forall k :: i <= k < j ==> 48 <= s[k] <= 57) && (j < |s| ==> !WordByte(s[j]))
  }

  /** A text begins with NOWAIT, or with WAIT, white space and a number. */
  ghost predicate WaitTextAt(s: Text) {
    || BeginsWith(s, Ascii("NOWAIT"))
    || exists i: nat, j: nat :: Keyword(s, i, Ascii("WAIT")) && NumberTo(s, i, j)
  }

  lemma NumberIs(s: Text, i: nat, j: nat)
    requires i <= |s|
    ensures NumberTo(s, i, j) <==>
            var n := DigitCount(s[i..]); n > 0 && j == i + n && (j == |s| || !IsWord(s[j]))
  {
    var r := s[i..];
    var n := DigitCount(r);
    assert forall k :: i <= k < |s| ==> s[k] == r[k - i];
    assert forall k :: 0 <= k < n ==> r[..n][k] == r[k];
  }

  lemma WaitIs(s: Text)
    ensures WaitsHere(s) <==> WaitTextAt(s)
  {
    hide BeginsWith, StartsWithWord, Keyword, WordLength, Ascii, NumberTo, DigitCount;
    WaitWords();
    OnlineRules.WordIs(s, NOWAIT);
    forall i: nat ensures Keyword(s, i, WAIT) <==> WordLength(s, WAIT) == Some(i) {
      TargetGrammar.WordIs(s, i, WAIT);
    }
    var w := WordLength(s, WAIT);
    if w.Some? {
      forall j: nat ensures NumberTo(s, w.value, j) <==>
        var n := DigitCount(s[w.value..]); n > 0 && j == w.value + n && (j == |s| || !IsWord(s[j]))
      {
        NumberIs(s, w.value, j);
      }
      assert Keyword(s, w.value, WAIT);
    }
  }

  lemma WaitWords()
    ensures NOWAIT == Ascii("NOWAIT") == UpperText(Ascii("NOWAIT")) && WAIT == Ascii("WAIT") && IsKeyword(WAIT)
  {
  }

  // ---------- the index definition ----------

  /** The definition begins after CREATE and the white space there. */
  ghost predicate BeginsDefinition(s: Text, start: nat) {
    exists i: nat :: WhiteTo(s, 0, i) && i <= start <= |s| && Keyword(s[i..], start - i, Ascii("CREATE"))
  }

  /** It ends where white space, ON and the table follow, and does not end in white space itself. */
  ghost predicate EndsDefinition(s: Text, nameEnd: nat, end: nat) {
    && 0 < nameEnd <= |s| && !White(s[nameEnd - 1])
    && exists l: nat, m: nat ::
         && WhiteTo(s, nameEnd, l) && nameEnd < l <= m <= end <= |s|
         && Keyword(s[l..], m - l, Ascii("ON")) && TableAt(s[m..], end - m, true)
  }

  /** The parts of a CREATE INDEX that make an ALTER TABLE. */
  lemma DefinitionIs(s: Text)
    ensures ChangeIndex(s).Some? ==>
              var p := ChangeIndex(s).value;
              BeginsDefinition(s, p.start) && p.start < p.nameEnd && EndsDefinition(s, p.nameEnd, p.end)
  {
    hide BeginsDefinition, EndsDefinition, Breaks, WordLength, ChangeAfter;
    var i := Breaks(s);
    var w := WordLength(s[i..], CREATE);
    if w.Some? {
      DefinitionBegins(s, i, w.value);
      AfterCreate(s, i + w.value);
    }
  }

  lemma DefinitionBegins(s: Text, i: nat, n: nat)
    requires i == Breaks(s) && WordLength(s[i..], CREATE) == Some(n)
    ensures BeginsDefinition(s, i + n)
  {
    hide Breaks, WordLength, WhiteTo, Keyword, IsKeyword, Ascii;
    CreateKeywords();
    WhiteIs(s, 0, i);
    assert s[0..] == s;
    TargetGrammar.WordIs(s[i..], n, CREATE);
  }

  lemma AfterCreate(s: Text, start: nat)
    requires start <= |s|
    ensures ChangeAfter(s, start).Some? ==>
              var p := ChangeAfter(s, start).value;
              p.start == start < p.nameEnd && EndsDefinition(s, p.nameEnd, p.end)
  {
    hide EndsDefinition, WordLength, ChangeTable, IdentLength, PhraseLength, IndexKind, Breaks, Optionally;
    var j := start + IndexKind(s[start..]);
    var x := WordLength(s[j..], INDEX);
    if x.Some? {
      var k := j + x.value;
      var l := k + Optionally(s[k..], [IF, NOT, EXISTS]);
      var name := IdentLength(s[l..]);
      if name.Some? {
        NameEnds(s, l, name.value);
        AfterName(s, start, l + name.value);
      }
    }
  }

  /** A name does not end in white space. */
  lemma NameEnds(s: Text, l: nat, n: nat)
    requires l <= |s| && IdentLength(s[l..]) == Some(n)
    ensures 0 < n <= |s[l..]| && !White(s[l + n - 1])
  {
    hide IdentLength;
    NameIs(s[l..], n);
    assert s[l..][n - 1] == s[l + n - 1];
  }

  lemma AfterName(s: Text, start: nat, nameEnd: nat)
    requires start < nameEnd <= |s| && !White(s[nameEnd - 1])
    ensures ChangeTable(s, start, nameEnd).Some? ==>
              var p := ChangeTable(s, start, nameEnd).value;
              p.start == start < p.nameEnd && EndsDefinition(s, p.nameEnd, p.end)
  {
    hide EndsDefinition, Breaks, WordLength, IndexMethod, ReferenceAt, Content, TableAt, WhiteTo, Ascii;
    var gap := nameEnd + Breaks(s[nameEnd..]);
    var used := IndexMethod(s[gap..]);
    var defined := if used == 0 then nameEnd else gap + Content(s[gap..gap + used]);
    var w := WordLength(s[gap + used..], ON);
    if ChangeTable(s, start, nameEnd).Some? {
      var at := gap + used + w.value;
      if used == 0 {
        WhiteIs(s, nameEnd, gap);
      } else {
        MethodEnds(s, gap, used);
      }
      TableIs(s[at..], true);
      DefinitionEnds(s, defined, gap + used, at, ReferenceAt(s[at..], true).value.end);
    }
  }

  lemma DefinitionEnds(s: Text, nameEnd: nat, l: nat, m: nat, n: nat)
    requires 0 < nameEnd < l <= m <= |s| && !White(s[nameEnd - 1]) && WhiteTo(s, nameEnd, l)
    requires WordLength(s[l..], ON) == Some(m - l) && n <= |s[m..]| && TableAt(s[m..], n, true)
    ensures EndsDefinition(s, nameEnd, m + n)
  {
    hide WordLength, WhiteTo, Keyword, IsKeyword, Ascii, TableAt;
    UsingKeywords();
    TargetGrammar.WordIs(s[l..], m - l, ON);
  }

  /** A method ends in a word and white space, which is not part of the definition. */
  lemma MethodEnds(s: Text, gap: nat, used: nat)
    requires gap <= |s| && used == IndexMethod(s[gap..]) && used > 0
    requires WordLength(s[gap + used..], ON).Some?
    ensures var nameEnd := gap + Content(s[gap..gap + used]);
            && gap < nameEnd < gap + used && !White(s[nameEnd - 1]) && WhiteTo(s, nameEnd, gap + used)
  {
    hide IndexMethod, WordLength, Content, PhraseLength, IsKeyword;
    var t := s[gap..];
    var using := MethodFound(t);
    UsingKeywords();
    NoWords(t);
    PhraseStep(t, using);
    var n := WordLength(t, using[0]).value;
    assert using[1..] == [using[1]];
    OneWord(t[n..], using[1]);
    var m := n + |using[1]|;
    TargetGrammar.WordIs(t[n..], used - n, using[1]);
    var u := s[gap..gap + used];
    WordTail(t[n..], used - n, using[1]);
    assert forall k :: 0 <= k < used ==> u[k] == t[k] == s[gap + k];
    assert forall k :: n <= k < used ==> t[n..][k - n] == t[k];
    ContentIs(u, m);
    assert gap + used < |s| ==> t[used] == s[gap + used] && t[n..][used - n] == t[used];
  }

  lemma WordTail(s: Text, n: nat, word: Text)
    requires IsKeyword(word) && Keyword(s, n, word)
    ensures IsLetter(s[|word| - 1]) && (forall k :: |word| <= k < n ==> White(s[k])) && (n < |s| ==> !White(s[n]))
  {
    assert SameLetter(s[..|word|][|word| - 1], word[|word| - 1]);
  }

  lemma ContentIs(s: Text, m: nat)
    requires 0 < m <= |s| && !IsSpace(s[m - 1]) && forall k :: m <= k < |s| ==> IsSpace(s[k])
    ensures Content(s) == m
  {
    var n := Content(s);
    assert forall k :: n <= k < |s| ==> s[n..][k - n] == s[k];
  }

  // ---------- taking the clauses out ----------

  /** A clause of a masked text: at the beginning of a word, ALGORITHM or LOCK and a known value. */
  ghost predicate OnlineAt(masked: Text, i: nat, n: nat) {
    WordStarts(masked, i) && OnlineTextAt(masked[i..], n)
  }

  ghost predicate NoneBefore(masked: Text, end: nat) {
    forall i: nat, n: nat :: i < end ==> !OnlineAt(masked, i, n)
  }

  lemma OnlineHere(masked: Text, i: nat)
    requires i < |masked|
    ensures ClauseHere(masked, false, i) <==> exists n: nat :: OnlineAt(masked, i, n)
    ensures forall n: nat :: OnlineAt(masked, i, n) ==> ClauseLength(masked[i..]) == Some(n)
  {
    hide OnlineTextAt, ClauseLength, WordStarts, EndsInWord;
    StartsAre(masked, i);
    forall n: nat ensures OnlineTextAt(masked[i..], n) <==> ClauseLength(masked[i..]) == Some(n) {
      ClauseIs(masked[i..], n);
    }
    var c := ClauseLength(masked[i..]);
    if c.Some? && WordStarts(masked, i) {
      assert OnlineAt(masked, i, c.value);
    }
  }

  /** Bytes at which no clause begins are kept. */
  lemma {:induction false} KeptTo(s: Text, masked: Text, inWord: bool, i: nat)
    requires |s| == |masked| && i <= |s| && forall k: nat :: k < i ==> !ClauseHere(masked, inWord, k)
    ensures WithoutClauses(s, masked, inWord) ==
            s[..i] + WithoutClauses(s[i..], masked[i..], EndsInWord(masked[..i], inWord))
    decreases i
  {
    hide ClauseLength, WithoutClauses, EndsInWord;
    assert masked[..0] == [];
    NoWord(inWord);
    if i == 0 {
      assert s[0..] == s && masked[0..] == masked && s[..0] == [];
    } else {
      assert !ClauseHere(masked, inWord, 0) && masked[0..] == masked;
      WithoutFirst(s, masked, inWord);
      forall k: nat | k < i - 1 ensures !ClauseHere(masked[1..], IsWord(masked[0]), k) {
        assert !ClauseHere(masked, inWord, k + 1);
        WordStartRest(masked, inWord, 1, k + 1);
      }
      KeptTo(s[1..], masked[1..], IsWord(masked[0]), i - 1);
      EndsOnward(masked, inWord, i);
      Onwards(s, 1, i);
      Onwards(masked, 1, i);
      assert s[..i] == [s[0]] + s[1..][..i - 1];
    }
  }

  lemma WithoutFirst(s: Text, masked: Text, inWord: bool)
    requires |s| == |masked| && s != []
    ensures inWord || ClauseLength(masked).None? ==>
              WithoutClauses(s, masked, inWord) == [s[0]] + WithoutClauses(s[1..], masked[1..], IsWord(masked[0]))
    ensures !inWord && ClauseLength(masked).Some? ==>
              var n := ClauseLength(masked).value;
              WithoutClauses(s, masked, inWord) == WithoutClauses(s[n..], masked[n..], IsWord(masked[n - 1]))
  {
    hide ClauseLength;
  }

  /** The clause at a place is left out, and the search goes on after it. */
  predicate TakenAt(s: Text, masked: Text, i: nat, n: nat)
    requires |s| == |masked|
  {
    && 0 < n && i + n <= |s|
    && WithoutClauses(s, masked, false) ==
       s[..i] + WithoutClauses(s[i + n..], masked[i + n..], IsWord(masked[i + n - 1]))
  }

  /** A text without clauses is kept; else it is kept to the first clause, which is left out. */
  lemma TakenOut(s: Text, masked: Text)
    requires |s| == |masked|
    ensures NoneBefore(masked, |masked|) ==> WithoutClauses(s, masked, false) == s
    ensures forall i: nat, n: nat ::
              i < |masked| && OnlineAt(masked, i, n) && NoneBefore(masked, i) ==> TakenAt(s, masked, i, n)
  {
    hide OnlineAt, ClauseLength, WithoutClauses, ClauseHere, TakenAt;
    forall k: nat | k < |masked|
      ensures ClauseHere(masked, false, k) <==> exists n: nat :: OnlineAt(masked, k, n)
    {
      OnlineHere(masked, k);
    }
    if NoneBefore(masked, |masked|) {
      KeptTo(s, masked, false, |s|);
      NothingLeft(s, masked);
    }
    forall i: nat, n: nat | i < |masked| && OnlineAt(masked, i, n) && NoneBefore(masked, i)
      ensures TakenAt(s, masked, i, n)
    {
      TakenFirst(s, masked, i, n);
    }
  }

  lemma NothingLeft(s: Text, masked: Text)
    requires |s| == |masked|
    ensures s[..|s|] + WithoutClauses(s[|s|..], masked[|s|..], EndsInWord(masked[..|s|], false)) == s
  {
  }

  lemma TakenFirst(s: Text, masked: Text, i: nat, n: nat)
    requires |s| == |masked| && i < |masked| && OnlineAt(masked, i, n) && NoneBefore(masked, i)
    ensures TakenAt(s, masked, i, n)
  {
    hide ClauseLength, WithoutClauses, ClauseHere, OnlineAt, EndsInWord;
    forall k: nat | k < i ensures !ClauseHere(masked, false, k) {
      OnlineHere(masked, k);
    }
    KeptTo(s, masked, false, i);
    OnlineHere(masked, i);
    ClauseBounds(masked[i..]);
    OnlineStarts(masked, i, n);
    WithoutFirst(s[i..], masked[i..], EndsInWord(masked[..i], false));
    Onwards(s, i, i + n);
    Onwards(masked, i, i + n);
  }

  lemma ClauseBounds(s: Text)
    ensures ClauseLength(s).Some? ==> 0 < ClauseLength(s).value <= |s|
  {
  }

  lemma OnlineStarts(masked: Text, i: nat, n: nat)
    requires OnlineAt(masked, i, n)
    ensures i <= |masked| && !EndsInWord(masked[..i], false)
  {
    StartsAre(masked, i);
  }

  // ---------- what is built ----------

  /**
   * A change is built exactly for one statement that is an ALTER TABLE without
   * a refused modifier and with a clause to keep, or else a CREATE INDEX with
   * a column list and without a wait.
   */
  lemma ChangesExactly(sql: Text)
    ensures var st := SplitSuffix(sql).statement;
            var shown := Mask(st, STRINGS);
            BuildChange(sql).Alter? <==> OneStatement(sql) && (AlterAccepted(st, shown) || IndexAccepted(st, shown))
  {
    hide SplitSuffix, Warned, Mask, AlterTarget, ChangeIndex, Pieces, StripCreateClauses, TopLevelMask, StartsOnline;
    hide BadModifier, Fields, IgnoreAt, IfExistsAt, WaitTextAt, AlterClauses.Stripped;
    var st := SplitSuffix(sql).statement;
    var shown := Mask(st, STRINGS);
    if AlterTarget(shown).Some? {
      var target := AlterTarget(shown).value;
      ModifierIs(Fields(shown[..target.start]));
      NoneOnlineLeft(st[target.end..]);
    } else if ChangeIndex(shown).Some? {
      WaitsIn(TopLevelMask(StripCreateClauses(st[ChangeIndex(shown).value.end..])));
    }
  }

  /** The ALTER TABLE of a statement can be made a change. */
  ghost predicate AlterAccepted(st: Text, shown: Text)
    requires |shown| == |st|
  {
    && AlterTarget(shown).Some?
    && var target := AlterTarget(shown).value;
    var words, cs := Fields(shown[..target.start]), Pieces(st[target.end..]);
    && (forall i: nat :: !IgnoreAt(words, i) && !IfExistsAt(words, i))
    && exists i :: 0 <= i < |cs| && cs[i].raw != [] && !StartsOnline(cs[i].masked)
  }

  /** The CREATE INDEX of a statement can be made a change. */
  ghost predicate IndexAccepted(st: Text, shown: Text)
    requires |shown| == |st|
  {
    && AlterTarget(shown).None? && ChangeIndex(shown).Some?
    && var tail := StripCreateClauses(st[ChangeIndex(shown).value.end..]);
    && tail != [] && tail[0] == 40
    && forall i: nat :: i < |tail| && WordStarts(TopLevelMask(tail), i) ==> !WaitTextAt(TopLevelMask(tail)[i..])
  }

  lemma WaitsIn(s: Text)
    ensures HasWait(s, false) <==> exists i: nat :: i < |s| && WordStarts(s, i) && WaitTextAt(s[i..])
  {
    hide HasWait, WaitTextAt, WaitsHere, WordStarts, EndsInWord;
    WaitFound(s, false);
    forall i: nat | i < |s| ensures WaitHere(s, false, i) <==> WordStarts(s, i) && WaitTextAt(s[i..]) {
      StartsAre(s, i);
      WaitIs(s[i..]);
    }
  }

  function AddText(definition: Text, tail: Text): Text {
    Ascii("ADD ") + definition + Ascii(" ") + tail
  }

  /** The change that a CREATE INDEX is made: ADD, the definition, and the rest without its clauses. */
  lemma IndexText(st: Text, p: IndexParts)
    requires p.start <= p.nameEnd <= p.end <= |st| && IndexChange(st, p).Alter?
    ensures IndexChange(st, p).text == AddText(Trim(st[p.start..p.nameEnd]), StripCreateClauses(st[p.end..]))
  {
    hide StripCreateClauses, HasWait, Trim, ADD, TopLevelMask, AddText;
    AddTextIs(Trim(st[p.start..p.nameEnd]), StripCreateClauses(st[p.end..]));
  }

  lemma AddTextIs(definition: Text, tail: Text)
    ensures ADD + [SPACE] + definition + [SPACE] + tail == AddText(definition, tail)
  {
    AddBytes();
    hide Ascii, ADD;
  }

  lemma AddBytes()
    ensures ADD + [SPACE] == Ascii("ADD ") && [SPACE] == Ascii(" ")
  {
  }
}
