/**
 * The patterns for the table of an ALTER TABLE or CREATE INDEX statement, as a
 * grammar of words, names and white space.  Of all ways to read a text, the
 * one found has the longest beginning and then the longest table reference.
 */
module TargetGrammar {
  import opened Bytes
  import opened Wrappers
  import opened Identifiers
  import opened DdlTarget
  import opened Quotes

  // ---------- words ----------

  predicate White(b: Byte) {
    b == 9 || b == 10 || b == 12 || b == 13 || b == 32
  }

  /** The white space at a position, all of it, goes to `n`. */
  predicate WhiteTo(s: Text, from: nat, n: nat) {
    from <= n <= |s| && (forall k :: from <= k < n ==> White(s[k])) && (n < |s| ==> !White(s[n]))
  }

  /** A text begins with a word, in any case, and the white space that must follow it. */
  predicate Keyword(s: Text, n: nat, word: Text) {
    |word| < n <= |s| && SameWord(s[..|word|], word) && WhiteTo(s, |word|, n)
  }

  /** Several words in a row. */
  ghost predicate Phrase(s: Text, n: nat, words: seq<Text>)
    decreases |words|
  {
    if words == [] then n == 0
    else exists k: nat :: k <= n <= |s| && Keyword(s, k, words[0]) && Phrase(s[k..], n - k, words[1..])
  }

  lemma WhiteIs(s: Text, from: nat, n: nat)
    requires from <= |s|
    ensures WhiteTo(s, from, n) <==> n == from + Breaks(s[from..])
  {
    var t, m := s[from..], from + Breaks(s[from..]);
    BreaksAre(t);
    assert forall k :: from <= k < |s| ==> s[k] == t[k - from];
    assert n > m && m < |s| ==> !White(s[m]);
  }

  lemma WordIs(s: Text, n: nat, word: Text)
    requires IsKeyword(word)
    ensures Keyword(s, n, word) <==> WordLength(s, word) == Some(n)
  {
    hide UpperText, SameWord, Breaks, WhiteTo;
    if |word| < |s| {
      UpperKeyword(word);
      SameUpper(s[..|word|], word);
      WhiteIs(s, |word|, n);
      NoWhite(s, |word|, n);
    }
  }

  lemma UpperKeyword(word: Text)
    requires IsKeyword(word)
    ensures UpperText(word) == word
  {
  }

  lemma NoWhite(s: Text, from: nat, n: nat)
    requires from < |s|
    ensures WhiteTo(s, from, n) && n > from ==> IsBreak(s[from])
    ensures !IsBreak(s[from]) ==> Breaks(s[from..]) == 0
    ensures IsBreak(s[from]) ==> Breaks(s[from..]) > 0
  {
  }

  lemma {:induction false} PhraseIs(s: Text, n: nat, words: seq<Text>)
    requires AllKeywords(words)
    ensures Phrase(s, n, words) <==> PhraseLength(s, words) == Some(n)
    decreases |words|
  {
    hide Keyword, WordLength, IsKeyword;
    if words != [] {
      var w := WordLength(s, words[0]);
      forall k: nat ensures Keyword(s, k, words[0]) <==> w == Some(k) {
        WordIs(s, k, words[0]);
      }
      if w.Some? {
        if n >= w.value {
          PhraseIs(s[w.value..], n - w.value, words[1..]);
        }
      }
    }
  }

  // ---------- names ----------

  predicate QuotedName(s: Text, n: nat, q: Byte) {
    3 <= n <= |s| && s[0] == q && s[n - 1] == q && Inside(s[1..n - 1], q, false) && (n < |s| ==> s[n] != q)
  }

  predicate NameByte(b: Byte) {
    65 <= b <= 90 || 97 <= b <= 122 || 48 <= b <= 57 || b == 95 || b == 36 || b >= 128
  }

  predicate BareName(s: Text, n: nat) {
    0 < n <= |s| && (forall k :: 0 <= k < n ==> NameByte(s[k])) && (n < |s| ==> !NameByte(s[n]))
  }

  /** A text begins with a name, all of it. */
  predicate NameAt(s: Text, n: nat) {
    QuotedName(s, n, 96) || QuotedName(s, n, 34) || BareName(s, n)
  }

  lemma {:induction false} BodyIs(s: Text, q: Byte, n: nat)
    requires q != BACKSLASH
    ensures BodyLength(s, q) == Some(n) <==>
            1 <= n <= |s| && s[n - 1] == q && Inside(s[..n - 1], q, false) && (n < |s| ==> s[n] != q)
    decreases |s|
  {
    hide Inside;
    NothingInside(q, false);
    if s != [] {
      var k := if s[0] == q && |s| > 1 && s[1] == q then 2 else 1;
      if k < n <= |s| {
        BodyIs(s[k..], q, n - k);
        assert s[..n - 1][k..] == s[k..][..n - 1 - k];
        if s[0] == q && k == 1 {
          OddQuote(s[..n - 1], q);
        } else {
          InsideSteps(s[..n - 1], k, q);
        }
      } else {
        BodyShort(s, q);
        if n == 2 <= |s| {
          InsideOne(q, q, false);
          assert s[..1] == [s[0]];
        } else if n == 1 {
          assert s[..0] == [];
        }
      }
    }
  }

  lemma InsideSteps(s: Text, k: nat, q: Byte)
    requires 1 <= k <= 2 && k <= |s| && q != BACKSLASH
    requires k == 1 ==> s[0] != q
    requires k == 2 ==> s[0] == q && s[1] == q
    ensures Inside(s, q, false) <==> Inside(s[k..], q, false)
  {
    hide Inside;
    if Inside(s, q, false) {
      InsideLess(s, k, q, false);
    }
    if Inside(s[k..], q, false) {
      InsideMore(s, k, q, false);
    }
  }

  lemma OddQuote(s: Text, q: Byte)
    requires s != [] && s[0] == q && q != BACKSLASH && (|s| == 1 || s[1] != q)
    ensures !Inside(s, q, false)
  {
  }

  /** A body that goes on is longer than what it goes on with. */
  lemma BodyShort(s: Text, q: Byte)
    requires s != []
    ensures s[0] != q && BodyLength(s, q).Some? ==> BodyLength(s, q).value > 1
    ensures |s| > 1 && s[0] == q && s[1] == q && BodyLength(s, q).Some? ==> BodyLength(s, q).value > 2
  {
  }

  lemma {:induction false} BareIs(s: Text, n: nat)
    ensures BareName(s, n) <==> n > 0 && BareLength(s) == n
    decreases |s|
  {
    if s != [] && IsBare(s[0]) {
      assert forall k :: 1 <= k < |s| ==> s[k] == s[1..][k - 1];
      if n > 1 {
        BareIs(s[1..], n - 1);
      } else if |s| > 1 {
        BareStarts(s[1..]);
      }
    }
  }

  lemma BareStarts(s: Text)
    requires s != []
    ensures BareLength(s) > 0 <==> NameByte(s[0])
  {
  }

  lemma NameIs(s: Text, n: nat)
    ensures NameAt(s, n) <==> IdentLength(s) == Some(n)
  {
    hide BareName, BodyLength, BareLength, Inside;
    BareIs(s, n);
    if s != [] {
      BareStarts(s);
      if n > 0 && (s[0] == 96 || s[0] == 34) {
        BodyIs(s[1..], s[0], n - 1);
        assert n >= 2 && n <= |s| ==> s[1..][..n - 2] == s[1..n - 1];
      }
    }
    BareNamed(s, n);
  }

  lemma BareNamed(s: Text, n: nat)
    ensures BareName(s, n) ==> s != [] && NameByte(s[0]) && s[0] != 96 && s[0] != 34
  {
  }

  /** A dot with white space around it, all of it. */
  ghost predicate DotAt(s: Text, n: nat) {
    exists k: nat :: WhiteTo(s, 0, k) && k < |s| && s[k] == 46 && WhiteTo(s, k + 1, n)
  }

  lemma DotIs(s: Text, n: nat)
    ensures DotAt(s, n) <==> DotLength(s) == Some(n)
  {
    hide WhiteTo, Breaks;
    assert s[0..] == s;
    forall k: nat ensures WhiteTo(s, 0, k) <==> k == Breaks(s) {
      WhiteIs(s, 0, k);
    }
    if Breaks(s) < |s| {
      WhiteIs(s, Breaks(s) + 1, n);
    }
  }

  /** Two names joined by a dot. */
  ghost predicate DottedAt(s: Text, n: nat) {
    exists k: nat, l: nat :: k <= l <= n <= |s| && NameAt(s, k) && DotAt(s[k..], l - k) && NameAt(s[l..], n - l)
  }

  lemma DottedIs(s: Text, n: nat)
    ensures DottedAt(s, n) <==> QualifiedLength(s) == Some(n)
  {
    hide NameAt, DotAt, IdentLength, DotLength;
    forall k: nat ensures NameAt(s, k) <==> IdentLength(s) == Some(k) {
      NameIs(s, k);
    }
    if IdentLength(s).Some? {
      var k := IdentLength(s).value;
      forall m: nat ensures DotAt(s[k..], m) <==> DotLength(s[k..]) == Some(m) {
        DotIs(s[k..], m);
      }
      if DotLength(s[k..]).Some? {
        var l := k + DotLength(s[k..]).value;
        forall m: nat ensures NameAt(s[l..], m) <==> IdentLength(s[l..]) == Some(m) {
          NameIs(s[l..], m);
        }
        if DottedAt(s, n) {
          DottedParts(s, n, k, l);
        }
      }
    }
  }

  lemma DottedParts(s: Text, n: nat, k: nat, l: nat)
    requires DottedAt(s, n) && k <= l <= |s|
    requires forall m: nat :: NameAt(s, m) ==> m == k
    requires forall m: nat :: DotAt(s[k..], m) ==> m == l - k
    ensures n >= l && NameAt(s[l..], n - l)
  {
    hide NameAt, DotAt;
    var i: nat, j: nat :| i <= j <= n <= |s| && NameAt(s, i) && DotAt(s[i..], j - i) && NameAt(s[j..], n - j);
  }

  predicate EndsAt(s: Text, n: nat, paren: bool) {
    n <= |s| && (n < |s| ==> White(s[n]) || (paren && s[n] == 40))
  }

  /** A table reference: one name, or two joined by a dot, and then white space, the end, or a parenthesis. */
  ghost predicate TableAt(s: Text, n: nat, paren: bool) {
    (NameAt(s, n) || DottedAt(s, n)) && EndsAt(s, n, paren)
  }

  lemma EndsIs(s: Text, n: nat, paren: bool)
    requires n <= |s|
    ensures EndsAt(s, n, paren) <==> Ends(s[n..], paren)
  {
  }

  lemma QualifiedLonger(s: Text)
    ensures QualifiedLength(s).Some? ==> IdentLength(s).Some? && IdentLength(s).value < QualifiedLength(s).value
  {
  }

  /** The reference found is the longest one. */
  lemma TableIs(s: Text, paren: bool)
    ensures ReferenceAt(s, paren).None? ==> forall n: nat :: !TableAt(s, n, paren)
    ensures ReferenceAt(s, paren).Some? ==>
              var span := ReferenceAt(s, paren).value;
              span.start == 0 && TableAt(s, span.end, paren) && forall n: nat :: TableAt(s, n, paren) ==> n <= span.end
  {
    hide NameAt, DottedAt, EndsAt, Ends, IdentLength, QualifiedLength;
    QualifiedLonger(s);
    forall n: nat
      ensures NameAt(s, n) <==> IdentLength(s) == Some(n)
      ensures DottedAt(s, n) <==> QualifiedLength(s) == Some(n)
    {
      NameIs(s, n);
      DottedIs(s, n);
    }
    forall n: nat | n <= |s| ensures EndsAt(s, n, paren) <==> Ends(s[n..], paren) {
      EndsIs(s, n, paren);
    }
  }

  // ---------- ALTER TABLE ----------

  /** At most two of the modifiers ONLINE and IGNORE. */
  predicate Modifiers(words: seq<Text>) {
    |words| <= 2 && forall i :: 0 <= i < |words| ==> words[i] == Ascii("ONLINE") || words[i] == Ascii("IGNORE")
  }

  /** A guard, or none. */
  predicate Guard(words: seq<Text>, guard: seq<Text>) {
    words == [] || words == guard
  }

  ghost predicate AlterWords(words: seq<Text>) {
    exists modifiers: seq<Text>, guard: seq<Text> ::
      && Modifiers(modifiers) && Guard(guard, [Ascii("IF"), Ascii("EXISTS")])
      && words == [Ascii("ALTER")] + modifiers + [Ascii("TABLE")] + guard
  }

  /** A text can be read as an ALTER TABLE of the table at a span. */
  ghost predicate AltersAt(s: Text, start: nat, end: nat) {
    exists i: nat, words: seq<Text> ::
      && AlterWords(words) && WhiteTo(s, 0, i) && i <= start <= end <= |s|
      && Phrase(s[i..], start - i, words) && TableAt(s[start..], end - start, false)
  }

  /** Of two readings, the one whose table begins later, and of two at one place the longer. */
  predicate NotAfter(start: nat, end: nat, span: Span) {
    start < span.start || (start == span.start && end <= span.end)
  }

  lemma PhraseStep(s: Text, words: seq<Text>)
    requires words != []
    ensures PhraseLength(s, words) ==
            var w := WordLength(s, words[0]);
            if w.None? then None else Longer(w.value, PhraseLength(s[w.value..], words[1..]))
  {
    hide WordLength;
  }

  lemma {:induction false} PhraseJoin(s: Text, a: seq<Text>, b: seq<Text>)
    ensures PhraseLength(s, a + b) ==
            var first := PhraseLength(s, a);
            if first.None? then None else Longer(first.value, PhraseLength(s[first.value..], b))
    decreases |a|
  {
    hide WordLength, PhraseLength;
    if a == [] {
      NoWords(s);
      assert a + b == b && s[0..] == s;
    } else {
      PhraseStep(s, a);
      PhraseStep(s, a + b);
      assert (a + b)[1..] == a[1..] + b && (a + b)[0] == a[0];
      var w := WordLength(s, a[0]);
      if w.Some? {
        PhraseJoin(s[w.value..], a[1..], b);
        var rest := PhraseLength(s[w.value..], a[1..]);
        if rest.Some? {
          Onwards(s, w.value, w.value + rest.value);
        }
      }
    }
  }

  lemma Onwards(s: Text, i: nat, j: nat)
    requires i <= j <= |s|
    ensures s[i..][j - i..] == s[j..]
  {
  }

  /** Words after words, by positions. */
  lemma PhraseThen(s: Text, i: nat, a: seq<Text>, b: seq<Text>)
    requires i <= |s|
    ensures var first := PhraseLength(s[i..], a);
            PhraseLength(s[i..], a + b) ==
            if first.None? then None else Longer(first.value, PhraseLength(s[i + first.value..], b))
  {
    hide PhraseLength;
    PhraseJoin(s[i..], a, b);
    var first := PhraseLength(s[i..], a);
    if first.Some? {
      Onwards(s, i, i + first.value);
    }
  }

  lemma OneWord(s: Text, word: Text)
    ensures PhraseLength(s, [word]) == WordLength(s, word)
  {
    var w := WordLength(s, word);
    assert [word][1..] == [];
    if w.Some? {
      NoWords(s[w.value..]);
    }
  }

  lemma NoWords(s: Text)
    ensures PhraseLength(s, []) == Some(0)
  {
  }

  /** A text does not begin with two different words. */
  lemma WordUnique(s: Text, a: Text, b: Text)
    requires IsKeyword(a) && IsKeyword(b) && WordLength(s, a).Some? && WordLength(s, b).Some?
    ensures a == b
  {
    assert |a| < |b| ==> UpperText(s[..|b|])[|a|] == Upper(s[|a|]);
    assert |b| < |a| ==> UpperText(s[..|a|])[|b|] == Upper(s[|b|]);
  }

  lemma AlterKeywords()
    ensures IsKeyword(ALTER) && IsKeyword(ONLINE) && IsKeyword(IGNORE) && IsKeyword(TABLE)
    ensures IsKeyword(IF) && IsKeyword(EXISTS) && TABLE != ONLINE && TABLE != IGNORE && ONLINE != IGNORE
  {
    assert |TABLE| == 5 && |ONLINE| == 6 && |IGNORE| == 6 && ONLINE[0] != IGNORE[0];
  }

  // the guard and the table

  ghost predicate AlteredAt(s: Text, start: nat, end: nat) {
    exists guard: seq<Text> ::
      && Guard(guard, [IF, EXISTS]) && start <= end <= |s|
      && Phrase(s, start, guard) && TableAt(s[start..], end - start, false)
  }

  lemma AlteredIs(s: Text)
    ensures AlteredTable(s).None? ==> forall start: nat, end: nat :: !AlteredAt(s, start, end)
    ensures AlteredTable(s).Some? ==>
              var span := AlteredTable(s).value;
              && AlteredAt(s, span.start, span.end)
              && forall start: nat, end: nat :: AlteredAt(s, start, end) ==> NotAfter(start, end, span)
  {
    hide TableAt, ReferenceAt, PhraseLength, IsKeyword, Phrase;
    AlterKeywords();
    var guard := [IF, EXISTS];
    GuardIs(s);
    var n := Optionally(s, guard);
    TableIs(s, false);
    TableIs(s[n..], false);
    assert s[0..] == s;
    var found := AlteredTable(s);
    forall start: nat, end: nat | AlteredAt(s, start, end)
      ensures found.Some? && NotAfter(start, end, found.value)
    {
      var words: seq<Text> :|
        && Guard(words, guard) && start <= end <= |s|
        && Phrase(s, start, words) && TableAt(s[start..], end - start, false);
      assert start == 0 || start == n;
    }
    if found.Some? {
      var span := found.value;
      if n > 0 && ReferenceAt(s[n..], false).Some? {
        assert Phrase(s, n, guard) && TableAt(s[n..], span.end - n, false) && Guard(guard, guard);
      } else {
        assert Phrase(s, 0, []) && TableAt(s[0..], span.end - 0, false) && Guard([], guard);
      }
    }
  }

  lemma GuardIs(s: Text)
    ensures var n := Optionally(s, [IF, EXISTS]);
            && (forall k: nat :: Phrase(s, k, [IF, EXISTS]) <==> n > 0 && k == n)
            && (forall k: nat :: Phrase(s, k, []) <==> k == 0)
  {
    hide Phrase, PhraseLength, IsKeyword;
    AlterKeywords();
    var guard := [IF, EXISTS];
    forall k: nat
      ensures Phrase(s, k, guard) <==> PhraseLength(s, guard) == Some(k)
      ensures Phrase(s, k, []) <==> PhraseLength(s, []) == Some(k)
    {
      PhraseIs(s, k, guard);
      PhraseIs(s, k, []);
    }
    NoWords(s);
    PhrasePositive(s, guard);
  }

  lemma PhrasePositive(s: Text, words: seq<Text>)
    requires words != []
    ensures PhraseLength(s, words).Some? ==> PhraseLength(s, words).value > 0
  {
  }

  // the modifiers

  lemma ModifierFound(s: Text) returns (words: seq<Text>)
    ensures |words| <= 1 && Modifiers(words) && AllKeywords(words)
    ensures PhraseLength(s, words) == Some(Modifier(s))
  {
    hide WordLength, IsKeyword, PhraseLength;
    AlterKeywords();
    OneWord(s, ONLINE);
    OneWord(s, IGNORE);
    NoWords(s);
    words := if WordLength(s, ONLINE).Some? then [ONLINE] else if WordLength(s, IGNORE).Some? then [IGNORE] else [];
  }

  /** One modifier is read, and none where TABLE stands. */
  lemma ModifierRead(s: Text, words: seq<Text>, more: seq<Text>)
    requires Modifiers(words) && more != [] && more[0] == TABLE && PhraseLength(s, words + more).Some?
    ensures words == [] ==> Modifier(s) == 0
    ensures words != [] ==> WordLength(s, words[0]) == Some(Modifier(s))
    ensures words != [] ==> Modifier(s) <= |s| && PhraseLength(s[Modifier(s)..], words[1..] + more).Some?
  {
    hide WordLength, PhraseLength, Modifier, Ascii;
    var all := words + more;
    PhraseSplits(s, all);
    if words == [] {
      assert all == more;
      ModifierHere(s, TABLE);
    } else {
      assert all[1..] == words[1..] + more && all[0] == words[0];
      ModifierHere(s, words[0]);
    }
  }

  lemma ModifierHere(s: Text, first: Text)
    requires first in [TABLE, ONLINE, IGNORE] && WordLength(s, first).Some?
    ensures if first == TABLE then Modifier(s) == 0 else WordLength(s, first) == Some(Modifier(s))
  {
    hide WordLength, IsKeyword, PhraseLength, Ascii;
    AlterKeywords();
    OneWord(s, IGNORE);
    if WordLength(s, ONLINE).Some? {
      WordUnique(s, ONLINE, first);
    } else if WordLength(s, IGNORE).Some? {
      WordUnique(s, IGNORE, first);
    }
  }

  lemma PhraseSplits(s: Text, words: seq<Text>)
    requires words != [] && PhraseLength(s, words).Some?
    ensures var w := WordLength(s, words[0]);
            && w.Some? && PhraseLength(s[w.value..], words[1..]).Some?
            && PhraseLength(s, words).value == w.value + PhraseLength(s[w.value..], words[1..]).value
  {
  }

  lemma ModifiersRead(s: Text, words: seq<Text>, more: seq<Text>)
    requires Modifiers(words) && more != [] && more[0] == TABLE && PhraseLength(s, words + more).Some?
    ensures var i := Modifier(s); PhraseLength(s, words) == Some(i + Modifier(s[i..]))
  {
    hide WordLength, PhraseLength, Modifier;
    var i := Modifier(s);
    ModifierRead(s, words, more);
    NoWords(s);
    assert s[0..] == s;
    if words != [] {
      var r := s[i..];
      ModifierRead(r, words[1..], more);
      WordsFirst(s, words, i);
      NoWords(r);
      if |words| == 2 {
        WordsFirst(r, words[1..], Modifier(r));
        NoWords(r[Modifier(r)..]);
        assert words[1..][1..] == [];
      } else {
        assert words[1..] == [];
      }
    }
  }

  lemma WordsFirst(s: Text, words: seq<Text>, n: nat)
    requires words != [] && WordLength(s, words[0]) == Some(n)
    ensures PhraseLength(s, words) == Longer(n, PhraseLength(s[n..], words[1..]))
  {
  }

  // the whole statement

  /** Where the guard and the table of an ALTER TABLE begin. */
  function AlterStart(s: Text): (r: Option<nat>)
    ensures r.Some? ==> r.value <= |s|
  {
    var i := Breaks(s);
    var w := WordLength(s[i..], ALTER);
    if w.None? then None else
      var j := i + w.value;
      var k := j + Modifier(s[j..]);
      var l := k + Modifier(s[k..]);
      var x := WordLength(s[l..], TABLE);
      if x.None? then None else Some(l + x.value)
  }

  lemma AlterTableFrom(s: Text, j: nat)
    requires j <= |s|
    ensures var k := j + Modifier(s[j..]);
            var l := k + Modifier(s[k..]);
            var x := WordLength(s[l..], TABLE);
            AlterTable(s[j..]) == if x.None? then None else Shift(l + x.value - j, AlteredTable(s[l + x.value..]))
  {
    hide WordLength, Modifier, AlteredTable, Ascii;
    var k := j + Modifier(s[j..]);
    Onwards(s, j, k);
    var l := k + Modifier(s[k..]);
    Onwards(s, j, l);
    var x := WordLength(s[l..], TABLE);
    if x.Some? {
      Onwards(s, j, l + x.value);
    }
  }

  lemma AlterTargetFrom(s: Text)
    ensures AlterTarget(s) ==
            var n := AlterStart(s); if n.None? then None else Shift(n.value, AlteredTable(s[n.value..]))
  {
    hide WordLength, Modifier, AlteredTable, Breaks, Ascii, AlterTable;
    var i := Breaks(s);
    var w := WordLength(s[i..], ALTER);
    if w.Some? {
      Onwards(s, i, i + w.value);
      AlterTableFrom(s, i + w.value);
    }
  }

  /** From ALTER on: the modifiers are those of the phrase, and what is left of it is the guard. */
  lemma HeadRead(s: Text, i: nat, modifiers: seq<Text>, guard: seq<Text>)
    requires i == Breaks(s) && Modifiers(modifiers)
    requires PhraseLength(s[i..], [ALTER] + modifiers + [TABLE] + guard).Some?
    ensures var n := AlterStart(s);
            && n.Some? && i <= n.value
            && PhraseLength(s[i..], [ALTER] + modifiers + [TABLE] + guard) ==
               Longer(n.value - i, PhraseLength(s[n.value..], guard))
  {
    hide WordLength, Modifier, Breaks, PhraseLength, Modifiers, Ascii;
    var more := [TABLE] + guard;
    assert [ALTER] + modifiers + [TABLE] + guard == [ALTER] + (modifiers + more);
    PhraseThen(s, i, [ALTER], modifiers + more);
    OneWord(s[i..], ALTER);
    var j := i + WordLength(s[i..], ALTER).value;
    ModifiersRead(s[j..], modifiers, more);
    PhraseThen(s, j, modifiers, more);
    var k := j + Modifier(s[j..]);
    Onwards(s, j, k);
    var l := k + Modifier(s[k..]);
    PhraseThen(s, l, [TABLE], guard);
    OneWord(s[l..], TABLE);
  }

  lemma HeadFound(s: Text) returns (modifiers: seq<Text>)
    requires AlterStart(s).Some?
    ensures Modifiers(modifiers) && AllKeywords(modifiers) && Breaks(s) <= AlterStart(s).value
    ensures PhraseLength(s[Breaks(s)..], [ALTER] + modifiers + [TABLE]) == Some(AlterStart(s).value - Breaks(s))
  {
    hide WordLength, Modifier, Breaks, PhraseLength, IsKeyword, Ascii, AllKeywords, Modifiers;
    var i := Breaks(s);
    OneWord(s[i..], ALTER);
    var j := i + WordLength(s[i..], ALTER).value;
    var first := ModifierFound(s[j..]);
    var k := j + Modifier(s[j..]);
    var second := ModifierFound(s[k..]);
    var l := k + Modifier(s[k..]);
    modifiers := first + second;
    ModifiersTwo(first, second);
    OneWord(s[l..], TABLE);
    PhraseThen(s, j, first, second);
    PhraseThen(s, j, modifiers, [TABLE]);
    assert [ALTER] + modifiers + [TABLE] == [ALTER] + (modifiers + [TABLE]);
    PhraseThen(s, i, [ALTER], modifiers + [TABLE]);
  }

  lemma ModifiersTwo(a: seq<Text>, b: seq<Text>)
    requires Modifiers(a) && Modifiers(b) && |a| <= 1 && |b| <= 1 && AllKeywords(a) && AllKeywords(b)
    ensures Modifiers(a + b) && AllKeywords(a + b)
  {
  }

  lemma AltersFrom(s: Text, start: nat, end: nat)
    requires AltersAt(s, start, end)
    ensures AlterStart(s).Some? && AlterStart(s).value <= start <= end
    ensures AlteredAt(s[AlterStart(s).value..], start - AlterStart(s).value, end - AlterStart(s).value)
  {
    hide PhraseLength, Phrase, AlterStart, TableAt, IsKeyword, WhiteTo, Modifiers;
    AlterKeywords();
    var i: nat, words: seq<Text> :|
      && AlterWords(words) && WhiteTo(s, 0, i) && i <= start <= end <= |s|
      && Phrase(s[i..], start - i, words) && TableAt(s[start..], end - start, false);
    var modifiers: seq<Text>, guard: seq<Text> :|
      && Modifiers(modifiers) && Guard(guard, [Ascii("IF"), Ascii("EXISTS")])
      && words == [Ascii("ALTER")] + modifiers + [Ascii("TABLE")] + guard;
    ModifierKeywords(modifiers);
    WhiteIs(s, 0, i);
    assert s[0..] == s;
    PhraseIs(s[i..], start - i, words);
    HeadRead(s, i, modifiers, guard);
    var n := AlterStart(s).value;
    PhraseIs(s[n..], start - n, guard);
    assert s[n..][start - n..] == s[start..];
  }

  lemma ModifierKeywords(words: seq<Text>)
    requires Modifiers(words)
    ensures AllKeywords(words)
  {
    AlterKeywords();
  }

  lemma AltersBack(s: Text, start: nat, end: nat)
    requires AlterStart(s).Some? && AlterStart(s).value <= start <= end
    requires AlteredAt(s[AlterStart(s).value..], start - AlterStart(s).value, end - AlterStart(s).value)
    ensures AltersAt(s, start, end)
  {
    hide PhraseLength, Phrase, AlterStart, TableAt, IsKeyword, WhiteTo, Modifiers, AltersAt, Ascii, AllKeywords;
    var n, i := AlterStart(s).value, Breaks(s);
    var guard: seq<Text> :|
      && Guard(guard, [IF, EXISTS]) && start - n <= end - n <= |s[n..]|
      && Phrase(s[n..], start - n, guard) && TableAt(s[n..][start - n..], end - start, false);
    var modifiers := HeadFound(s);
    Onwards(s, n, start);
    AlterPhrase(s, n, start, modifiers, guard);
    AlterMade(s, i, start, end, modifiers, guard);
  }

  lemma AlterPhrase(s: Text, n: nat, start: nat, modifiers: seq<Text>, guard: seq<Text>)
    requires Breaks(s) <= n <= start <= |s| && Guard(guard, [IF, EXISTS]) && AllKeywords(modifiers)
    requires PhraseLength(s[Breaks(s)..], [ALTER] + modifiers + [TABLE]) == Some(n - Breaks(s))
    requires Phrase(s[n..], start - n, guard)
    ensures Phrase(s[Breaks(s)..], start - Breaks(s), [ALTER] + modifiers + [TABLE] + guard)
  {
    hide PhraseLength, Phrase, IsKeyword, Breaks, Ascii;
    AlterKeywords();
    var i, head := Breaks(s), [ALTER] + modifiers + [TABLE];
    PhraseIs(s[n..], start - n, guard);
    PhraseThen(s, i, head, guard);
    PhraseIs(s[i..], start - i, head + guard);
  }

  lemma AlterMade(s: Text, i: nat, start: nat, end: nat, modifiers: seq<Text>, guard: seq<Text>)
    requires i == Breaks(s) && i <= start <= end <= |s| && Modifiers(modifiers) && Guard(guard, [IF, EXISTS])
    requires Phrase(s[i..], start - i, [ALTER] + modifiers + [TABLE] + guard)
    requires TableAt(s[start..], end - start, false)
    ensures AltersAt(s, start, end)
  {
    hide Phrase, TableAt, WhiteTo, Modifiers, Breaks, Ascii;
    WhiteIs(s, 0, i);
    assert s[0..] == s;
    assert AlterWords([ALTER] + modifiers + [TABLE] + guard);
  }

  /** The table an ALTER TABLE names, exactly. */
  lemma AlterFound(s: Text)
    ensures AlterTarget(s).None? ==> forall start: nat, end: nat :: !AltersAt(s, start, end)
    ensures AlterTarget(s).Some? ==>
              var span := AlterTarget(s).value;
              && AltersAt(s, span.start, span.end)
              && forall start: nat, end: nat :: AltersAt(s, start, end) ==> NotAfter(start, end, span)
  {
    hide AlterStart, AltersAt, AlteredAt, AlteredTable, AlterTarget;
    AlterTargetFrom(s);
    var n := AlterStart(s);
    if n.Some? {
      AlteredIs(s[n.value..]);
    }
    if AlterTarget(s).Some? {
      AltersBack(s, AlterTarget(s).value.start, AlterTarget(s).value.end);
    }
    forall start: nat, end: nat | AltersAt(s, start, end)
      ensures AlterTarget(s).Some? && NotAfter(start, end, AlterTarget(s).value)
    {
      AltersFrom(s, start, end);
    }
  }

  // ---------- CREATE INDEX ----------

  /** At most one kind of index. */
  predicate Kind(words: seq<Text>) {
    || words == []
    || words == [Ascii("UNIQUE")] || words == [Ascii("FULLTEXT")] || words == [Ascii("SPATIAL")]
  }

  /** A method, or none. */
  predicate Method(words: seq<Text>) {
    || words == []
    || words == [Ascii("USING"), Ascii("BTREE")] || words == [Ascii("USING"), Ascii("HASH")]
    || words == [Ascii("USING"), Ascii("RTREE")]
  }

  ghost predicate CreateWords(words: seq<Text>) {
    exists replace: seq<Text>, kind: seq<Text>, guard: seq<Text> ::
      && Guard(replace, [Ascii("OR"), Ascii("REPLACE")]) && Kind(kind)
      && Guard(guard, [Ascii("IF"), Ascii("NOT"), Ascii("EXISTS")])
      && words == [Ascii("CREATE")] + replace + kind + [Ascii("INDEX")] + guard
  }

  /** A method, ON and the table. */
  ghost predicate IndexedAt(s: Text, start: nat, end: nat) {
    exists using: seq<Text> ::
      && Method(using) && start <= end <= |s|
      && Phrase(s, start, using + [Ascii("ON")]) && TableAt(s[start..], end - start, true)
  }

  /** An index name with white space after it, and the rest. */
  ghost predicate NamedAt(s: Text, start: nat, end: nat) {
    exists k: nat, l: nat ::
      && NameAt(s, k) && k < l <= start <= end <= |s| && WhiteTo(s, k, l) && IndexedAt(s[l..], start - l, end - l)
  }

  /** A text can be read as a CREATE INDEX on the table at a span. */
  ghost predicate CreatesAt(s: Text, start: nat, end: nat) {
    exists i: nat, j: nat, words: seq<Text> ::
      && CreateWords(words) && WhiteTo(s, 0, i) && i <= j <= start <= end <= |s|
      && Phrase(s[i..], j - i, words) && NamedAt(s[j..], start - j, end - j)
  }

  lemma CreateKeywords()
    ensures IsKeyword(CREATE) && IsKeyword(OR) && IsKeyword(REPLACE) && IsKeyword(INDEX)
    ensures IsKeyword(UNIQUE) && IsKeyword(FULLTEXT) && IsKeyword(SPATIAL)
  {
  }

  lemma GuardKeywords()
    ensures IsKeyword(IF) && IsKeyword(NOT) && IsKeyword(EXISTS)
  {
  }

  lemma UsingKeywords()
    ensures IsKeyword(USING) && IsKeyword(BTREE) && IsKeyword(HASH_METHOD) && IsKeyword(RTREE) && IsKeyword(ON)
  {
  }

  lemma CreateDistinct()
    ensures UNIQUE != FULLTEXT && UNIQUE != SPATIAL && FULLTEXT != SPATIAL
    ensures INDEX != UNIQUE && INDEX != FULLTEXT && INDEX != SPATIAL && INDEX != OR
    ensures UNIQUE != OR && FULLTEXT != OR && SPATIAL != OR
    ensures USING != ON && USING != NOT && ON != NOT && BTREE != HASH_METHOD && BTREE != RTREE && HASH_METHOD != RTREE
  {
    assert |UNIQUE| == 6 && |FULLTEXT| == 8 && |SPATIAL| == 7 && |INDEX| == 5 && |OR| == 2 && |USING| == 5;
    assert |ON| == 2 && |NOT| == 3 && |BTREE| == 5 && |HASH_METHOD| == 4 && |RTREE| == 5 && BTREE[0] != RTREE[0];
  }

  // the method and the table

  /** The first two words of a text are one phrase only. */
  lemma PhraseUnique(s: Text, word: Text, a: Text, b: Text)
    requires IsKeyword(word) && IsKeyword(a) && IsKeyword(b)
    requires PhraseLength(s, [word, a]).Some? && PhraseLength(s, [word, b]).Some?
    ensures a == b
  {
    hide WordLength, IsKeyword, PhraseLength;
    PhraseSplits(s, [word, a]);
    PhraseSplits(s, [word, b]);
    assert [word, a][1..] == [a] && [word, b][1..] == [b];
    var r := s[WordLength(s, word).value..];
    OneWord(r, a);
    OneWord(r, b);
    WordUnique(r, a, b);
  }

  lemma MethodRead(s: Text, using: seq<Text>)
    requires Method(using) && PhraseLength(s, using + [ON]).Some?
    ensures PhraseLength(s, using) == Some(IndexMethod(s))
  {
    hide WordLength, PhraseLength, IsKeyword;
    UsingKeywords();
    CreateDistinct();
    PhraseJoin(s, using, [ON]);
    NoWords(s);
    var on := using + [ON];
    PhraseSplits(s, on);
    if using == [] {
      NoMethod(s);
    } else {
      SomeMethod(s, using);
    }
  }

  lemma NoMethod(s: Text)
    requires WordLength(s, ON).Some?
    ensures IndexMethod(s) == 0
  {
    hide WordLength, PhraseLength, IsKeyword;
    UsingKeywords();
    CreateDistinct();
    if WordLength(s, USING).Some? {
      WordUnique(s, USING, ON);
    }
    NotPhrase(s, [USING, BTREE]);
    NotPhrase(s, [USING, HASH_METHOD]);
    NotPhrase(s, [USING, RTREE]);
  }

  lemma NotPhrase(s: Text, words: seq<Text>)
    requires words != [] && WordLength(s, words[0]).None?
    ensures PhraseLength(s, words).None?
  {
  }

  lemma SomeMethod(s: Text, using: seq<Text>)
    requires Method(using) && using != [] && PhraseLength(s, using).Some?
    ensures PhraseLength(s, using) == Some(IndexMethod(s))
  {
    hide WordLength, PhraseLength, IsKeyword;
    UsingKeywords();
    CreateDistinct();
    if PhraseLength(s, [USING, BTREE]).Some? {
      PhraseUnique(s, USING, BTREE, using[1]);
    } else if PhraseLength(s, [USING, HASH_METHOD]).Some? {
      PhraseUnique(s, USING, HASH_METHOD, using[1]);
    }
  }

  lemma MethodFound(s: Text) returns (using: seq<Text>)
    ensures Method(using) && AllKeywords(using) && PhraseLength(s, using) == Some(IndexMethod(s))
  {
    hide WordLength, PhraseLength, IsKeyword;
    UsingKeywords();
    NoWords(s);
    using := if PhraseLength(s, [USING, BTREE]).Some? then [USING, BTREE]
              else if PhraseLength(s, [USING, HASH_METHOD]).Some? then [USING, HASH_METHOD]
              else if PhraseLength(s, [USING, RTREE]).Some? then [USING, RTREE]
              else [];
  }

  lemma MethodKeywords(using: seq<Text>)
    requires Method(using)
    ensures AllKeywords(using + [ON])
  {
    UsingKeywords();
  }

  lemma IndexedIs(s: Text)
    ensures IndexTable(s).None? ==> forall start: nat, end: nat :: !IndexedAt(s, start, end)
    ensures IndexTable(s).Some? ==>
              var span := IndexTable(s).value;
              && IndexedAt(s, span.start, span.end)
              && forall start: nat, end: nat :: IndexedAt(s, start, end) ==> NotAfter(start, end, span)
  {
    hide TableAt, ReferenceAt, PhraseLength, IsKeyword, Phrase, IndexMethod, WordLength, Method;
    var i := IndexMethod(s);
    var w := WordLength(s[i..], ON);
    OneWord(s[i..], ON);
    var found := IndexTable(s);
    if w.Some? {
      var n := i + w.value;
      assert s[i..][w.value..] == s[n..];
      TableIs(s[n..], true);
      if found.Some? {
        var using := MethodFound(s);
        PhraseJoin(s, using, [ON]);
        MethodKeywords(using);
        PhraseIs(s, n, using + [ON]);
      }
    }
    forall start: nat, end: nat | IndexedAt(s, start, end)
      ensures found.Some? && NotAfter(start, end, found.value)
    {
      IndexedRead(s, start, end);
    }
  }

  lemma IndexedRead(s: Text, start: nat, end: nat)
    requires IndexedAt(s, start, end)
    ensures var i := IndexMethod(s);
            var w := WordLength(s[i..], ON);
            w.Some? && start == i + w.value && start <= end <= |s| && TableAt(s[start..], end - start, true)
  {
    hide TableAt, PhraseLength, IsKeyword, Phrase, IndexMethod, WordLength, Method;
    var using: seq<Text> :|
      && Method(using) && start <= end <= |s|
      && Phrase(s, start, using + [Ascii("ON")]) && TableAt(s[start..], end - start, true);
    MethodKeywords(using);
    PhraseIs(s, start, using + [ON]);
    MethodRead(s, using);
    PhraseJoin(s, using, [ON]);
    OneWord(s[IndexMethod(s)..], ON);
  }

  // the name

  lemma IndexNameIs(s: Text)
    ensures IndexName(s).None? ==> forall start: nat, end: nat :: !NamedAt(s, start, end)
    ensures IndexName(s).Some? ==>
              var span := IndexName(s).value;
              && NamedAt(s, span.start, span.end)
              && forall start: nat, end: nat :: NamedAt(s, start, end) ==> NotAfter(start, end, span)
  {
    hide NameAt, IdentLength, IndexedAt, IndexTable, WhiteTo;
    var found := IndexName(s);
    if IdentLength(s).Some? {
      var k := IdentLength(s).value;
      NameIs(s, k);
      var l := k + Breaks(s[k..]);
      WhiteIs(s, k, l);
      IndexedIs(s[l..]);
      if found.Some? {
        assert NameAt(s, k) && WhiteTo(s, k, l);
      }
    }
    forall start: nat, end: nat | NamedAt(s, start, end)
      ensures found.Some? && NotAfter(start, end, found.value)
    {
      NamedRead(s, start, end);
    }
  }

  lemma NamedRead(s: Text, start: nat, end: nat)
    requires NamedAt(s, start, end)
    ensures IdentLength(s).Some?
    ensures var k := IdentLength(s).value;
            var l := k + Breaks(s[k..]);
            k < l <= start <= end && IndexedAt(s[l..], start - l, end - l)
  {
    hide NameAt, IdentLength, IndexedAt, WhiteTo, Breaks;
    var k: nat, l: nat :|
      && NameAt(s, k) && k < l <= start <= end <= |s| && WhiteTo(s, k, l) && IndexedAt(s[l..], start - l, end - l);
    NameIs(s, k);
    WhiteIs(s, k, l);
  }

  // the guard

  ghost predicate GuardedAt(s: Text, start: nat, end: nat) {
    exists guard: seq<Text>, n: nat ::
      && Guard(guard, [IF, NOT, EXISTS]) && n <= start <= end <= |s|
      && Phrase(s, n, guard) && NamedAt(s[n..], start - n, end - n)
  }

  lemma NamedIndexIs(s: Text)
    ensures NamedIndex(s).None? ==> forall start: nat, end: nat :: !GuardedAt(s, start, end)
    ensures NamedIndex(s).Some? ==>
              var span := NamedIndex(s).value;
              && GuardedAt(s, span.start, span.end)
              && forall start: nat, end: nat :: GuardedAt(s, start, end) ==> NotAfter(start, end, span)
  {
    hide NamedAt, IndexName, PhraseLength, IsKeyword, Phrase;
    GuardKeywords();
    var guard := [IF, NOT, EXISTS];
    var n := Optionally(s, guard);
    IndexNameIs(s[n..]);
    var found := NamedIndex(s);
    NoWords(s);
    PhraseIs(s, n, guard);
    PhraseIs(s, 0, []);
    if found.Some? {
      var span := found.value;
      var words := if PhraseLength(s, guard).Some? then guard else [];
      assert Guard(words, guard) && Phrase(s, n, words) && NamedAt(s[n..], span.start - n, span.end - n);
    }
    forall start: nat, end: nat | GuardedAt(s, start, end)
      ensures found.Some? && NotAfter(start, end, found.value)
    {
      GuardedRead(s, start, end);
    }
  }

  lemma GuardedRead(s: Text, start: nat, end: nat)
    requires GuardedAt(s, start, end)
    ensures var n := Optionally(s, [IF, NOT, EXISTS]); n <= start <= end && NamedAt(s[n..], start - n, end - n)
  {
    hide NamedAt, IndexName, PhraseLength, IsKeyword, Phrase;
    GuardKeywords();
    var words: seq<Text>, n: nat :|
      && Guard(words, [IF, NOT, EXISTS]) && n <= start <= end <= |s|
      && Phrase(s, n, words) && NamedAt(s[n..], start - n, end - n);
    PhraseIs(s, n, words);
    NoWords(s);
    if words == [] && PhraseLength(s, [IF, NOT, EXISTS]).Some? {
      assert s[0..] == s;
      NotNamed(s, start, end);
    }
  }

  /** An index is not named IF when NOT follows. */
  lemma NotNamed(s: Text, start: nat, end: nat)
    requires PhraseLength(s, [IF, NOT, EXISTS]).Some?
    ensures !NamedAt(s, start, end)
  {
    hide NamedAt, PhraseLength, WordLength, IndexMethod, IndexedAt, Ascii, TableAt;
    NotFollows(s);
    IfIsName(s);
    if NamedAt(s, start, end) {
      var l := WordLength(s, IF).value;
      NamedRead(s, start, end);
      IndexedRead(s[l..], start - l, end - l);
      NotMethod(s[l..]);
    }
  }

  lemma NotFollows(s: Text)
    requires PhraseLength(s, [IF, NOT, EXISTS]).Some?
    ensures WordLength(s, IF).Some? && WordLength(s[WordLength(s, IF).value..], NOT).Some?
  {
    hide PhraseLength, WordLength, Ascii;
    PhraseSplits(s, [IF, NOT, EXISTS]);
    assert [IF, NOT, EXISTS][1..] == [NOT, EXISTS];
    PhraseSplits(s[WordLength(s, IF).value..], [NOT, EXISTS]);
  }

  lemma IfIsName(s: Text)
    requires WordLength(s, IF).Some?
    ensures IdentLength(s) == Some(2) && WordLength(s, IF) == Some(2 + Breaks(s[2..]))
  {
    assert UpperText(s[..2])[0] == Upper(s[0]) && UpperText(s[..2])[1] == Upper(s[1]);
    assert IsBare(s[0]) && IsBare(s[1]) && !IsBare(s[2]);
    BareIs(s, 2);
  }

  lemma NotMethod(s: Text)
    requires WordLength(s, NOT).Some?
    ensures IndexMethod(s) == 0 && WordLength(s[0..], ON).None?
  {
    hide WordLength, PhraseLength, IsKeyword;
    GuardKeywords();
    UsingKeywords();
    CreateDistinct();
    assert s[0..] == s;
    if WordLength(s, USING).Some? {
      WordUnique(s, USING, NOT);
    }
    if WordLength(s, ON).Some? {
      WordUnique(s, ON, NOT);
    }
    NotPhrase(s, [USING, BTREE]);
    NotPhrase(s, [USING, HASH_METHOD]);
    NotPhrase(s, [USING, RTREE]);
  }

  // the whole statement

  /** Where the guard and the index name of a CREATE INDEX begin. */
  function CreateStart(s: Text): (r: Option<nat>)
    ensures r.Some? ==> r.value <= |s|
  {
    var i := Breaks(s);
    var w := WordLength(s[i..], CREATE);
    if w.None? then None else
      var j := i + w.value;
      var k := j + Optionally(s[j..], [OR, REPLACE]);
      var l := k + IndexKind(s[k..]);
      var x := WordLength(s[l..], INDEX);
      if x.None? then None else Some(l + x.value)
  }

  lemma CreateIndexFrom(s: Text, j: nat)
    requires j <= |s|
    ensures var k := j + Optionally(s[j..], [OR, REPLACE]);
            var l := k + IndexKind(s[k..]);
            var x := WordLength(s[l..], INDEX);
            CreateIndex(s[j..]) == if x.None? then None else Shift(l + x.value - j, NamedIndex(s[l + x.value..]))
  {
    hide WordLength, Optionally, IndexKind, NamedIndex, Ascii;
    var k := j + Optionally(s[j..], [OR, REPLACE]);
    Onwards(s, j, k);
    var l := k + IndexKind(s[k..]);
    Onwards(s, j, l);
    var x := WordLength(s[l..], INDEX);
    if x.Some? {
      Onwards(s, j, l + x.value);
    }
  }

  lemma CreateTargetFrom(s: Text)
    ensures CreateTarget(s) ==
            var n := CreateStart(s); if n.None? then None else Shift(n.value, NamedIndex(s[n.value..]))
  {
    hide WordLength, Optionally, IndexKind, NamedIndex, Breaks, Ascii, CreateIndex;
    var i := Breaks(s);
    var w := WordLength(s[i..], CREATE);
    if w.Some? {
      Onwards(s, i, i + w.value);
      CreateIndexFrom(s, i + w.value);
    }
  }

  /** OR REPLACE is read where it stands. */
  lemma ReplaceRead(s: Text, replace: seq<Text>, kind: seq<Text>, more: seq<Text>)
    requires Guard(replace, [OR, REPLACE]) && Kind(kind) && more != [] && more[0] == INDEX
    requires PhraseLength(s, replace + (kind + more)).Some?
    ensures PhraseLength(s, replace) == Some(Optionally(s, [OR, REPLACE]))
  {
    hide WordLength, IsKeyword, PhraseLength, Ascii;
    CreateKeywords();
    CreateDistinct();
    NoWords(s);
    PhraseJoin(s, replace, kind + more);
    var all := replace + (kind + more);
    PhraseSplits(s, all);
    if replace == [] {
      KindOrIndex(kind, more);
      assert all == kind + more;
      if WordLength(s, OR).Some? {
        WordUnique(s, OR, all[0]);
      }
      NotPhrase(s, [OR, REPLACE]);
    }
  }

  lemma KindOrIndex(kind: seq<Text>, more: seq<Text>)
    requires Kind(kind) && more != [] && more[0] == INDEX
    ensures (kind + more)[0] in [UNIQUE, FULLTEXT, SPATIAL, INDEX]
    ensures kind == [] ==> (kind + more)[0] == INDEX
  {
    hide Ascii;
  }

  /** The kind of index is read where it stands. */
  lemma KindRead(s: Text, kind: seq<Text>, more: seq<Text>)
    requires Kind(kind) && more != [] && more[0] == INDEX && PhraseLength(s, kind + more).Some?
    ensures PhraseLength(s, kind) == Some(IndexKind(s))
  {
    hide WordLength, IsKeyword, PhraseLength, Ascii;
    CreateKeywords();
    CreateDistinct();
    NoWords(s);
    OneWord(s, UNIQUE);
    OneWord(s, FULLTEXT);
    OneWord(s, SPATIAL);
    var first := (kind + more)[0];
    PhraseSplits(s, kind + more);
    if WordLength(s, UNIQUE).Some? {
      WordUnique(s, UNIQUE, first);
    } else if WordLength(s, FULLTEXT).Some? {
      WordUnique(s, FULLTEXT, first);
    } else if WordLength(s, SPATIAL).Some? {
      WordUnique(s, SPATIAL, first);
    }
  }

  /** From CREATE on. */
  lemma CreateRead(s: Text, i: nat, replace: seq<Text>, kind: seq<Text>, guard: seq<Text>)
    requires i == Breaks(s) && Guard(replace, [OR, REPLACE]) && Kind(kind)
    requires PhraseLength(s[i..], [CREATE] + replace + kind + [INDEX] + guard).Some?
    ensures var n := CreateStart(s);
            && n.Some? && i <= n.value
            && PhraseLength(s[i..], [CREATE] + replace + kind + [INDEX] + guard) ==
               Longer(n.value - i, PhraseLength(s[n.value..], guard))
  {
    hide WordLength, Optionally, IndexKind, Breaks, PhraseLength, Guard, Kind, Ascii;
    var more := [INDEX] + guard;
    var rest := replace + (kind + more);
    assert [CREATE] + replace + kind + [INDEX] + guard == [CREATE] + rest;
    PhraseThen(s, i, [CREATE], rest);
    OneWord(s[i..], CREATE);
    var j := i + WordLength(s[i..], CREATE).value;
    ReplaceRead(s[j..], replace, kind, more);
    PhraseThen(s, j, replace, kind + more);
    var k := j + Optionally(s[j..], [OR, REPLACE]);
    KindRead(s[k..], kind, more);
    PhraseThen(s, k, kind, more);
    var l := k + IndexKind(s[k..]);
    PhraseThen(s, l, [INDEX], guard);
    OneWord(s[l..], INDEX);
  }

  lemma KindFound(s: Text) returns (kind: seq<Text>)
    ensures Kind(kind) && AllKeywords(kind) && PhraseLength(s, kind) == Some(IndexKind(s))
  {
    hide WordLength, IsKeyword, PhraseLength;
    CreateKeywords();
    NoWords(s);
    OneWord(s, UNIQUE);
    OneWord(s, FULLTEXT);
    OneWord(s, SPATIAL);
    kind := if WordLength(s, UNIQUE).Some? then [UNIQUE]
            else if WordLength(s, FULLTEXT).Some? then [FULLTEXT]
            else if WordLength(s, SPATIAL).Some? then [SPATIAL]
            else [];
  }

  lemma ReplaceFound(s: Text) returns (replace: seq<Text>)
    ensures Guard(replace, [OR, REPLACE]) && AllKeywords(replace)
    ensures PhraseLength(s, replace) == Some(Optionally(s, [OR, REPLACE]))
  {
    hide IsKeyword, PhraseLength;
    CreateKeywords();
    NoWords(s);
    replace := if PhraseLength(s, [OR, REPLACE]).Some? then [OR, REPLACE] else [];
  }

  lemma CreateWordsFound(s: Text) returns (replace: seq<Text>, kind: seq<Text>)
    requires CreateStart(s).Some?
    ensures Guard(replace, [OR, REPLACE]) && Kind(kind) && Breaks(s) <= CreateStart(s).value
    ensures AllKeywords([CREATE] + replace + kind + [INDEX])
    ensures PhraseLength(s[Breaks(s)..], [CREATE] + replace + kind + [INDEX]) == Some(CreateStart(s).value - Breaks(s))
  {
    hide WordLength, Optionally, IndexKind, Breaks, PhraseLength, Guard, Kind, Ascii, IsKeyword;
    CreateKeywords();
    var i := Breaks(s);
    OneWord(s[i..], CREATE);
    var j := i + WordLength(s[i..], CREATE).value;
    replace := ReplaceFound(s[j..]);
    var k := j + Optionally(s[j..], [OR, REPLACE]);
    kind := KindFound(s[k..]);
    var l := k + IndexKind(s[k..]);
    OneWord(s[l..], INDEX);
    PhraseThen(s, k, kind, [INDEX]);
    var rest := replace + (kind + [INDEX]);
    PhraseThen(s, j, replace, kind + [INDEX]);
    PhraseThen(s, i, [CREATE], rest);
    assert [CREATE] + replace + kind + [INDEX] == [CREATE] + rest;
  }

  lemma CreatesFrom(s: Text, start: nat, end: nat)
    requires CreatesAt(s, start, end)
    ensures CreateStart(s).Some? && CreateStart(s).value <= start <= end
    ensures GuardedAt(s[CreateStart(s).value..], start - CreateStart(s).value, end - CreateStart(s).value)
  {
    hide PhraseLength, Phrase, CreateStart, NamedAt, IsKeyword, WhiteTo, Kind, Breaks, Guard, Ascii, AllKeywords;
    var i: nat, j: nat, words: seq<Text> :|
      && CreateWords(words) && WhiteTo(s, 0, i) && i <= j <= start <= end <= |s|
      && Phrase(s[i..], j - i, words) && NamedAt(s[j..], start - j, end - j);
    var replace: seq<Text>, kind: seq<Text>, guard: seq<Text> :|
      && Guard(replace, [Ascii("OR"), Ascii("REPLACE")]) && Kind(kind)
      && Guard(guard, [Ascii("IF"), Ascii("NOT"), Ascii("EXISTS")])
      && words == [Ascii("CREATE")] + replace + kind + [Ascii("INDEX")] + guard;
    CreatePartsRead(s, i, j, replace, kind, guard);
    Onwards(s, CreateStart(s).value, j);
  }

  lemma CreatePartsRead(s: Text, i: nat, j: nat, replace: seq<Text>, kind: seq<Text>, guard: seq<Text>)
    requires WhiteTo(s, 0, i) && i <= j <= |s|
    requires Guard(replace, [OR, REPLACE]) && Kind(kind) && Guard(guard, [IF, NOT, EXISTS])
    requires Phrase(s[i..], j - i, [CREATE] + replace + kind + [INDEX] + guard)
    ensures var n := CreateStart(s); n.Some? && i <= n.value <= j && Phrase(s[n.value..], j - n.value, guard)
  {
    hide PhraseLength, Phrase, CreateStart, IsKeyword, WhiteTo, Kind, Breaks, Guard, Ascii, AllKeywords;
    CreateWordsAre(replace, kind, guard);
    WhiteIs(s, 0, i);
    assert s[0..] == s;
    PhraseIs(s[i..], j - i, [CREATE] + replace + kind + [INDEX] + guard);
    CreateRead(s, i, replace, kind, guard);
    var n := CreateStart(s).value;
    PhraseIs(s[n..], j - n, guard);
  }

  lemma CreateWordsAre(replace: seq<Text>, kind: seq<Text>, guard: seq<Text>)
    requires Guard(replace, [OR, REPLACE]) && Kind(kind) && Guard(guard, [IF, NOT, EXISTS])
    ensures AllKeywords(guard) && AllKeywords([CREATE] + replace + kind + [INDEX] + guard)
  {
    hide IsKeyword;
    CreateKeywords();
    GuardKeywords();
  }

  lemma CreatesBack(s: Text, start: nat, end: nat)
    requires CreateStart(s).Some? && CreateStart(s).value <= start <= end
    requires GuardedAt(s[CreateStart(s).value..], start - CreateStart(s).value, end - CreateStart(s).value)
    ensures CreatesAt(s, start, end)
  {
    hide PhraseLength, Phrase, CreateStart, NamedAt, IsKeyword, Kind, CreatesAt, Ascii, AllKeywords, Breaks;
    var n := CreateStart(s).value;
    var guard: seq<Text>, m: nat :|
      && Guard(guard, [IF, NOT, EXISTS]) && m <= start - n <= end - n <= |s[n..]|
      && Phrase(s[n..], m, guard) && NamedAt(s[n..][m..], start - n - m, end - n - m);
    var replace, kind := CreateWordsFound(s);
    Onwards(s, n, n + m);
    CreatePhrase(s, n, n + m, replace, kind, guard);
    CreateMade(s, n + m, start, end, replace, kind, guard);
  }

  lemma CreatePhrase(s: Text, n: nat, j: nat, replace: seq<Text>, kind: seq<Text>, guard: seq<Text>)
    requires Breaks(s) <= n <= j <= |s|
    requires Guard(replace, [OR, REPLACE]) && Kind(kind) && Guard(guard, [IF, NOT, EXISTS])
    requires PhraseLength(s[Breaks(s)..], [CREATE] + replace + kind + [INDEX]) == Some(n - Breaks(s))
    requires Phrase(s[n..], j - n, guard)
    ensures Phrase(s[Breaks(s)..], j - Breaks(s), [CREATE] + replace + kind + [INDEX] + guard)
  {
    hide PhraseLength, Phrase, Breaks, Ascii, Kind, Guard;
    var i, head := Breaks(s), [CREATE] + replace + kind + [INDEX];
    CreateWordsAre(replace, kind, guard);
    hide AllKeywords;
    PhraseIs(s[n..], j - n, guard);
    PhraseThen(s, i, head, guard);
    PhraseIs(s[i..], j - i, head + guard);
  }

  lemma CreateMade(
    s: Text, j: nat, start: nat, end: nat, replace: seq<Text>, kind: seq<Text>, guard: seq<Text>)
    requires Breaks(s) <= j <= start <= end <= |s|
    requires Guard(replace, [OR, REPLACE]) && Kind(kind) && Guard(guard, [IF, NOT, EXISTS])
    requires Phrase(s[Breaks(s)..], j - Breaks(s), [CREATE] + replace + kind + [INDEX] + guard)
    requires NamedAt(s[j..], start - j, end - j)
    ensures CreatesAt(s, start, end)
  {
    hide Phrase, NamedAt, WhiteTo, Kind, Guard, Breaks, Ascii;
    WhiteIs(s, 0, Breaks(s));
    assert s[0..] == s;
    assert CreateWords([CREATE] + replace + kind + [INDEX] + guard);
  }

  /** The table a CREATE INDEX names, exactly. */
  lemma CreateFound(s: Text)
    ensures CreateTarget(s).None? ==> forall start: nat, end: nat :: !CreatesAt(s, start, end)
    ensures CreateTarget(s).Some? ==>
              var span := CreateTarget(s).value;
              && CreatesAt(s, span.start, span.end)
              && forall start: nat, end: nat :: CreatesAt(s, start, end) ==> NotAfter(start, end, span)
  {
    hide CreateStart, CreatesAt, GuardedAt, NamedIndex, CreateTarget;
    CreateTargetFrom(s);
    var n := CreateStart(s);
    if n.Some? {
      NamedIndexIs(s[n.value..]);
    }
    if CreateTarget(s).Some? {
      CreatesBack(s, CreateTarget(s).value.start, CreateTarget(s).value.end);
    }
    forall start: nat, end: nat | CreatesAt(s, start, end)
      ensures CreateTarget(s).Some? && NotAfter(start, end, CreateTarget(s).value)
    {
      CreatesFrom(s, start, end);
    }
  }

  /** The target of a statement: the table of an ALTER TABLE, or else that of a CREATE INDEX. */
  lemma TargetExactly(s: Text)
    ensures Target(s).Some? <==> exists start: nat, end: nat :: AltersAt(s, start, end) || CreatesAt(s, start, end)
    ensures Target(s).Some? ==>
              var span := Target(s).value;
              if AltersAt(s, span.start, span.end) then
                forall start: nat, end: nat :: AltersAt(s, start, end) ==> NotAfter(start, end, span)
              else
                && CreatesAt(s, span.start, span.end)
                && forall start: nat, end: nat ::
                     !AltersAt(s, start, end) && (CreatesAt(s, start, end) ==> NotAfter(start, end, span))
  {
    hide AltersAt, CreatesAt, AlterTarget, CreateTarget, NotAfter;
    AlterFound(s);
    CreateFound(s);
  }
}
