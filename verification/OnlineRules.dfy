/**
 * What the ALGORITHM and LOCK clauses of a statement decide: which statements
 * are built for online DDL and how, and which clauses are stripped.
 */
module OnlineRules {
  import opened Bytes
  import opened SqlScanner
  import opened AlterClauses
  import opened AlterRescan
  import opened DdlTarget
  import opened DdlClauses
  import opened OnlineDdl

  // ---------- stripping ----------

  predicate WordByte(b: Byte) {
    65 <= b <= 90 || 97 <= b <= 122 || 48 <= b <= 57 || b == 95
  }

  /** A text begins with a word, in any case, that ends there. */
  predicate BeginsWith(s: Text, word: Text) {
    |word| <= |s| && SameWord(s[..|word|], word) && (|s| == |word| || !WordByte(s[|word|]))
  }

  predicate StartsOnline(s: Text) {
    BeginsWith(s, Ascii("ALGORITHM")) || BeginsWith(s, Ascii("LOCK"))
  }

  lemma WordIs(s: Text, word: Text)
    requires UpperText(word) == word
    ensures StartsWithWord(s, word) <==> BeginsWith(s, word)
  {
    hide UpperText, SameWord;
    if |word| <= |s| {
      SameUpper(s[..|word|], word);
    }
  }

  lemma OnlineIs(s: Text)
    ensures IsOnlineClause(s) <==> StartsOnline(s)
  {
    hide StartsWithWord, BeginsWith;
    UpperWords();
    WordIs(s, Ascii("ALGORITHM"));
    WordIs(s, Ascii("LOCK"));
  }

  lemma UpperWords()
    ensures UpperText(Ascii("ALGORITHM")) == Ascii("ALGORITHM") && UpperText(Ascii("LOCK")) == Ascii("LOCK")
  {
  }

  /** A clause that is left out is empty or begins with one of the two words; all others are kept. */
  lemma {:induction false} KeptExactly(cs: seq<AlterClauses.Clause>)
    ensures forall k ::
              k in Changes(cs) <==>
              exists i :: 0 <= i < |cs| && cs[i].raw == k && k != [] && !StartsOnline(cs[i].masked)
    decreases |cs|
  {
    hide IsOnlineClause, StartsOnline;
    if cs != [] {
      var c := cs[0];
      OnlineIs(c.masked);
      KeptExactly(cs[1..]);
      var rest := Changes(cs[1..]);
      assert Changes(cs) == if c.raw != [] && !StartsOnline(c.masked) then [c.raw] + rest else rest;
      forall k
        ensures k in Changes(cs) <==>
                exists i :: 0 <= i < |cs| && cs[i].raw == k && k != [] && !StartsOnline(cs[i].masked)
      {
        assert forall i :: 1 <= i < |cs| ==> cs[i] == cs[1..][i - 1];
        assert k in Changes(cs) <==> (k == c.raw && k != [] && !StartsOnline(c.masked)) || k in rest;
      }
    }
  }

  /**
   * Stripping fails only if every clause is empty or begins with ALGORITHM or LOCK; what it returns
   * are the others, and if they are closed, no clause found on rescanning begins with these words.
   */
  lemma NoneOnlineLeft(body: Text)
    ensures Stripped(body).Ok? <==>
            exists i :: 0 <= i < |Pieces(body)| && Pieces(body)[i].raw != [] && !StartsOnline(Pieces(body)[i].masked)
    ensures Stripped(body).Ok? && AllClosed(Changes(Pieces(body))) ==>
              var cs := Pieces(Stripped(body).value);
              forall i :: 0 <= i < |cs| && cs[i].raw != [] ==> !StartsOnline(cs[i].masked)
  {
    hide Pieces, StartsOnline, AllClosed, Changes;
    KeptExactly(Pieces(body));
    var cs, ks := Pieces(body), Changes(Pieces(body));
    SomeKept(ks);
    if i :| 0 <= i < |cs| && cs[i].raw != [] && !StartsOnline(cs[i].masked) {
      assert cs[i].raw in ks;
    }
    if Stripped(body).Ok? && AllClosed(ks) {
      StrippedClauses(body);
      ChangesSound(body);
      RescanJoined(ks);
      OnlyKept(Pieces(Stripped(body).value));
    }
  }

  lemma SomeKept(ks: seq<Text>)
    ensures ks != [] <==> exists k :: k in ks
  {
    if ks != [] {
      assert ks[0] in ks;
    }
  }

  /** If the clauses kept are all that are not empty, none of these is an online clause. */
  lemma {:induction false} OnlyKept(cs: seq<AlterClauses.Clause>)
    requires |Changes(cs)| == |AlterClauses.Present(cs)|
    ensures forall i :: 0 <= i < |cs| && cs[i].raw != [] ==> !StartsOnline(cs[i].masked)
    decreases |cs|
  {
    hide IsOnlineClause, StartsOnline;
    if cs != [] {
      FewerKept(cs[1..]);
      OnlineIs(cs[0].masked);
      OnlyKept(cs[1..]);
      forall i | 0 <= i < |cs| && cs[i].raw != [] ensures !StartsOnline(cs[i].masked) {
        assert i > 0 ==> cs[i] == cs[1..][i - 1];
      }
    }
  }

  lemma {:induction false} FewerKept(cs: seq<AlterClauses.Clause>)
    ensures |Changes(cs)| <= |AlterClauses.Present(cs)|
    decreases |cs|
  {
    hide IsOnlineClause;
    if cs != [] {
      FewerKept(cs[1..]);
    }
  }

  // ---------- commas outside parentheses ----------

  function Count(s: Text, b: Byte): nat {
    if s == [] then 0 else Count(s[..|s| - 1], b) + if s[|s| - 1] == b then 1 else 0
  }

  /** By how much the opening parentheses from a place on outnumber the closing ones. */
  function Excess(s: Text, j: nat): int
    requires j <= |s|
  {
    Count(s[j..], 40) - Count(s[j..], 41)
  }

  /** A text ends inside a parenthesis: from some place on, more parentheses open than close. */
  predicate InParentheses(s: Text) {
    exists j: nat :: j <= |s| && Excess(s, j) > 0
  }

  lemma {:induction false} DepthLast(s: Text, b: Byte, depth: nat)
    ensures DepthAfter(s + [b], depth) == Nest(b, DepthAfter(s, depth))
    decreases |s|
  {
    if s == [] {
      assert s + [b] == [b];
      assert DepthAfter([b][1..], Nest(b, depth)) == Nest(b, depth);
    } else {
      assert (s + [b])[1..] == s[1..] + [b];
      DepthLast(s[1..], b, Nest(s[0], depth));
    }
  }

  lemma ExcessLast(s: Text, b: Byte, j: nat)
    requires j <= |s|
    ensures Excess(s + [b], j) == Excess(s, j) + if b == 40 then 1 else if b == 41 then -1 else 0
  {
    assert (s + [b])[j..] == s[j..] + [b];
    assert (s[j..] + [b])[..|s[j..]|] == s[j..];
  }

  /** The nesting depth is the greatest excess. */
  lemma {:induction false} DepthIs(s: Text)
    ensures forall j: nat :: j <= |s| ==> Excess(s, j) <= DepthAfter(s, 0)
    ensures exists j: nat :: j <= |s| && Excess(s, j) == DepthAfter(s, 0)
    decreases |s|
  {
    hide DepthAfter, Excess;
    NoExcess(s);
    if s != [] {
      var a, b := s[..|s| - 1], s[|s| - 1];
      assert s == a + [b];
      DepthIs(a);
      DepthLast(a, b, 0);
      forall j: nat | j <= |a| ensures Excess(s, j) == Excess(a, j) + if b == 40 then 1 else if b == 41 then -1 else 0 {
        ExcessLast(a, b, j);
      }
      var k: nat :| k <= |a| && Excess(a, k) == DepthAfter(a, 0);
      assert Excess(s, k) == DepthAfter(s, 0) || Excess(s, |s|) == DepthAfter(s, 0);
    } else {
      assert Excess(s, 0) == DepthAfter(s, 0);
    }
  }

  lemma NoExcess(s: Text)
    ensures Excess(s, |s|) == 0 && (s == [] ==> DepthAfter(s, 0) == 0)
  {
  }

  /** A clause ends at the first comma outside parentheses. */
  lemma {:induction false} CutIs(s: Text)
    ensures var k := Cut(s, 0);
            && (k < |s| ==> s[k] == 44 && !InParentheses(s[..k]))
            && forall i :: 0 <= i < k && s[i] == 44 ==> InParentheses(s[..i])
  {
    hide InParentheses, DepthAfter;
    var k := Cut(s, 0);
    CutBefore(s, 0);
    if k < |s| {
      AlterRescan.CutDepth(s, 0);
      InParenthesesIs(s[..k]);
    }
    forall i | 0 <= i < k && s[i] == 44 ensures InParentheses(s[..i]) {
      InParenthesesIs(s[..i]);
    }
  }

  lemma InParenthesesIs(s: Text)
    ensures InParentheses(s) <==> DepthAfter(s, 0) > 0
  {
    hide Excess, DepthAfter;
    DepthIs(s);
  }

  lemma {:induction false} CutBefore(s: Text, depth: nat)
    ensures forall i :: 0 <= i < Cut(s, depth) && s[i] == 44 ==> DepthAfter(s[..i], depth) > 0
    decreases |s|
  {
    if s != [] && !(s[0] == 44 && depth == 0) {
      CutBefore(s[1..], Nest(s[0], depth));
      forall i | 0 <= i < Cut(s, depth) && s[i] == 44 ensures DepthAfter(s[..i], depth) > 0 {
        if i > 0 {
          assert s[..i][1..] == s[1..][..i - 1] && s[1..][i - 1] == s[i];
        }
      }
    }
  }

  /** A byte is shown in the top-level text exactly if it is outside parentheses and none itself. */
  lemma TopLevelIs(s: Text, i: nat)
    requires i < |s|
    ensures TopLevel(s, 0)[i] == if s[i] == 40 || s[i] == 41 || InParentheses(s[..i]) then 32 else s[i]
  {
    hide InParentheses, DepthAfter, TopLevel;
    InParenthesesIs(s[..i]);
    TopLevelHides(s, 0, i);
  }

  lemma {:induction false} TopLevelHides(s: Text, depth: nat, i: nat)
    requires i < |s|
    ensures TopLevel(s, depth)[i] == Outside(s[i], DepthAfter(s[..i], depth))
    decreases |s|
  {
    if i > 0 {
      TopLevelHides(s[1..], Nest(s[0], depth), i - 1);
      assert s[..i][1..] == s[1..][..i - 1];
    }
  }

  // ---------- building ----------

  /** The values under which a statement is online, and those for which another tool may be tried. */
  predicate OnlineAlgorithm(r: Reading) {
    r.Absent? || (r.Present? && r.value in [Ascii("INPLACE"), Ascii("INSTANT"), Ascii("NOCOPY")])
  }

  predicate OnlineLock(r: Reading) {
    r.Absent? || r == Reading.Present(Ascii("NONE"))
  }

  predicate OtherAlgorithm(r: Reading) {
    r.Present? && r.value in [Ascii("COPY"), Ascii("DEFAULT")]
  }

  predicate OtherLock(r: Reading) {
    r.Present? && r.value in [Ascii("DEFAULT"), Ascii("SHARED"), Ascii("EXCLUSIVE")]
  }

  predicate Readable(r: Reading) {
    r.Absent? || r.Present?
  }

  /** The checks before the clauses are read. */
  predicate OneStatement(sql: Text) {
    var st := SplitSuffix(sql).statement;
    !Warned(sql, Plain).executable && !Warned(sql, Plain).ambiguous && st != [] && SEMICOLON !in Mask(st, EVERYTHING)
  }

  function Clauses(tail: Text): (Reading, Reading) {
    (ReadClause(tail, Ascii("ALGORITHM")), ReadClause(tail, Ascii("LOCK")))
  }

  lemma ClauseWords()
    ensures ALGORITHM == Ascii("ALGORITHM") && LOCK == Ascii("LOCK") && ALGORITHM != [] && LOCK != []
  {
  }

  /**
   * A statement is built exactly if it is one statement with a target whose clauses can be read,
   * with an algorithm and a lock under which it is online, or none.
   */
  lemma BuildsOnline(sql: Text)
    ensures var st := SplitSuffix(sql).statement;
            Build(sql).Done? <==>
            && OneStatement(sql) && TailOf(st).Some?
            && OnlineAlgorithm(Clauses(TailOf(st).value).0) && OnlineLock(Clauses(TailOf(st).value).1)
  {
    hide SplitSuffix, Warned, Mask, TailOf, ReadClause, Separator, Missing, Padded, Ascii;
    ClauseWords();
  }

  /** Another tool may be tried exactly if the clauses can be read and one names a value that is not online. */
  lemma RefusedUnsupported(sql: Text)
    ensures var st := SplitSuffix(sql).statement;
            Build(sql).Failed? && OnlineDdl.Unsupported(Build(sql).failure) <==>
            && OneStatement(sql) && TailOf(st).Some?
            && var (algorithm, lock) := Clauses(TailOf(st).value);
            && Readable(algorithm) && Readable(lock)
            && (OtherAlgorithm(algorithm) || (OnlineAlgorithm(algorithm) && OtherLock(lock)))
  {
    hide SplitSuffix, Warned, Mask, TailOf, ReadClause, Separator, Missing, Padded, Ascii;
    ClauseWords();
    DifferentWords();
  }

  lemma DifferentWords()
    ensures Ascii("COPY") !in [Ascii("INPLACE"), Ascii("INSTANT"), Ascii("NOCOPY")]
    ensures Ascii("DEFAULT") !in [Ascii("INPLACE"), Ascii("INSTANT"), Ascii("NOCOPY")]
    ensures Ascii("NONE") !in [Ascii("DEFAULT"), Ascii("SHARED"), Ascii("EXCLUSIVE")]
  {
    assert |Ascii("COPY")| == 4 && |Ascii("DEFAULT")| == 7 && |Ascii("INPLACE")| == 7 && |Ascii("NONE")| == 4;
    assert Ascii("DEFAULT")[0] == 68 && Ascii("INPLACE")[0] == 73 && Ascii("INSTANT")[0] == 73;
    assert |Ascii("NOCOPY")| == 6 && |Ascii("INSTANT")| == 7 && |Ascii("SHARED")| == 6 && |Ascii("EXCLUSIVE")| == 9;
  }

  /** After a comma for ALTER TABLE, after a space for CREATE INDEX. */
  function SeparatorFor(st: Text): Text {
    if AlterTarget(Mask(st, STRINGS)).Some? then Ascii(", ") else Ascii(" ")
  }

  /** A statement with the clauses that are missing, and the comments after it. */
  function WithClauses(parts: Parts, tail: Text): Text {
    var separator := SeparatorFor(parts.statement);
    parts.statement +
    (if Clauses(tail).0.Absent? then separator + Ascii("ALGORITHM=INPLACE") else []) +
    (if Clauses(tail).1.Absent? then separator + Ascii("LOCK=NONE") else []) +
    (if parts.suffix == [] || IsSpace(parts.suffix[0]) then parts.suffix else Ascii(" ") + parts.suffix)
  }

  /** The text that is built. */
  lemma BuiltText(sql: Text, parts: Parts)
    requires Build(sql).Done? && parts == SplitSuffix(sql)
    ensures TailOf(parts.statement).Some? && Build(sql).sql == WithClauses(parts, TailOf(parts.statement).value)
  {
    hide SplitSuffix, Warned, Mask, TailOf, ReadClause, AlterTarget, Ascii, ClauseText;
    ClauseWords();
    ClauseTexts();
    BuildsOnline(sql);
    var st := parts.statement;
    var (algorithm, lock) := Clauses(TailOf(st).value);
    var x := if algorithm.Absent? then Separator(st) + ClauseText(ALGORITHM, INPLACE) else [];
    var y := if lock.Absent? then Separator(st) + ClauseText(LOCK, NONE) else [];
    assert st + (x + y) == st + x + y;
  }

  lemma ClauseTexts()
    ensures ClauseText(ALGORITHM, INPLACE) == Ascii("ALGORITHM=INPLACE") && ClauseText(LOCK, NONE) == Ascii("LOCK=NONE")
    ensures [COMMA, SPACE] == Ascii(", ") && [SPACE] == Ascii(" ")
  {
  }
}
