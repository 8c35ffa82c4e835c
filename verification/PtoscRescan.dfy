/** What the change text for pt-online-schema-change says, compared with the statement it comes from. */
module PtoscRescan {
  import opened Bytes
  import opened Wrappers
  import opened SqlScanner
  import opened SqlContext
  import opened SqlEdges
  import opened Identifiers
  import opened AlterClauses
  import opened AlterRescan
  import opened DdlTarget
  import opened DdlClauses
  import opened OnlineDdl
  import opened TargetScan
  import opened PtoscSql

  // ---------- a part of a statement without ambiguous quotes ----------

  lemma ShortClear(a: Text, m: Region)
    requires |a| <= 1
    ensures !Warned(a, m).ambiguous
  {
    if a != [] {
      assert a[1..] == [];
      WarnedStep(a, m);
      WarnedNothing(Move(a, m).1);
    }
  }

  /** The beginning of a text has no ambiguous quote if the text has none. */
  lemma {:induction false} PrefixClear(a: Text, f: Text, m: Region)
    requires !Warned(a + f, m).ambiguous
    ensures !Warned(a, m).ambiguous
    decreases |a|
  {
    hide Warned, Move;
    if |a| <= 1 {
      ShortClear(a, m);
    } else {
      var s := a + f;
      WarnedStep(s, m);
      WarnedStep(a, m);
      assert s[0] == a[0] && s[1] == a[1];
      var n := Move(a, m).0;
      if |a| == 2 {
        ShortClear(a[n..], Move(a, m).1);
      } else {
        PrefixMove(a, f, m);
        assert s[n..] == a[n..] + f;
        PrefixClear(a[n..], f, Move(a, m).1);
      }
    }
  }

  lemma PrefixMove(a: Text, f: Text, m: Region)
    requires |a| > 2
    ensures Move(a + f, m) == Move(a, m)
  {
    var s := a + f;
    assert s[0] == a[0] && s[1] == a[1] && s[2] == a[2];
    assert s[2..][0] == s[2] && a[2..][0] == a[2];
  }

  lemma TrimClear(s: Text)
    requires Clear(s)
    ensures Clear(Trim(s))
  {
    hide Trim, Warned, ViewOf;
    var before, after := TrimParts(s);
    var t := Trim(s);
    assert s == before + (t + after);
    ViewSpace(before, t + after);
    WarnedJoin(before, t + after, Plain);
    PrefixClear(t, after, Plain);
  }

  lemma CutClear(s: Text, e: nat)
    requires Clear(s) && e <= |s|
    ensures Clear(s[..e])
  {
    hide Warned;
    assert s == s[..e] + s[e..];
    PrefixClear(s[..e], s[e..], Plain);
  }

  /** So it is for the statement that is split off. */
  lemma StatementClear(sql: Text)
    requires Clear(sql)
    ensures Clear(SplitSuffix(sql).statement)
  {
    hide Trim, Clear, Mask, Content;
    var s := Trim(sql);
    var shown := Mask(s, COMMENTS_ONLY);
    var last := Content(shown);
    TrimClear(sql);
    CutClear(s, last);
    TrimClear(s[..last]);
    NothingClear();
    if last > 0 {
      var end := Content(shown[..last - 1]);
      CutClear(s, end);
      TrimClear(s[..end]);
    }
  }

  lemma NothingClear()
    ensures Clear([])
  {
  }

  // ---------- ALTER TABLE ----------

  /** After a target the statement is masked as what follows it is by itself. */
  lemma MaskAfter(st: Text, n: nat, o: Options)
    requires Sync(st, n)
    ensures Mask(st[n..], o) == Mask(st, o)[n..]
  {
    hide Sync, Regions, ViewOf;
    SyncRest(st, n);
    SyncLength(st, n);
    var head := Regions(st, Plain)[..n];
    assert st == st[..n] + st[n..] && Regions(st, Plain) == head + Regions(st[n..], Plain);
    ShowJoin(st[..n], head, st[n..], Regions(st[n..], Plain), o);
  }

  lemma SyncLength(st: Text, n: nat)
    requires Sync(st, n)
    ensures n <= |st| && ViewOf(st[..n], st[n..], Plain).View? && |ViewOf(st[..n], st[n..], Plain).regions| == n
  {
  }

  /** The clauses of an ALTER TABLE statement at top level after its target, without the online ones. */
  function AlterChanges(statement: Text, target: Span): seq<Text>
    requires target.end <= |statement|
  {
    Changes(Split(statement[target.end..], Mask(statement, EVERYTHING)[target.end..]))
  }

  /**
   * The text built from an ALTER TABLE statement is those clauses joined; rescanning it gives
   * exactly them if and only if each but the last ends in plain code.
   */
  lemma AlterRescanned(sql: Text)
    requires BuildChange(sql).Alter? && AlterTarget(Mask(SplitSuffix(sql).statement, STRINGS)).Some?
    ensures var st, text := SplitSuffix(sql).statement, BuildChange(sql).text;
            var ks := AlterChanges(st, AlterTarget(Mask(st, STRINGS)).value);
            && text == Join(ks)
            && (AlterClauses.Present(Pieces(text)) == ks <==> AllClosed(ks))
            && (AllClosed(ks) ==> Changes(Pieces(text)) == ks)
  {
    hide SplitSuffix, AlterTarget, Warned, Mask, AllClosed, Pieces, Split, Changes, Join, Found, BadModifier, Fields;
    var st := SplitSuffix(sql).statement;
    var span := AlterTarget(Mask(st, STRINGS)).value;
    StatementClear(sql);
    AlterFound(st);
    FoundEnd(st, span);
    MaskAfter(st, span.end, EVERYTHING);
    var body := st[span.end..];
    PiecesAre(body);
    ChangesSound(body);
    RescanJoined(Changes(Pieces(body)));
  }

  lemma FoundEnd(st: Text, span: Span)
    requires Found(st, span)
    ensures Sync(st, span.end)
  {
  }

  lemma PiecesAre(body: Text)
    ensures Pieces(body) == Split(body, Mask(body, EVERYTHING))
  {
  }

  // ---------- CREATE INDEX ----------

  /** The same table, `n` bytes on. */
  predicate SameTable(r: Option<IndexParts>, n: nat, found: Option<Span>) {
    (r.Some? <==> found.Some?) && (r.Some? ==> r.value.end == n + found.value.end)
  }

  lemma TableSame(s: Text, start: nat, nameEnd: nat)
    requires start <= nameEnd <= |s|
    ensures var gap := nameEnd + Breaks(s[nameEnd..]);
            SameTable(ChangeTable(s, start, nameEnd), gap, if gap == nameEnd then None else IndexTable(s[gap..]))
  {
    hide WordLength, IndexMethod, ReferenceAt, Breaks, Content;
    var gap := nameEnd + Breaks(s[nameEnd..]);
    var used := IndexMethod(s[gap..]);
    Slices(s, gap, used);
    var w := WordLength(s[gap + used..], ON);
    if w.Some? {
      Slices(s, gap, used + w.value);
    }
  }

  lemma NameSame(s: Text, start: nat, l: nat)
    requires start <= l <= |s|
    ensures var name := IdentLength(s[l..]);
            SameTable(if name.None? then None else ChangeTable(s, start, l + name.value), l, IndexName(s[l..]))
  {
    hide IdentLength, IndexTable, Breaks, ChangeTable;
    var name := IdentLength(s[l..]);
    if name.Some? {
      Slices(s, l, name.value);
      var gap := Breaks(s[l..][name.value..]);
      Slices(s, l, name.value + gap);
      TableSame(s, start, l + name.value);
    }
  }

  lemma NamedSame(s: Text, start: nat, k: nat)
    requires start <= k <= |s|
    ensures SameTable(ChangeNamed(s, start, k), k, NamedIndex(s[k..]))
  {
    hide IdentLength, IndexName, ChangeTable, Optionally;
    var guard := Optionally(s[k..], [IF, NOT, EXISTS]);
    Slices(s, k, guard);
    NameSame(s, start, k + guard);
  }

  lemma ChangeSteps(s: Text, start: nat)
    requires start <= |s|
    ensures var j := start + IndexKind(s[start..]);
            var x := WordLength(s[j..], INDEX);
            ChangeAfter(s, start) == if x.None? then None else ChangeNamed(s, start, j + x.value)
  {
    hide IdentLength, ChangeTable, WordLength, IndexKind, Optionally;
  }

  lemma CreateSteps(r: Text)
    requires PhraseLength(r, [OR, REPLACE]).None?
    ensures var j := IndexKind(r);
            var x := WordLength(r[j..], INDEX);
            CreateIndex(r) == if x.None? then None else Shift(j + x.value, NamedIndex(r[j + x.value..]))
  {
    hide WordLength, PhraseLength, IndexKind, NamedIndex;
    assert r[0..] == r;
  }

  /** From after CREATE on: the index kind, INDEX, and the rest. */
  lemma IndexSame(s: Text, start: nat)
    requires start <= |s| && PhraseLength(s[start..], [OR, REPLACE]).None?
    ensures SameTable(ChangeAfter(s, start), start, CreateIndex(s[start..]))
  {
    hide ChangeAfter, CreateIndex, ChangeNamed, WordLength, PhraseLength, IndexKind, NamedIndex;
    ChangeSteps(s, start);
    CreateSteps(s[start..]);
    var kind := IndexKind(s[start..]);
    Slices(s, start, kind);
    var x := WordLength(s[start + kind..], INDEX);
    if x.Some? {
      Slices(s, start, kind + x.value);
      NamedSame(s, start, start + kind + x.value);
    }
  }

  lemma NoneAfterReplace(s: Text, start: nat)
    requires start <= |s| && PhraseLength(s[start..], [OR, REPLACE]).Some?
    ensures ChangeAfter(s, start).None?
  {
    hide WordLength, PhraseLength, IndexKind;
    ReplaceIsNoIndex(s[start..]);
  }

  lemma ChangeIsAfter(s: Text)
    ensures ChangeIndex(s) == if AfterCreate(s).None? then None else ChangeAfter(s, AfterCreate(s).value)
  {
    hide WordLength, Optionally, IndexKind, IdentLength, ChangeTable, Breaks;
  }

  lemma CreateIsAfter(s: Text)
    ensures CreateTarget(s) ==
            if AfterCreate(s).None? then None
            else Shift(AfterCreate(s).value, CreateIndex(s[AfterCreate(s).value..]))
  {
    hide WordLength, CreateIndex, Breaks;
  }

  /** Where the text after CREATE begins. */
  function AfterCreate(s: Text): (r: Option<nat>)
    ensures r.Some? ==> r.value <= |s|
  {
    var w := WordLength(s[Breaks(s)..], CREATE);
    if w.None? then None else Some(Breaks(s) + w.value)
  }

  /**
   * The pattern for a change finds the table that the target pattern finds; it finds none
   * exactly where that finds none or OR REPLACE stands before the index.
   */
  lemma ChangeIndexTarget(s: Text)
    ensures ChangeIndex(s).Some? <==>
            CreateTarget(s).Some? && PhraseLength(s[AfterCreate(s).value..], [OR, REPLACE]).None?
    ensures ChangeIndex(s).Some? ==> ChangeIndex(s).value.end == CreateTarget(s).value.end
  {
    hide ChangeIndex, CreateTarget, ChangeAfter, CreateIndex, PhraseLength, AfterCreate;
    ChangeIsAfter(s);
    CreateIsAfter(s);
    if AfterCreate(s).Some? {
      var start := AfterCreate(s).value;
      if PhraseLength(s[start..], [OR, REPLACE]).None? {
        IndexSame(s, start);
      } else {
        NoneAfterReplace(s, start);
      }
    }
  }

  /**
   * Online clauses are taken out of exactly the text that online DDL reads them from: the
   * statement's top-level tail.  What is left of it follows the index definition.
   */
  lemma IndexRescanned(sql: Text)
    requires var shown := Mask(SplitSuffix(sql).statement, STRINGS);
             BuildChange(sql).Alter? && AlterTarget(shown).None? && ChangeIndex(shown).Some?
    ensures var st := SplitSuffix(sql).statement;
            var parts := ChangeIndex(Mask(st, STRINGS)).value;
            && TailOf(st).Some? && |TailOf(st).value| == |st| - parts.end
            && BuildChange(sql).text ==
               ADD + [SPACE] + Trim(st[parts.start..parts.nameEnd]) + [SPACE] +
               Trim(WithoutClauses(st[parts.end..], TailOf(st).value, false))
  {
    hide SplitSuffix, AlterTarget, CreateTarget, ChangeIndex, Warned, Mask;
    hide Found, WithoutClauses, TopLevel, Trim, HasWait;
    var st := SplitSuffix(sql).statement;
    var end := ChangeIndex(Mask(st, STRINGS)).value.end;
    StatementClear(sql);
    ChangeIndexTarget(Mask(st, STRINGS));
    TargetFound(st);
    FoundEnd(st, CreateTarget(Mask(st, STRINGS)).value);
    MaskAfter(st, end, EVERYTHING);
  }

  lemma ReplaceIsNoIndex(r: Text)
    requires PhraseLength(r, [OR, REPLACE]).Some?
    ensures IndexKind(r) == 0 && WordLength(r, INDEX).None?
  {
    hide PhraseLength, WordLength;
    assert r + [] == r;
    PhraseFirst(r, [OR, REPLACE]);
    WordClash(r, [], OR, UNIQUE);
    WordClash(r, [], OR, FULLTEXT);
    PhraseClash(r, [], OR, [SPATIAL]);
    WordClash(r, [], OR, INDEX);
  }

  // ---------- searches ----------

  /** A word begins at a position. */
  predicate WordStart(s: Text, inWord: bool, i: nat)
    requires i <= |s|
  {
    !EndsInWord(s[..i], inWord)
  }

  lemma WordStartRest(s: Text, inWord: bool, n: nat, i: nat)
    requires 0 < n <= i <= |s|
    ensures WordStart(s, inWord, i) == WordStart(s[n..], IsWord(s[n - 1]), i - n)
    ensures s[i..] == s[n..][i - n..]
  {
    assert s[n..][..i - n] == s[..i][n..];
  }

  predicate HasClause(masked: Text, inWord: bool) {
    exists i :: 0 <= i < |masked| && ClauseHere(masked, inWord, i)
  }

  predicate ClauseHere(masked: Text, inWord: bool, i: nat)
    requires i <= |masked|
  {
    WordStart(masked, inWord, i) && ClauseLength(masked[i..]).Some?
  }

  /** A text keeps its length, and with it all its bytes, exactly if no clause is found in it. */
  lemma {:induction false} ClausesRemoved(s: Text, masked: Text, inWord: bool)
    requires |s| == |masked|
    ensures var r := WithoutClauses(s, masked, inWord);
            |r| <= |s| && (r == s <==> !HasClause(masked, inWord)) && (|r| == |s| ==> r == s)
    decreases |s|
  {
    hide ClauseLength, EndsInWord;
    if s != [] {
      var n := ClauseLength(masked);
      assert masked[0..] == masked && masked[..0] == [];
      NoWord(inWord);
      if !inWord && n.Some? {
        assert ClauseHere(masked, inWord, 0);
        ClausesRemoved(s[n.value..], masked[n.value..], IsWord(masked[n.value - 1]));
      } else {
        assert !ClauseHere(masked, inWord, 0);
        ClausesRemoved(s[1..], masked[1..], IsWord(masked[0]));
        ClauseLater(masked, inWord);
        assert s == [s[0]] + s[1..];
      }
    }
  }

  lemma ClauseLater(masked: Text, inWord: bool)
    requires masked != [] && !ClauseHere(masked, inWord, 0)
    ensures HasClause(masked, inWord) <==> HasClause(masked[1..], IsWord(masked[0]))
  {
    hide ClauseLength, WordStart;
    forall i | 1 <= i < |masked|
      ensures ClauseHere(masked, inWord, i) == ClauseHere(masked[1..], IsWord(masked[0]), i - 1)
    {
      WordStartRest(masked, inWord, 1, i);
    }
    if i :| 0 <= i < |masked[1..]| && ClauseHere(masked[1..], IsWord(masked[0]), i) {
      assert ClauseHere(masked, inWord, i + 1);
    }
  }

  /** The search for WAIT finds one exactly if one begins at a word's beginning. */
  lemma {:induction false} WaitFound(s: Text, inWord: bool)
    ensures HasWait(s, inWord) <==> exists i :: 0 <= i < |s| && WaitHere(s, inWord, i)
    decreases |s|
  {
    hide WaitsHere, EndsInWord;
    if s != [] {
      assert s[0..] == s && s[..0] == [];
      NoWord(inWord);
      WaitFound(s[1..], IsWord(s[0]));
      assert WaitHere(s, inWord, 0) == (!inWord && WaitsHere(s));
      forall i | 1 <= i < |s| ensures WaitHere(s, inWord, i) == WaitHere(s[1..], IsWord(s[0]), i - 1) {
        WordStartRest(s, inWord, 1, i);
      }
      if i :| 0 <= i < |s[1..]| && WaitHere(s[1..], IsWord(s[0]), i) {
        assert WaitHere(s, inWord, i + 1);
      }
    }
  }

  predicate WaitHere(s: Text, inWord: bool, i: nat)
    requires i <= |s|
  {
    WordStart(s, inWord, i) && WaitsHere(s[i..])
  }
}
