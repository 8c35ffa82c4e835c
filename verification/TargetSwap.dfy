/** Putting another table reference in the place of a statement's target. */
module TargetSwap {
  import opened Bytes
  import opened Wrappers
  import opened Identifiers
  import opened DdlTarget

  /** A text with `r` in the place of a span. */
  function Swapped(s: Text, span: Span, r: Text): Text
    requires span.start <= span.end <= |s|
  {
    s[..span.start] + (r + s[span.end..])
  }

  predicate Ticked(z: Text) {
    z != [] && z[0] == BACKTICK
  }

  // ---------- what is matched before a backtick ----------

  lemma BreaksTick(p: Text, z: Text)
    requires Ticked(z)
    ensures Breaks(p + z) == Breaks(p)
  {
    BreaksWithin(p, z);
  }

  lemma {:induction false} BreaksCut(s: Text, k: nat)
    requires k <= |s|
    ensures Breaks(s[..k]) == if Breaks(s) < k then Breaks(s) else k
    decreases k
  {
    if k > 0 && IsBreak(s[0]) {
      assert s[..k][1..] == s[1..][..k - 1];
      BreaksCut(s[1..], k - 1);
    }
  }

  lemma WordTick(p: Text, z: Text, keyword: Text)
    requires Ticked(z) && IsKeyword(keyword)
    ensures WordLength(p + z, keyword) == WordLength(p, keyword)
  {
    hide Breaks;
    var y, n := p + z, |keyword|;
    if n < |p| {
      assert y[..n] == p[..n] && y[n..] == p[n..] + z;
      BreaksTick(p[n..], z);
    } else if n == |p| {
      assert y[n] == z[0];
    } else if n < |y| {
      assert UpperText(y[..n])[|p|] == Upper(z[0]);
    }
  }

  lemma WordCut(s: Text, k: nat, keyword: Text)
    requires k <= |s|
    ensures WordLength(s, keyword).None? ==> WordLength(s[..k], keyword).None?
    ensures WordLength(s, keyword).Some? && WordLength(s[..k], keyword).Some? ==>
              var n := WordLength(s, keyword).value;
              WordLength(s[..k], keyword).value == if n < k then n else k
    ensures WordLength(s, keyword).Some? && WordLength(s, keyword).value <= k ==>
              WordLength(s[..k], keyword) == WordLength(s, keyword)
  {
    hide Breaks;
    var n := |keyword|;
    if n < k {
      assert s[..k][..n] == s[..n] && s[..k][n..] == s[n..][..k - n];
      BreaksCut(s[n..], k - n);
    }
  }

  lemma NoPhrase(keywords: seq<Text>)
    requires keywords != []
    ensures PhraseLength([], keywords).None?
  {
  }

  /** At the end of a text only an empty phrase is found, which is found everywhere. */
  lemma PhraseRest(s: Text, keywords: seq<Text>)
    ensures if keywords == [] then PhraseLength(s, keywords) == Some(0) else PhraseLength([], keywords).None?
  {
  }

  lemma {:induction false} PhraseCut(s: Text, k: nat, keywords: seq<Text>)
    requires k <= |s|
    ensures PhraseLength(s, keywords).None? ==> PhraseLength(s[..k], keywords).None?
    ensures PhraseLength(s, keywords).Some? && PhraseLength(s, keywords).value <= k ==>
              PhraseLength(s[..k], keywords) == PhraseLength(s, keywords)
    decreases |keywords|
  {
    hide WordLength;
    if keywords != [] {
      WordCut(s, k, keywords[0]);
      var w := WordLength(s, keywords[0]);
      if w.Some? {
        if w.value <= k {
          assert s[..k][w.value..] == s[w.value..][..k - w.value];
          PhraseCut(s[w.value..], k - w.value, keywords[1..]);
        } else {
          assert s[..k][k..] == [];
          PhraseRest(s[w.value..], keywords[1..]);
        }
      }
    }
  }

  lemma {:induction false} PhraseTick(p: Text, z: Text, keywords: seq<Text>)
    requires Ticked(z) && AllKeywords(keywords)
    ensures PhraseLength(p + z, keywords) == PhraseLength(p, keywords)
    decreases |keywords|
  {
    hide WordLength;
    if keywords != [] {
      WordTick(p, z, keywords[0]);
      var w := WordLength(p, keywords[0]);
      if w.Some? {
        assert (p + z)[w.value..] == p[w.value..] + z;
        PhraseTick(p[w.value..], z, keywords[1..]);
      }
    }
  }

  lemma WordSwap(s: Text, k: nat, z: Text, keyword: Text)
    requires k <= |s| && Ticked(z) && IsKeyword(keyword)
    ensures WordLength(s, keyword).None? ==> WordLength(s[..k] + z, keyword).None?
    ensures WordLength(s, keyword).Some? && WordLength(s, keyword).value <= k ==>
              WordLength(s[..k] + z, keyword) == WordLength(s, keyword)
  {
    hide WordLength;
    WordCut(s, k, keyword);
    WordTick(s[..k], z, keyword);
  }

  lemma PhraseSwap(s: Text, k: nat, z: Text, keywords: seq<Text>)
    requires k <= |s| && Ticked(z) && AllKeywords(keywords)
    ensures PhraseLength(s, keywords).None? ==> PhraseLength(s[..k] + z, keywords).None?
    ensures PhraseLength(s, keywords).Some? && PhraseLength(s, keywords).value <= k ==>
              PhraseLength(s[..k] + z, keywords) == PhraseLength(s, keywords)
  {
    hide PhraseLength;
    PhraseCut(s, k, keywords);
    PhraseTick(s[..k], z, keywords);
  }

  lemma OptionSwap(s: Text, k: nat, z: Text, keywords: seq<Text>)
    requires k <= |s| && Ticked(z) && AllKeywords(keywords) && Optionally(s, keywords) <= k
    ensures Optionally(s[..k] + z, keywords) == Optionally(s, keywords)
  {
    hide PhraseLength;
    PhraseSwap(s, k, z, keywords);
  }

  lemma ModifierSwap(s: Text, k: nat, z: Text)
    requires k <= |s| && Ticked(z) && Modifier(s) <= k
    ensures Modifier(s[..k] + z) == Modifier(s)
  {
    hide WordLength, Optionally;
    WordSwap(s, k, z, ONLINE);
    if WordLength(s, ONLINE).None? {
      OptionSwap(s, k, z, [IGNORE]);
    }
  }

  lemma KindSwap(s: Text, k: nat, z: Text)
    requires k <= |s| && Ticked(z) && IndexKind(s) <= k
    ensures IndexKind(s[..k] + z) == IndexKind(s)
  {
    hide WordLength, Optionally;
    WordSwap(s, k, z, UNIQUE);
    WordSwap(s, k, z, FULLTEXT);
    if WordLength(s, UNIQUE).None? && WordLength(s, FULLTEXT).None? {
      OptionSwap(s, k, z, [SPATIAL]);
    }
  }

  lemma MethodSwap(s: Text, k: nat, z: Text)
    requires k <= |s| && Ticked(z) && IndexMethod(s) <= k
    ensures IndexMethod(s[..k] + z) == IndexMethod(s)
  {
    hide PhraseLength, Optionally;
    PhraseSwap(s, k, z, [USING, BTREE]);
    PhraseSwap(s, k, z, [USING, HASH_METHOD]);
    if PhraseLength(s, [USING, BTREE]).None? && PhraseLength(s, [USING, HASH_METHOD]).None? {
      OptionSwap(s, k, z, [USING, RTREE]);
    }
  }

  lemma BreaksSwap(s: Text, k: nat, z: Text)
    requires k <= |s| && Ticked(z) && Breaks(s) <= k
    ensures Breaks(s[..k] + z) == Breaks(s)
  {
    hide Breaks;
    BreaksCut(s, k);
    BreaksTick(s[..k], z);
  }

  // ---------- an index name before its white space ----------

  lemma {:induction false} BareSwap(s: Text, t: Text)
    requires BareLength(s) < |s| && BareLength(s) < |t| && s[..BareLength(s) + 1] == t[..BareLength(s) + 1]
    ensures BareLength(t) == BareLength(s)
    decreases |s|
  {
    assert s[0] == s[..BareLength(s) + 1][0] == t[0];
    if IsBare(s[0]) {
      var n := BareLength(s[1..]);
      assert s[1..][..n + 1] == s[..n + 2][1..] && t[1..][..n + 1] == t[..n + 2][1..];
      BareSwap(s[1..], t[1..]);
    }
  }

  lemma {:induction false} BodySwap(s: Text, t: Text, q: Byte)
    requires BodyLength(s, q).Some? && BodyLength(s, q).value < |s| && BodyLength(s, q).value < |t|
    requires s[..BodyLength(s, q).value + 1] == t[..BodyLength(s, q).value + 1]
    ensures BodyLength(t, q) == BodyLength(s, q)
    decreases |s|
  {
    var k := BodyLength(s, q).value;
    assert s[0] == s[..k + 1][0] == t[0] && s[1] == s[..k + 1][1] == t[1];
    if s[0] != q {
      assert s[1..][..k] == s[..k + 1][1..] && t[1..][..k] == t[..k + 1][1..];
      BodySwap(s[1..], t[1..], q);
    } else if s[1] == q {
      assert s[2..][..k - 1] == s[..k + 1][2..] && t[2..][..k - 1] == t[..k + 1][2..];
      BodySwap(s[2..], t[2..], q);
    }
  }

  lemma IdentSwap(s: Text, t: Text)
    requires IdentLength(s).Some? && IdentLength(s).value < |s| && IdentLength(s).value < |t|
    requires s[..IdentLength(s).value + 1] == t[..IdentLength(s).value + 1]
    ensures IdentLength(t) == IdentLength(s)
  {
    hide BodyLength, BareLength;
    var n := IdentLength(s).value;
    assert s[0] == s[..n + 1][0] == t[0];
    if s[0] == BACKTICK || s[0] == DQUOTE {
      assert s[1..][..n] == s[..n + 1][1..] && t[1..][..n] == t[..n + 1][1..];
      BodySwap(s[1..], t[1..], s[0]);
    } else {
      BareSwap(s, t);
    }
  }

  // ---------- the reference itself ----------

  /** A canonical reference is found whole where a reference may end after it. */
  lemma CanonicalAt(database: Text, table: Text, follow: Text, paren: bool)
    requires database != [] && table != [] && Ends(follow, paren)
    ensures var r := Canonical(database, table);
            Ticked(r) && ReferenceAt(r + follow, paren) == Some(Span(0, |r|))
  {
    hide IdentLength, QuoteIdentifier, Breaks;
    var d, t, r := QuoteIdentifier(database), QuoteIdentifier(table), Canonical(database, table);
    QuoteStarts(database);
    QuoteStarts(table);
    var rest := [DOT] + (t + follow);
    assert r + follow == d + rest;
    QuotedIdentLength(database, rest);
    assert (r + follow)[|d|..] == rest && rest[1..] == t + follow;
    DotOnly(t + follow);
    QuotedIdentLength(table, follow);
    assert (r + follow)[|d| + 1..] == t + follow && (r + follow)[|r|..] == follow;
  }

  lemma DotOnly(s: Text)
    requires Ticked(s)
    ensures DotLength([DOT] + s) == Some(1)
  {
    assert ([DOT] + s)[1..] == s;
  }

  /** A reference begins at once and ends where one may. */
  lemma ReferenceEnds(s: Text, paren: bool)
    requires ReferenceAt(s, paren).Some?
    ensures ReferenceAt(s, paren).value.start == 0 && Ends(s[ReferenceAt(s, paren).value.end..], paren)
  {
    hide IdentLength, QualifiedLength;
  }

  /** Cutting a swapped text after a common beginning leaves the rest swapped. */
  lemma SwapLater(s: Text, n: nat, span: Span, r: Text)
    requires n <= |s| && span.start <= span.end <= |s| - n
    ensures var y := Swapped(s, Span(n + span.start, n + span.end), r);
            && n <= |y| && y[n..] == Swapped(s[n..], span, r)
            && y == s[..n + span.start] + (r + s[n + span.end..])
  {
    assert s[n..][span.end..] == s[n + span.end..];
    assert s[..n + span.start] == s[..n] + s[n..][..span.start];
  }

  // ---------- the patterns ----------

  lemma ReferenceSwap(s: Text, paren: bool, d: Text, t: Text)
    requires d != [] && t != [] && ReferenceAt(s, paren).Some?
    ensures var sp, r := ReferenceAt(s, paren).value, Canonical(d, t);
            && sp.start == 0 && Swapped(s, sp, r) == r + s[sp.end..] && Ticked(r)
            && ReferenceAt(Swapped(s, sp, r), paren) == Some(Span(0, |r|))
  {
    hide ReferenceAt, Canonical;
    ReferenceEnds(s, paren);
    var sp, r := ReferenceAt(s, paren).value, Canonical(d, t);
    CanonicalAt(d, t, s[sp.end..], paren);
    assert s[..0] + (r + s[sp.end..]) == r + s[sp.end..];
  }

  lemma AlteredSwap(s: Text, d: Text, t: Text)
    requires d != [] && t != [] && AlteredTable(s).Some?
    ensures var sp, r := AlteredTable(s).value, Canonical(d, t);
            AlteredTable(Swapped(s, sp, r)) == Some(Span(sp.start, sp.start + |r|))
  {
    hide ReferenceAt, Canonical, PhraseLength;
    var n, r := Optionally(s, [IF, EXISTS]), Canonical(d, t);
    if n > 0 && ReferenceAt(s[n..], false).Some? {
      var inner := ReferenceAt(s[n..], false).value;
      ReferenceSwap(s[n..], false, d, t);
      SwapLater(s, n, inner, r);
      OptionSwap(s, n, r + s[n + inner.end..], [IF, EXISTS]);
    } else {
      ReferenceSwap(s, false, d, t);
      var z := r + s[ReferenceAt(s, false).value.end..];
      PhraseTick([], z, [IF, EXISTS]);
      NoPhrase([IF, EXISTS]);
      assert [] + z == z;
    }
  }

  lemma AlterTableSwap(s: Text, d: Text, t: Text)
    requires d != [] && t != [] && AlterTable(s).Some?
    ensures var sp, r := AlterTable(s).value, Canonical(d, t);
            AlterTable(Swapped(s, sp, r)) == Some(Span(sp.start, sp.start + |r|))
  {
    hide Modifier, WordLength, AlteredTable, Canonical, Swapped;
    var i, r := Modifier(s), Canonical(d, t);
    var j := i + Modifier(s[i..]);
    var n := j + WordLength(s[j..], TABLE).value;
    var inner := AlteredTable(s[n..]).value;
    AlteredSwap(s[n..], d, t);
    SwapLater(s, n, inner, r);
    CanonicalTicks(d, t);
    var k, z := n + inner.start, r + s[n + inner.end..];
    var y := s[..k] + z;
    ModifierSwap(s, k, z);
    CutSwap(s, k, z, i);
    ModifierSwap(s[i..], k - i, z);
    CutSwap(s, k, z, j);
    WordSwap(s[j..], k - j, z, TABLE);
  }

  lemma CanonicalTicks(d: Text, t: Text)
    ensures Ticked(Canonical(d, t))
  {
  }

  lemma CutSwap(s: Text, k: nat, z: Text, i: nat)
    requires i <= k <= |s|
    ensures (s[..k] + z)[i..] == s[i..][..k - i] + z
  {
  }

  lemma AlterSwap(s: Text, d: Text, t: Text)
    requires d != [] && t != [] && AlterTarget(s).Some?
    ensures var sp, r := AlterTarget(s).value, Canonical(d, t);
            AlterTarget(Swapped(s, sp, r)) == Some(Span(sp.start, sp.start + |r|))
  {
    hide Breaks, WordLength, AlterTable, Canonical, Swapped;
    var i, r := Breaks(s), Canonical(d, t);
    var n := i + WordLength(s[i..], ALTER).value;
    var inner := AlterTable(s[n..]).value;
    AlterTableSwap(s[n..], d, t);
    SwapLater(s, n, inner, r);
    CanonicalTicks(d, t);
    var k, z := n + inner.start, r + s[n + inner.end..];
    BreaksSwap(s, k, z);
    CutSwap(s, k, z, i);
    WordSwap(s[i..], k - i, z, ALTER);
  }

  lemma IndexTableSwap(s: Text, d: Text, t: Text)
    requires d != [] && t != [] && IndexTable(s).Some?
    ensures var sp, r := IndexTable(s).value, Canonical(d, t);
            IndexTable(Swapped(s, sp, r)) == Some(Span(sp.start, sp.start + |r|))
  {
    hide IndexMethod, WordLength, ReferenceAt, Canonical, Swapped;
    var i, r := IndexMethod(s), Canonical(d, t);
    var n := i + WordLength(s[i..], ON).value;
    var inner := ReferenceAt(s[n..], true).value;
    ReferenceSwap(s[n..], true, d, t);
    SwapLater(s, n, inner, r);
    CanonicalTicks(d, t);
    var k, z := n + inner.start, r + s[n + inner.end..];
    MethodSwap(s, k, z);
    CutSwap(s, k, z, i);
    WordSwap(s[i..], k - i, z, ON);
  }

  lemma IndexNameSwap(s: Text, d: Text, t: Text)
    requires d != [] && t != [] && IndexName(s).Some?
    ensures var sp, r := IndexName(s).value, Canonical(d, t);
            IndexName(Swapped(s, sp, r)) == Some(Span(sp.start, sp.start + |r|))
  {
    hide IdentLength, Breaks, IndexTable, Canonical, Swapped;
    var i, r := IdentLength(s).value, Canonical(d, t);
    var n := i + Breaks(s[i..]);
    var inner := IndexTable(s[n..]).value;
    IndexTableSwap(s[n..], d, t);
    SwapLater(s, n, inner, r);
    CanonicalTicks(d, t);
    var k, z := n + inner.start, r + s[n + inner.end..];
    var y := s[..k] + z;
    assert y[..i + 1] == s[..i + 1];
    IdentSwap(s, y);
    CutSwap(s, k, z, i);
    BreaksSwap(s[i..], k - i, z);
  }

  lemma NamedIndexSwap(s: Text, d: Text, t: Text)
    requires d != [] && t != [] && NamedIndex(s).Some?
    ensures var sp, r := NamedIndex(s).value, Canonical(d, t);
            NamedIndex(Swapped(s, sp, r)) == Some(Span(sp.start, sp.start + |r|))
  {
    hide Optionally, IndexName, Canonical, Swapped;
    var n, r := Optionally(s, [IF, NOT, EXISTS]), Canonical(d, t);
    var inner := IndexName(s[n..]).value;
    IndexNameSwap(s[n..], d, t);
    SwapLater(s, n, inner, r);
    CanonicalTicks(d, t);
    OptionSwap(s, n + inner.start, r + s[n + inner.end..], [IF, NOT, EXISTS]);
  }

  lemma CreateIndexSwap(s: Text, d: Text, t: Text)
    requires d != [] && t != [] && CreateIndex(s).Some?
    ensures var sp, r := CreateIndex(s).value, Canonical(d, t);
            CreateIndex(Swapped(s, sp, r)) == Some(Span(sp.start, sp.start + |r|))
  {
    hide Optionally, IndexKind, WordLength, NamedIndex, Canonical, Swapped;
    var i, r := Optionally(s, [OR, REPLACE]), Canonical(d, t);
    var j := i + IndexKind(s[i..]);
    var n := j + WordLength(s[j..], INDEX).value;
    var inner := NamedIndex(s[n..]).value;
    NamedIndexSwap(s[n..], d, t);
    SwapLater(s, n, inner, r);
    CanonicalTicks(d, t);
    var k, z := n + inner.start, r + s[n + inner.end..];
    OptionSwap(s, k, z, [OR, REPLACE]);
    CutSwap(s, k, z, i);
    KindSwap(s[i..], k - i, z);
    CutSwap(s, k, z, j);
    WordSwap(s[j..], k - j, z, INDEX);
  }

  lemma CreateSwap(s: Text, d: Text, t: Text)
    requires d != [] && t != [] && CreateTarget(s).Some?
    ensures var sp, r := CreateTarget(s).value, Canonical(d, t);
            && CreateTarget(Swapped(s, sp, r)) == Some(Span(sp.start, sp.start + |r|))
            && AlterTarget(Swapped(s, sp, r)).None?
  {
    hide Breaks, WordLength, CreateIndex, Canonical, Swapped;
    var i, r := Breaks(s), Canonical(d, t);
    var n := i + WordLength(s[i..], CREATE).value;
    var inner := CreateIndex(s[n..]).value;
    CreateIndexSwap(s[n..], d, t);
    SwapLater(s, n, inner, r);
    CanonicalTicks(d, t);
    var k, z := n + inner.start, r + s[n + inner.end..];
    BreaksSwap(s, k, z);
    CutSwap(s, k, z, i);
    WordSwap(s[i..], k - i, z, CREATE);
    var y := s[i..][..k - i] + z;
    WordClash(y, [], CREATE, ALTER);
    assert y + [] == y;
  }

  /** With a canonical reference in place of its target, a statement's target is that reference. */
  lemma TargetSwaps(s: Text, d: Text, t: Text)
    requires d != [] && t != [] && Target(s).Some?
    ensures var sp, r := Target(s).value, Canonical(d, t);
            Target(Swapped(s, sp, r)) == Some(Span(sp.start, sp.start + |r|))
  {
    hide AlterTarget, CreateTarget, Canonical, Swapped;
    if AlterTarget(s).Some? {
      AlterSwap(s, d, t);
    } else {
      CreateSwap(s, d, t);
    }
  }
}
