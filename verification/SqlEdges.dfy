/** Where a statement ends and its trailing comments begin: more lemmas on scanning pieces. */
module SqlEdges {
  import opened Bytes
  import opened SqlScanner
  import opened SqlContext

  predicate IsComment(r: Region) {
    r.LineComment? || r.BlockComment?
  }

  // ---------- two views of the same piece ----------

  /** A piece that ends in plain code both on its own and in a context is read alike in both. */
  lemma {:induction false} ViewAgree(a: Text, t: Text, m: Region)
    requires m.Valid()
    requires ViewOf(a, t, m).View? && ViewOf(a, t, m).state.Plain?
    requires ViewOf(a, [], m).View? && ViewOf(a, [], m).state.Plain?
    ensures ViewOf(a, t, m) == ViewOf(a, [], m)
    decreases |a|
  {
    hide Move, ViewOf;
    if a == [] {
      ViewNone(t, m);
      ViewNone([], m);
    } else {
      assert a + [] == a;
      ViewStep(a, t, m);
      ViewStep(a, [], m);
      if |a| <= 3 {
        AgreeShort(a, t, m);
      } else {
        ViewContextLong(a, t, [], m);
      }
      ViewAgree(a[Move(a, m).0..], t, Move(a, m).1);
    }
  }

  lemma AgreeShort(a: Text, t: Text, m: Region)
    requires m.Valid() && 1 <= |a| <= 3
    requires ViewOf(a, t, m).View? && ViewOf(a, t, m).state.Plain?
    requires ViewOf(a, [], m).View? && ViewOf(a, [], m).state.Plain?
    ensures Move(a + t, m) == Move(a, m) && TokenWarns(a + t, m) == TokenWarns(a, m)
  {
    hide ViewOf;
    assert a + [] == a;
    ViewStep(a, t, m);
    ViewStep(a, [], m);
    if |a| == 1 {
      assert t != [] ==> (a + t)[1] == t[0];
    } else if |a| == 2 {
      AgreeTwo(a, t, m);
    } else {
      assert (a + t)[1] == a[1] && (a + t)[2] == a[2] && (a + t)[2..][0] == a[2] == a[2..][0];
      if Move(a, m).0 == 2 {
        LastByte(a[2..], [], Move(a, m).1);
      }
    }
  }

  lemma AgreeTwo(a: Text, t: Text, m: Region)
    requires m.Valid() && |a| == 2
    requires ViewOf(a, t, m).View? && ViewOf(a, t, m).state.Plain?
    requires ViewOf(a, [], m).View? && ViewOf(a, [], m).state.Plain?
    ensures Move(a + t, m) == Move(a, m) && TokenWarns(a + t, m) == TokenWarns(a, m)
  {
    hide ViewOf;
    assert a + [] == a && a[2..] == [];
    ViewStep(a, t, m);
    ViewStep(a, [], m);
    ViewNone([], Move(a, m).1);
    ViewNone(t, Move(a + t, m).1);
    assert (a + t)[1] == a[1];
  }

  // ---------- the boundary between code and comments ----------

  /** Between a byte that is no comment and one that is no string the scanner is between tokens, in code. */
  lemma {:induction false} CodeEnd(s: Text, m: Region, k: nat)
    requires m.Valid() && 0 < k < |s|
    requires !IsComment(Regions(s, m)[k - 1]) && !Regions(s, m)[k].Quoted?
    ensures ViewOf(s[..k], s[k..], m).View? && ViewOf(s[..k], s[k..], m).state.Plain?
    ensures ViewOf(s[..k], s[k..], m).regions == Regions(s, m)[..k]
    ensures Regions(s[k..], Plain) == Regions(s, m)[k..]
    decreases |s|
  {
    hide Move, Regions, ViewOf;
    var (n, next) := Move(s, m);
    assert s[..k] + s[k..] == s;
    RegionsStep(s, m);
    ViewStep(s[..k], s[k..], m);
    CodeToken(s, m);
    if k > n {
      assert Regions(s, m)[k] == Regions(s[n..], next)[k - n];
      assert Regions(s, m)[k - 1] == Regions(s[n..], next)[k - 1 - n];
      CodeEnd(s[n..], next, k - n);
      assert s[n..][..k - n] == s[..k][n..] && s[n..][k - n..] == s[k..];
    } else if k == n {
      assert Regions(s, m)[k] == Regions(s[n..], next)[0];
      FirstRegion(s[n..], next);
      assert s[..k][n..] == [];
      ViewNone(s[k..], next);
    }
  }

  /** Two-byte tokens are comments or strings, and code goes on in code or a string. */
  lemma CodeToken(s: Text, m: Region)
    requires s != [] && m.Valid()
    ensures var (n, next) := Move(s, m);
            && (n == 2 ==> IsComment(Covered(m, next)) || Covered(m, next).Quoted?)
            && (!IsComment(Covered(m, next)) ==> next.Plain? || next.Quoted?)
  {
  }

  lemma FirstRegion(s: Text, m: Region)
    requires s != []
    ensures m.Quoted? ==> Regions(s, m)[0] == m
  {
    RegionsStep(s, m);
  }

  /** A text cut off inside a string does not end in code. */
  lemma {:induction false} OpenAtEnd(s: Text, m: Region, k: nat)
    requires m.Valid() && k < |s| && Regions(s, m)[k].Quoted? && !IsQuote(s[k])
    ensures ViewOf(s[..k], [], m).View? && !ViewOf(s[..k], [], m).state.Plain?
    decreases |s|
  {
    hide Move, Regions, ViewOf;
    var a := s[..k];
    var (n, next) := Move(s, m);
    RegionsStep(s, m);
    assert a + [] == a;
    ViewAll(a, m);
    if k == 0 {
      OpenToken(s, m);
      ViewNone([], m);
    } else {
      ViewStep(a, [], m);
      if n > k {
        OpenPair(s, m);
        assert a[1..] == [];
        ViewNone([], m);
      } else {
        CutToken(s, m, k);
        if Move(a, m) == (n, next) {
          assert Regions(s, m)[k] == Regions(s[n..], next)[k - n];
          assert s[n..][..k - n] == a[n..];
          OpenAtEnd(s[n..], next, k - n);
        } else {
          assert a[2..] == [];
          ViewNone([], LineComment);
        }
      }
    }
  }

  lemma OpenToken(s: Text, m: Region)
    requires m.Valid() && s != [] && Covered(m, Move(s, m).1).Quoted? && !IsQuote(s[0])
    ensures m.Quoted?
  {
  }

  lemma OpenPair(s: Text, m: Region)
    requires m.Valid() && |s| > 1 && Move(s, m).0 == 2 && Covered(m, Move(s, m).1).Quoted? && !IsQuote(s[1])
    ensures m.Quoted? && Move(s[..1], m) == (1, m)
  {
  }

  /** Cutting a text after a token can only turn two dashes into a comment. */
  lemma CutToken(s: Text, m: Region, k: nat)
    requires m.Valid() && 0 < k < |s| && Move(s, m).0 <= k
    requires Regions(s, m)[k].Quoted? && !IsQuote(s[k])
    ensures Move(s[..k], m) == Move(s, m) || (k == 2 && Move(s[..k], m) == (2, LineComment))
  {
    hide Regions;
    var a := s[..k];
    RegionsStep(s, m);
    assert k > 2 ==> a[2..][0] == s[2] == s[2..][0];
    if k == 1 {
      assert Regions(s, m)[1] == Regions(s[1..], Move(s, m).1)[0];
      RegionsStep(s[1..], Move(s, m).1);
      OpenToken(s[1..], Move(s, m).1);
    }
  }

  /** A text that ends in code ends a string only with a quote. */
  lemma {:induction false} QuotedEnd(a: Text, m: Region)
    requires m.Valid() && a != [] && Regions(a, m)[|a| - 1].Quoted?
    requires ViewOf(a, [], m).View? && ViewOf(a, [], m).state.Plain?
    ensures IsQuote(a[|a| - 1])
    decreases |a|
  {
    hide Move, Regions, ViewOf;
    var (n, next) := Move(a, m);
    assert a + [] == a;
    RegionsStep(a, m);
    ViewStep(a, [], m);
    if n == |a| {
      assert a[n..] == [];
      ViewNone([], next);
      ClosingToken(a, m);
    } else {
      QuotedEnd(a[n..], next);
    }
  }

  lemma ClosingToken(a: Text, m: Region)
    requires m.Valid() && a != [] && Move(a, m).0 == |a| && Covered(m, Move(a, m).1).Quoted? && Move(a, m).1.Plain?
    ensures IsQuote(a[|a| - 1])
  {
  }

  // ---------- pieces of comments and white space ----------

  predicate Blanks(s: Text, rs: seq<Region>)
    requires |rs| == |s|
  {
    AllSpace(ShowAll(s, rs, COMMENTS_ONLY))
  }

  /** Comments and white space that end in code are read alike whatever follows. */
  lemma {:induction false} BlankContext(p: Text, t: Text, u: Text, m: Region)
    requires m.Valid() && !m.Quoted?
    requires ViewOf(p, t, m).View? && ViewOf(p, t, m).state.Plain? && Blanks(p, ViewOf(p, t, m).regions)
    ensures ViewOf(p, u, m) == ViewOf(p, t, m)
    decreases |p|
  {
    hide Move, ViewOf, ShowAll;
    if p == [] {
      ViewNone(t, m);
      ViewNone(u, m);
    } else {
      ViewStep(p, t, m);
      ViewStep(p, u, m);
      var (n, next) := Move(p + t, m);
      var rest := ViewOf(p[n..], t, next);
      BlankToken(p, t, m);
      if |p| <= 3 {
        BlankShort(p, t, u, m);
      } else {
        ViewContextLong(p, t, u, m);
      }
      BlanksRest(p, n, Fill(n, Covered(m, next)), rest.regions);
      BlankContext(p[n..], t, u, next);
    }
  }

  lemma BlanksRest(p: Text, n: nat, token: seq<Region>, rest: seq<Region>)
    requires |token| == n <= |p| && |rest| == |p| - n && Blanks(p, token + rest)
    ensures Blanks(p[n..], rest)
  {
    hide Show;
    var shown := ShowAll(p, token + rest, COMMENTS_ONLY);
    forall i | 0 <= i < |rest| ensures IsSpace(ShowAll(p[n..], rest, COMMENTS_ONLY)[i]) {
      assert (token + rest)[n + i] == rest[i] && p[n..][i] == p[n + i];
      assert IsSpace(shown[n + i]);
    }
  }

  lemma BlankToken(p: Text, t: Text, m: Region)
    requires m.Valid() && !m.Quoted? && p != []
    requires ViewOf(p, t, m).View? && Blanks(p, ViewOf(p, t, m).regions)
    ensures !Move(p + t, m).1.Quoted?
    ensures m.Plain? && Move(p + t, m).1.Plain? ==> IsGap(p[0])
  {
    hide ViewOf;
    ViewStep(p, t, m);
    assert ViewOf(p, t, m).regions[0] == Covered(m, Move(p + t, m).1);
    assert IsSpace(ShowAll(p, ViewOf(p, t, m).regions, COMMENTS_ONLY)[0]);
  }

  lemma BlankShort(p: Text, t: Text, u: Text, m: Region)
    requires m.Valid() && !m.Quoted? && 1 <= |p| <= 3
    requires ViewOf(p, t, m).View? && ViewOf(p, t, m).state.Plain? && Blanks(p, ViewOf(p, t, m).regions)
    ensures Move(p + u, m) == Move(p + t, m) && TokenWarns(p + u, m) == TokenWarns(p + t, m)
  {
    hide ViewOf, Blanks;
    BlankToken(p, t, m);
    ViewStep(p, t, m);
    var (n, next) := Move(p + t, m);
    if |p| == 1 {
      assert p[n..] == [];
      ViewNone(t, next);
    } else if |p| == 2 {
      assert (p + t)[1] == p[1] == (p + u)[1];
      if n == 2 {
        assert p[2..] == [];
        ViewNone(t, next);
      }
    } else {
      assert (p + t)[1] == p[1] == (p + u)[1] && (p + t)[2] == p[2] == (p + u)[2];
      assert (p + t)[2..][0] == p[2] == (p + u)[2..][0];
      if n == 2 {
        LastByte(p[2..], t, next);
      }
    }
  }

  // ---------- plain text and warnings ----------

  predicate Unremarkable(s: Text) {
    forall i :: 0 <= i < |s| ==> !IsQuote(s[i]) && s[i] != HASH && s[i] != SLASH && s[i] != DASH
  }

  function AllPlain(n: nat): (rs: seq<Region>)
    ensures |rs| == n
  {
    seq(n, i => Plain)
  }

  lemma {:induction false} PlainView(w: Text, follow: Text)
    requires Unremarkable(w)
    ensures ViewOf(w, follow, Plain) == View(AllPlain(|w|), Plain, QUIET)
    decreases |w|
  {
    if w != [] {
      assert (w + follow)[0] == w[0];
      PlainView(w[1..], follow);
      assert [Plain] + AllPlain(|w| - 1) == AllPlain(|w|);
    }
  }

  lemma {:induction false} WarnedJoin(a: Text, follow: Text, m: Region)
    requires ViewOf(a, follow, m).View?
    ensures Warned(a + follow, m) == ViewOf(a, follow, m).seen.Or(Warned(follow, ViewOf(a, follow, m).state))
    decreases |a|
  {
    hide Move, ViewOf, TokenWarns;
    if a == [] {
      ViewNone(follow, m);
      assert a + follow == follow;
    } else {
      var s := a + follow;
      var (n, next) := Move(s, m);
      ViewStep(a, follow, m);
      assert s[n..] == a[n..] + follow;
      WarnedJoin(a[n..], follow, next);
    }
  }

  /** White space at the end of a text hides no warning. */
  lemma {:induction false} GapWarned(a: Text, w: Text, m: Region)
    requires AtGap(w) && m.Valid() && Warned(a + w, m) == QUIET
    ensures Warned(a, m) == QUIET
    decreases |a|
  {
    hide Move, TokenWarns, Warned;
    if a == [] {
      assert Warned([], m) == QUIET by { WarnedNothing(m); }
    } else {
      var s := a + w;
      var (n, next) := Move(s, m);
      GapLookahead(a, w, m);
      WarnedStep(s, m);
      WarnedStep(a, m);
      GapToken(a, w, m);
      if n > |a| {
        assert a[1..] == [];
        WarnedNothing(m);
      } else {
        assert s[n..] == a[n..] + w;
        GapWarned(a[n..], w, next);
      }
    }
  }

  lemma WarnedNothing(m: Region)
    ensures Warned([], m) == QUIET
  {
  }

  lemma WarnedStep(s: Text, m: Region)
    requires s != []
    ensures Warned(s, m) == TokenWarns(s, m).Or(Warned(s[Move(s, m).0..], Move(s, m).1))
  {
  }

  lemma GapToken(a: Text, w: Text, m: Region)
    requires a != [] && AtGap(w) && TokenWarns(a + w, m) == QUIET
    ensures TokenWarns(a, m) == QUIET
  {
    assert forall k :: 0 <= k < |a| ==> (a + w)[k] == a[k];
  }

  /** No string begins within comments and white space. */
  lemma {:induction false} NoStringYet(s: Text, m: Region, k: nat)
    requires m.Valid() && !m.Quoted? && k < |s| && !IsQuote(s[k])
    requires forall i :: 0 <= i < k ==> IsSpace(MaskFrom(s, m, COMMENTS_ONLY)[i])
    ensures !Regions(s, m)[k].Quoted?
    decreases |s|
  {
    hide Move, Regions, MaskFrom;
    var (n, next) := Move(s, m);
    RegionsStep(s, m);
    PlainStart(s, m);
    if k >= n {
      MaskStep(s, m);
      assert IsSpace(MaskFrom(s, m, COMMENTS_ONLY)[0]);
      NoStringYet(s[n..], next, k - n);
    }
  }

  /** The mask of a text is that of its first token and then of the rest. */
  lemma MaskStep(s: Text, m: Region)
    requires s != []
    ensures var (n, next) := Move(s, m);
            && MaskFrom(s, m, COMMENTS_ONLY)[0] == Show(s[0], Covered(m, next), COMMENTS_ONLY)
            && MaskFrom(s, m, COMMENTS_ONLY)[n..] == MaskFrom(s[n..], next, COMMENTS_ONLY)
  {
    hide Move, Regions;
    var (n, next) := Move(s, m);
    RegionsStep(s, m);
    assert s == s[..n] + s[n..];
    ShowJoin(s[..n], Fill(n, Covered(m, next)), s[n..], Regions(s[n..], next), COMMENTS_ONLY);
  }

  /** Outside strings, a string begins with a quote, in one byte. */
  lemma PlainStart(s: Text, m: Region)
    requires s != [] && m.Valid() && !m.Quoted?
    ensures Move(s, m).1.Quoted? ==> IsQuote(s[0]) && Move(s, m).0 == 1 && Covered(m, Move(s, m).1).Quoted?
    ensures Covered(m, Move(s, m).1).Quoted? ==> Move(s, m).1.Quoted?
  {
  }

  /** White space after a text that does not end in code is not code, unless it ends the line. */
  lemma {:induction false} NotCodeAfter(a: Text, w: Text, m: Region)
    requires w != [] && AtGap(w) && w[0] != LF && w[0] != CR && m.Valid()
    requires ViewOf(a, [], m).View? && !ViewOf(a, [], m).state.Plain?
    ensures !Regions(a + w, m)[|a|].Plain?
    decreases |a|
  {
    hide Move, Regions, ViewOf;
    var s := a + w;
    RegionsStep(s, m);
    if a == [] {
      assert s == w;
      ViewNone([], m);
      StaysHidden(w, m);
    } else {
      assert a + [] == a;
      ViewStep(a, [], m);
      GapLookahead(a, w, m);
      var (n, next) := Move(s, m);
      if n > |a| {
        QuotedCover(s, m);
        assert Regions(s, m)[1] == m;
      } else {
        assert s[n..] == a[n..] + w;
        NotCodeAfter(a[n..], w, next);
        assert Regions(s, m)[|a|] == Regions(s[n..], next)[|a| - n];
      }
    }
  }

  lemma StaysHidden(w: Text, m: Region)
    requires w != [] && w[0] != LF && w[0] != CR && !m.Plain?
    ensures !Covered(m, Move(w, m).1).Plain?
  {
  }

  lemma QuotedCover(s: Text, m: Region)
    requires s != [] && m.Quoted?
    ensures Covered(m, Move(s, m).1) == m
  {
  }
}
