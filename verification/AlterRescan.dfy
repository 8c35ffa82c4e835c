/** What the scanner finds in a stripped ALTER body. */
module AlterRescan {
  import opened Bytes
  import opened SqlScanner
  import opened SqlContext
  import opened AlterClauses

  /** How a piece is masked in its context. */
  function Seen(a: Text, follow: Text): Text
    requires ViewOf(a, follow, Plain).View?
  {
    ShowAll(a, ViewOf(a, follow, Plain).regions, EVERYTHING)
  }

  /** A clause that ends in plain code when a comma follows, so that the comma separates. */
  predicate Closed(c: Text) {
    ViewOf(c, [COMMA], Plain).View? && ViewOf(c, [COMMA], Plain).state.Plain?
  }

  /** A non-empty trimmed clause which on its own is one change. */
  predicate Final(c: Text) {
    c != [] && Trim(c) == c && Cut(Mask(c, EVERYTHING), 0) == |c| && !IsOnlineClause(Trim(Mask(c, EVERYTHING)))
  }

  /** A change before a comma: no comma inside separates, and if closed it leaves no parenthesis open. */
  predicate Interior(c: Text) {
    && Final(c)
    && ViewOf(c, [COMMA], Plain).View?
    && var v := ViewOf(c, [COMMA], Plain);
    && (v.state.Plain? || v.state.LineComment?)
    && Cut(Seen(c, [COMMA]), 0) == |c|
    && !IsOnlineClause(Trim(Seen(c, [COMMA])))
    && (v.state.Plain? ==> DepthAfter(Seen(c, [COMMA]), 0) == 0)
  }

  predicate AllSound(ks: seq<Text>) {
    && (forall i :: 0 <= i < |ks| ==> Final(ks[i]))
    && (forall i :: 0 <= i < |ks| - 1 ==> Interior(ks[i]))
  }

  predicate AllClosed(ks: seq<Text>) {
    forall i :: 0 <= i < |ks| - 1 ==> Closed(ks[i])
  }

  // ---------- cutting ----------

  lemma {:induction false} CutJoin(a: Text, b: Text, depth: nat)
    requires Cut(a, depth) == |a|
    ensures Cut(a + b, depth) == |a| + Cut(b, DepthAfter(a, depth))
    ensures DepthAfter(a + b, depth) == DepthAfter(b, DepthAfter(a, depth))
    decreases |a|
  {
    if a == [] {
      assert a + b == b;
    } else {
      assert (a + b)[1..] == a[1..] + b;
      CutJoin(a[1..], b, Nest(a[0], depth));
    }
  }

  lemma {:induction false} CutPart(a: Text, b: Text, depth: nat)
    requires Cut(a + b, depth) >= |a|
    ensures Cut(a, depth) == |a|
    decreases |a|
  {
    if a != [] {
      assert (a + b)[1..] == a[1..] + b;
      CutPart(a[1..], b, Nest(a[0], depth));
    }
  }

  predicate Bland(s: Text) {
    forall i :: 0 <= i < |s| ==> s[i] != COMMA && s[i] != LPAREN && s[i] != RPAREN
  }

  lemma {:induction false} CutBland(s: Text, depth: nat)
    requires Bland(s)
    ensures Cut(s, depth) == |s| && DepthAfter(s, depth) == depth
  {
    if s != [] {
      assert s[0] != COMMA;
      CutBland(s[1..], depth);
    }
  }

  // ---------- keywords ----------

  lemma WordIgnoresTail(q: Text, w: Text, keyword: Text)
    requires w == [] || !IsWord(w[0])
    requires forall i :: 0 <= i < |keyword| ==> IsUpper(keyword[i])
    ensures StartsWithWord(q + w, keyword) == StartsWithWord(q, keyword)
  {
    if |q| >= |keyword| {
      assert (q + w)[..|keyword|] == q[..|keyword|];
    } else if |q + w| >= |keyword| {
      assert UpperText((q + w)[..|keyword|])[|q|] == Upper(w[0]);
    }
  }

  lemma OnlineIgnoresTail(q: Text, w: Text)
    requires w == [] || !IsWord(w[0])
    ensures IsOnlineClause(q + w) == IsOnlineClause(q)
  {
    WordIgnoresTail(q, w, ALGORITHM);
    WordIgnoresTail(q, w, LOCK);
  }

  /** Neither white space around a clause nor dashes or blanks at its end change what it starts with. */
  lemma OnlineTrimmed(s: Text)
    ensures IsOnlineClause(Trim(s)) == IsOnlineClause(TrimLeft(s))
  {
    var p := TrimLeft(s);
    var w := p[Content(p)..];
    assert p == Trim(s) + w;
    assert w != [] ==> IsSpace(w[0]);
    OnlineIgnoresTail(Trim(s), w);
  }

  lemma OnlineDashes(z: Text, w: Text)
    requires w == [DASH, DASH] || w == [SPACE, SPACE] || w == []
    ensures IsOnlineClause(Trim(z + w)) == IsOnlineClause(Trim(z))
  {
    hide IsOnlineClause, Trim;
    OnlineTrimmed(z + w);
    OnlineTrimmed(z);
    var before, p := z[..Leading(z)], TrimLeft(z);
    assert z == before + p;
    if p == [] {
      assert z == before;
      BlankThen(z, w);
      OnlineIgnoresTail([], w);
      assert [] + w == w;
    } else {
      assert z + w == before + (p + w);
      LeadingUnique(before, p + w);
      OnlineIgnoresTail(p, w);
    }
  }

  lemma BlankThen(z: Text, w: Text)
    requires AllSpace(z)
    requires w == [DASH, DASH] || w == [SPACE, SPACE] || w == []
    ensures TrimLeft(z + w) == [] || TrimLeft(z + w) == w
  {
    if w == [DASH, DASH] {
      LeadingUnique(z, w);
    } else {
      assert z + w + [] == z + w;
      LeadingUnique(z + w, []);
    }
  }

  lemma OnlinePadded(before: Text, y: Text, after: Text)
    requires AllSpace(before) && AllSpace(after)
    ensures Trim(before + y + after) == Trim(y)
  {
    hide Trim, AllSpace;
    var b, a := TrimParts(y);
    Regroup(before, b, Trim(y), a, after);
    SpaceJoin(before, b);
    SpaceJoin(a, after);
    TrimUnique(before + b, Trim(y), a + after);
  }

  lemma Regroup(before: Text, b: Text, core: Text, a: Text, after: Text)
    ensures before + (b + core + a) + after == (before + b) + core + (a + after)
  {
  }

  lemma SpaceJoin(a: Text, b: Text)
    requires AllSpace(a) && AllSpace(b)
    ensures AllSpace(a + b)
  {
  }

  // ---------- from the body to its changes ----------

  /** Shown white space is white space, so it holds no comma and no parenthesis. */
  lemma ShownSpace(w: Text, rs: seq<Region>, o: Options)
    requires AllSpace(w) && |rs| == |w|
    ensures AllSpace(ShowAll(w, rs, o)) && Bland(ShowAll(w, rs, o))
  {
  }

  /** The first top-level comma of a body separates two texts that are scanned on their own. */
  lemma FirstPiece(body: Text)
    requires Cut(Mask(body, EVERYTHING), 0) < |body|
    ensures var k := Cut(Mask(body, EVERYTHING), 0);
            && body[k..] == [COMMA] + body[k + 1..]
            && ViewOf(body[..k], body[k..], Plain).View?
            && ViewOf(body[..k], body[k..], Plain).state.Plain?
            && Mask(body, EVERYTHING)[..k] == Seen(body[..k], body[k..])
            && Mask(body, EVERYTHING)[k + 1..] == Mask(body[k + 1..], EVERYTHING)
            && Pieces(body) == [Clause(Trim(body[..k]), Trim(Seen(body[..k], body[k..])))] + Pieces(body[k + 1..])
  {
    hide Trim, Regions, ViewOf, Move, Cut;
    var masked := Mask(body, EVERYTHING);
    var k := Cut(masked, 0);
    FullyMasked(body, k);
    PlainBoundary(body, Plain, k);
    assert body[k..] == [COMMA] + body[k + 1..];
    RegionsStep(body[k..], Plain);
    AfterComma(body[k + 1..]);
    assert body[k..][1..] == body[k + 1..];
    assert Regions(body[k..], Plain)[1..] == Regions(body[k + 1..], Plain);
    assert Regions(body, Plain)[k..][1..] == Regions(body, Plain)[k + 1..];
    assert masked[..k] == ShowAll(body[..k], Regions(body, Plain)[..k], EVERYTHING);
    assert masked[k + 1..] == ShowAll(body[k + 1..], Regions(body, Plain)[k + 1..], EVERYTHING);
  }

  lemma AfterComma(r: Text)
    ensures Move([COMMA] + r, Plain) == (1, Plain)
  {
  }

  /** The last piece has no top-level comma. */
  lemma LastPiece(body: Text)
    requires Cut(Mask(body, EVERYTHING), 0) == |body|
    ensures Pieces(body) == [Clause(Trim(body), Trim(Mask(body, EVERYTHING)))]
  {
    assert body[..|body|] == body && Mask(body, EVERYTHING)[..|body|] == Mask(body, EVERYTHING);
  }

  lemma {:induction false} CutDepth(masked: Text, depth: nat)
    requires Cut(masked, depth) < |masked|
    ensures DepthAfter(masked[..Cut(masked, depth)], depth) == 0
    decreases |masked|
  {
    var k := Cut(masked, depth);
    if k > 0 {
      CutDepth(masked[1..], Nest(masked[0], depth));
      assert masked[..k][1..] == masked[1..][..k - 1];
    }
  }

  /** Two displays that differ at most in a final `--` shown as code or as a comment. */
  predicate DashVariant(y: Text, z: Text) {
    && |y| == |z|
    && (y == z ||
        (|y| >= 2 && y[..|y| - 2] == z[..|y| - 2] && DashesOrBlanks(y[|y| - 2..]) && DashesOrBlanks(z[|y| - 2..])))
  }

  predicate DashesOrBlanks(w: Text) {
    w == [DASH, DASH] || w == [SPACE, SPACE]
  }

  lemma VariantSame(y: Text, z: Text)
    requires DashVariant(y, z)
    ensures Cut(y, 0) == |y| ==> Cut(z, 0) == |z| && DepthAfter(z, 0) == DepthAfter(y, 0)
    ensures IsOnlineClause(Trim(z)) == IsOnlineClause(Trim(y))
  {
    hide Cut, DepthAfter, IsOnlineClause, Trim;
    if y != z {
      var n := |y| - 2;
      var core := y[..n];
      assert y == core + y[n..] && z == core + z[n..];
      OnlineDashes(core, y[n..]);
      OnlineDashes(core, z[n..]);
      if Cut(y, 0) == |y| {
        CutPart(core, y[n..], 0);
        CutBland(y[n..], DepthAfter(core, 0));
        CutBland(z[n..], DepthAfter(core, 0));
        CutJoin(core, y[n..], 0);
        CutJoin(core, z[n..], 0);
      }
    }
  }

  lemma VariantPrefixed(head: Text, y: Text, z: Text)
    requires DashVariant(y, z)
    ensures DashVariant(head + y, head + z)
  {
    if y != z {
      var n := |y| - 2;
      assert (head + y)[..|head| + n] == head + y[..n] && (head + z)[..|head| + n] == head + z[..n];
      assert (head + y)[|head| + n..] == y[n..] && (head + z)[|head| + n..] == z[n..];
    }
  }

  /** Before a comma a text is shown as it is at the end, but for a final `--`. */
  lemma {:induction false} CommaOrEnd(c: Text, m: Region)
    requires m.Valid() && ViewOf(c, [COMMA], m).View?
    ensures DashVariant(
              ShowAll(c, ViewOf(c, [COMMA], m).regions, EVERYTHING), ShowAll(c, Regions(c, m), EVERYTHING))
    decreases |c|
  {
    hide Move, ViewOf, Regions, ShowAll, DashVariant;
    if c == [] {
      ViewNone([COMMA], m);
      VariantEnds();
    } else {
      ViewStep(c, [COMMA], m);
      RegionsStep(c, m);
      if c == [DASH, DASH] && m.Plain? {
        DashesBeforeComma();
        ShowDashes();
        VariantEnds();
      } else {
        CommaOrEndToken(c, m);
        var (n, next) := Move(c, m);
        var r := Covered(m, next);
        CommaOrEnd(c[n..], next);
        VariantToken(c, n, r, ViewOf(c[n..], [COMMA], next).regions, Regions(c[n..], next));
      }
    }
  }

  lemma VariantEnds()
    ensures DashVariant([], []) && DashVariant([DASH, DASH], [SPACE, SPACE])
  {
  }

  lemma VariantToken(c: Text, n: nat, r: Region, vs: seq<Region>, rs: seq<Region>)
    requires 1 <= n <= 2 && n <= |c| && |vs| == |rs| == |c| - n
    requires DashVariant(ShowAll(c[n..], vs, EVERYTHING), ShowAll(c[n..], rs, EVERYTHING))
    ensures DashVariant(ShowAll(c, Fill(n, r) + vs, EVERYTHING), ShowAll(c, Fill(n, r) + rs, EVERYTHING))
  {
    hide ShowAll, DashVariant;
    assert c == c[..n] + c[n..];
    ShowJoin(c[..n], Fill(n, r), c[n..], vs, EVERYTHING);
    ShowJoin(c[..n], Fill(n, r), c[n..], rs, EVERYTHING);
    VariantPrefixed(
      ShowAll(c[..n], Fill(n, r), EVERYTHING), ShowAll(c[n..], vs, EVERYTHING), ShowAll(c[n..], rs, EVERYTHING));
  }

  lemma ShowDashes()
    ensures ShowAll([DASH, DASH], [Plain, Plain], EVERYTHING) == [DASH, DASH]
    ensures ShowAll([DASH, DASH], [LineComment, LineComment], EVERYTHING) == [SPACE, SPACE]
  {
  }

  lemma CommaOrEndToken(c: Text, m: Region)
    requires c != [] && m.Valid() && Move(c + [COMMA], m).0 <= |c|
    requires !(c == [DASH, DASH] && m.Plain?)
    ensures Move(c + [COMMA], m) == Move(c, m)
  {
    assert |c| > 2 ==> (c + [COMMA])[2..][0] == c[2..][0];
  }

  lemma DashesBeforeComma()
    ensures ViewOf([DASH, DASH], [COMMA], Plain) == View([Plain, Plain], Plain, QUIET)
    ensures Regions([DASH, DASH], Plain) == [LineComment, LineComment]
  {
    var s: Text := [DASH, DASH];
    assert (s + [COMMA])[2..] == [COMMA];
    assert s[1..] == [DASH] && [DASH] + [COMMA] == [DASH, COMMA] && s[1..][1..] == [];
    assert ViewOf(s[1..], [COMMA], Plain) == View([Plain], Plain, QUIET);
    assert s[2..] == [];
  }

  /** Where a line comment is open before white space, a comma finds it open or plain code. */
  lemma {:induction false} CommaState(c: Text, u: Text, m: Region)
    requires m.Valid() && u != [] && AtGap(u)
    requires ViewOf(c, u, m).View? && (ViewOf(c, u, m).state.Plain? || ViewOf(c, u, m).state.LineComment?)
    ensures ViewOf(c, [COMMA], m).View?
    ensures ViewOf(c, [COMMA], m).state.Plain? || ViewOf(c, [COMMA], m).state.LineComment?
    decreases |c|
  {
    hide Move, ViewOf;
    if c == [] {
      ViewNone([COMMA], m);
      ViewNone(u, m);
    } else {
      ViewStep(c, [COMMA], m);
      ViewStep(c, u, m);
      if c == [DASH, DASH] && m.Plain? {
        DashesBeforeComma();
      } else {
        CommaStateToken(c, u, m);
        CommaState(c[Move(c + u, m).0..], u, Move(c + u, m).1);
      }
    }
  }

  lemma CommaStateToken(c: Text, u: Text, m: Region)
    requires c != [] && m.Valid() && u != [] && AtGap(u) && Move(c + u, m).0 <= |c|
    requires !(c == [DASH, DASH] && m.Plain?)
    ensures Move(c + [COMMA], m) == Move(c + u, m)
  {
    assert (c + u)[|c|] == u[0];
    assert forall k :: 0 <= k < |c| ==> (c + u)[k] == c[k] && (c + [COMMA])[k] == c[k];
    assert |c| > 2 ==> (c + [COMMA])[2..][0] == c[2] && (c + u)[2..][0] == c[2];
  }

  /** How a piece is shown when it is taken apart into white space, a clause and white space. */
  lemma PaddedPiece(before: Text, c: Text, after: Text, follow: Text)
    requires AllSpace(before) && AllSpace(after)
    requires ViewOf(before + (c + after), follow, Plain).View?
    requires ViewOf(before + (c + after), follow, Plain).state.Plain?
    ensures ViewOf(c, after + follow, Plain).View?
    ensures var v := ViewOf(c, after + follow, Plain);
            && (v.state.Plain? || (v.state.LineComment? && after != []))
            && exists sb, sa :: AllSpace(sb) && AllSpace(sa) && Bland(sb) && Bland(sa)
                                && Seen(before + (c + after), follow) == sb + Seen(c, after + follow) + sa
  {
    hide ViewOf, Move, ShowAll;
    ViewSpace(before, (c + after) + follow);
    ViewJoin(before, c + after, follow, Plain);
    var w := ViewOf(c + after, follow, Plain);
    SpaceTail(c, after, follow, Plain);
    ViewJoin(c, after, follow, Plain);
    var v := ViewOf(c, after + follow, Plain);
    var z := ViewOf(after, follow, v.state);
    if after == [] {
      ViewNone(follow, v.state);
    }
    var rb := seq(|before|, i => Plain);
    ShowJoin(before, rb, c + after, w.regions, EVERYTHING);
    ShowJoin(c, v.regions, after, z.regions, EVERYTHING);
    ShownSpace(before, rb, EVERYTHING);
    ShownSpace(after, z.regions, EVERYTHING);
    var sb, sa := ShowAll(before, rb, EVERYTHING), ShowAll(after, z.regions, EVERYTHING);
    assert sb + (Seen(c, after + follow) + sa) == sb + Seen(c, after + follow) + sa;
  }

  /** A shown text with shown white space around it keeps its commas, depth and first word. */
  lemma PaddedCut(sb: Text, y: Text, sa: Text)
    requires AllSpace(sb) && AllSpace(sa) && Bland(sb) && Bland(sa)
    requires Cut(sb + y + sa, 0) == |sb + y + sa|
    ensures Cut(y, 0) == |y| && DepthAfter(y, 0) == DepthAfter(sb + y + sa, 0)
    ensures Trim(sb + y + sa) == Trim(y)
  {
    hide Trim;
    assert sb + y + sa == sb + (y + sa);
    CutBland(sb, 0);
    CutJoin(sb, y + sa, 0);
    CutPart(y, sa, 0);
    CutJoin(y, sa, 0);
    CutBland(sa, DepthAfter(y, 0));
    OnlinePadded(sb, y, sa);
  }

  /** A change before a comma of the body is one in any later text. */
  lemma InteriorClause(x: Text, r: Text)
    requires ViewOf(x, [COMMA] + r, Plain).View? && ViewOf(x, [COMMA] + r, Plain).state.Plain?
    requires Cut(Seen(x, [COMMA] + r), 0) == |x| && DepthAfter(Seen(x, [COMMA] + r), 0) == 0
    requires Keeps(Clause(Trim(x), Trim(Seen(x, [COMMA] + r))))
    ensures Interior(Trim(x))
  {
    hide ViewOf, Move, ShowAll, Cut, DepthAfter, Trim, IsOnlineClause, Regions;
    var before, after := TrimParts(x);
    var c, follow := Trim(x), [COMMA] + r;
    assert before + (c + after) == x;
    PaddedPiece(before, c, after, follow);
    var y := Seen(c, after + follow);
    var sb, sa :| AllSpace(sb) && AllSpace(sa) && Bland(sb) && Bland(sa) && Seen(x, follow) == sb + y + sa;
    PaddedCut(sb, y, sa);
    var v := ViewOf(c, after + follow, Plain);
    if after == [] {
      assert after + follow == follow;
      CommaContext(c, r, Plain);
    } else {
      assert (after + follow)[0] == after[0];
      CommaState(c, after + follow, Plain);
      ViewRegions(c, after + follow, Plain);
      GapContext(c, after + follow, Plain);
      assert y == Mask(c, EVERYTHING);
    }
    CommaOrEnd(c, Plain);
    VariantSame(Seen(c, [COMMA]), Mask(c, EVERYTHING));
    VariantSame(Mask(c, EVERYTHING), Seen(c, [COMMA]));
    TrimTwice(x);
  }

  lemma TrimTwice(x: Text)
    ensures Trim(Trim(x)) == Trim(x)
  {
    var before, after := TrimParts(x);
    assert [] + Trim(x) + [] == Trim(x);
    TrimUnique([], Trim(x), []);
  }

  /** A change at the end of the body is one at the end of any text. */
  lemma FinalClause(x: Text)
    requires Cut(Mask(x, EVERYTHING), 0) == |x|
    requires Keeps(Clause(Trim(x), Trim(Mask(x, EVERYTHING))))
    ensures Final(Trim(x))
  {
    hide ViewOf, Move, ShowAll, Cut, DepthAfter, Trim, IsOnlineClause, Regions;
    var before, after := TrimParts(x);
    var c := Trim(x);
    assert before + (c + after) == x;
    ViewSpace(before, c + after);
    ViewRegions(before, c + after, Plain);
    GapContext(c, after, Plain);
    var rb, rs := seq(|before|, i => Plain), Regions(c + after, Plain);
    ShowJoin(before, rb, c + after, rs, EVERYTHING);
    assert rs == Regions(c, Plain) + rs[|c|..];
    ShowJoin(c, Regions(c, Plain), after, rs[|c|..], EVERYTHING);
    ShownSpace(before, rb, EVERYTHING);
    ShownSpace(after, rs[|c|..], EVERYTHING);
    var sb, y, sa := ShowAll(before, rb, EVERYTHING), Mask(c, EVERYTHING), ShowAll(after, rs[|c|..], EVERYTHING);
    assert sb + (y + sa) == sb + y + sa;
    PaddedCut(sb, y, sa);
    TrimTwice(x);
  }

  /** Every kept clause is a change by itself, and all but the last stand before a comma. */
  lemma {:induction false} ChangesSound(body: Text)
    ensures AllSound(Changes(Pieces(body)))
    decreases |body|
  {
    hide ViewOf, Move, ShowAll, Cut, DepthAfter, Trim, IsOnlineClause, Regions, Final, Keeps, Split;
    var masked := Mask(body, EVERYTHING);
    var k := Cut(masked, 0);
    if k == |body| {
      LastPiece(body);
      assert Pieces(body)[1..] == [];
      if Keeps(Pieces(body)[0]) {
        FinalClause(body);
      }
    } else {
      FirstPiece(body);
      ChangesSound(body[k + 1..]);
      CutDepth(masked, 0);
      assert masked == masked[..k] + masked[k..];
      CutPart(masked[..k], masked[k..], 0);
      var c := Pieces(body)[0];
      if Keeps(c) {
        InteriorClause(body[..k], body[k + 1..]);
      }
      assert Pieces(body)[1..] == Pieces(body[k + 1..]);
    }
  }

  // ---------- from the changes back to clauses ----------

  /** A space in front of a text changes none of its clauses. */
  lemma SpaceInFront(r: Text)
    ensures Pieces([SPACE] + r) == Pieces(r)
  {
    hide Mask, Trim, Cut;
    var s, masked := [SPACE] + r, Mask(r, EVERYTHING);
    SpaceMask(r);
    var k := Cut(masked, 0);
    CutSpace(masked);
    assert ([SPACE] + masked)[..k + 1] == [SPACE] + masked[..k] && s[..k + 1] == [SPACE] + r[..k];
    TrimSpace(r[..k]);
    TrimSpace(masked[..k]);
    if k < |r| {
      assert s[k + 2..] == r[k + 1..] && ([SPACE] + masked)[k + 2..] == masked[k + 1..];
    }
  }

  lemma SpaceMask(r: Text)
    ensures Mask([SPACE] + r, EVERYTHING) == [SPACE] + Mask(r, EVERYTHING)
  {
    hide Move, Regions, ViewOf, ShowAll;
    ViewSpace([SPACE], r);
    ViewRegions([SPACE], r, Plain);
    assert seq(1, i => Plain) == [Plain];
    ShowJoin([SPACE], [Plain], r, Regions(r, Plain), EVERYTHING);
    ShowOne(SPACE);
    ShowOne(COMMA);
  }

  lemma ShowOne(b: Byte)
    ensures b == SPACE || b == COMMA ==> ShowAll([b], [Plain], EVERYTHING) == [b]
  {
  }

  lemma CommaMask(r: Text)
    ensures Regions([COMMA] + r, Plain) == [Plain] + Regions(r, Plain)
    ensures Mask([COMMA] + r, EVERYTHING) == [COMMA] + Mask(r, EVERYTHING)
  {
    hide Move, Regions, ViewOf, ShowAll;
    var s := [COMMA] + r;
    AfterComma(r);
    RegionsStep(s, Plain);
    assert s[1..] == r;
    ShowJoin([COMMA], [Plain], r, Regions(r, Plain), EVERYTHING);
    ShowOne(COMMA);
  }

  lemma CutSpace(masked: Text)
    ensures Cut([SPACE] + masked, 0) == 1 + Cut(masked, 0)
  {
    assert ([SPACE] + masked)[1..] == masked;
  }

  lemma TrimSpace(y: Text)
    ensures Trim([SPACE] + y) == Trim(y)
  {
    assert [SPACE] + y + [] == [SPACE] + y;
    OnlinePadded([SPACE], y, []);
  }

  /** A closed change followed by `, ` is the first clause, and the rest is read on its own. */
  lemma ClosedHead(c: Text, r: Text)
    requires Interior(c) && Closed(c)
    ensures Pieces(c + ([COMMA, SPACE] + r)) == [Clause(c, Trim(Seen(c, [COMMA])))] + Pieces(r)
  {
    hide ViewOf, Move, Cut, DepthAfter, Trim, IsOnlineClause, Regions, Split, ShowAll;
    var tail := [SPACE] + r;
    var s, y := c + ([COMMA] + tail), Seen(c, [COMMA]);
    assert [COMMA, SPACE] + r == [COMMA] + tail;
    CommaContext(c, tail, Plain);
    ViewRegions(c, [COMMA] + tail, Plain);
    ShowJoin(c, ViewOf(c, [COMMA], Plain).regions, [COMMA] + tail, Regions([COMMA] + tail, Plain), EVERYTHING);
    CommaMask(tail);
    var masked, rest := Mask(s, EVERYTHING), Mask(tail, EVERYTHING);
    assert masked == y + ([COMMA] + rest);
    CutJoin(y, [COMMA] + rest, 0);
    CutComma(rest);
    assert s[..|c|] == c && s[|c| + 1..] == tail && masked[..|c|] == y && masked[|c| + 1..] == rest;
    SplitStep(s, masked, |c|);
    SpaceInFront(r);
  }

  lemma SplitStep(body: Text, masked: Text, k: nat)
    requires |body| == |masked| && k == Cut(masked, 0) && k < |body|
    ensures Split(body, masked) == [Clause(Trim(body[..k]), Trim(masked[..k]))] + Split(body[k + 1..], masked[k + 1..])
  {
    hide Trim, Cut;
  }

  lemma CutComma(m: Text)
    ensures Cut([COMMA] + m, 0) == 0
  {
  }

  /** A change that is not closed swallows the comma after it. */
  lemma OpenHead(c: Text, r: Text)
    requires Interior(c) && !Closed(c)
    ensures var cs := Pieces(c + ([COMMA, SPACE] + r)); |cs[0].raw| > |c|
  {
    hide ViewOf, Move, DepthAfter, IsOnlineClause, Regions, Cut, ShowAll, Trim;
    var tail := [SPACE] + r;
    var s, y := c + ([COMMA] + tail), Seen(c, [COMMA]);
    assert [COMMA, SPACE] + r == [COMMA] + tail;
    CommaContext(c, tail, Plain);
    ViewRegions(c, [COMMA] + tail, Plain);
    var rs := Regions([COMMA] + tail, LineComment);
    ShowJoin(c, ViewOf(c, [COMMA], Plain).regions, [COMMA] + tail, rs, EVERYTHING);
    CommentedComma(tail);
    var masked, rest := Mask(s, EVERYTHING), ShowAll([COMMA] + tail, rs, EVERYTHING);
    assert masked == y + rest;
    CutJoin(y, rest, 0);
    ShowComment([COMMA] + tail, rs);
    CutNotHere(rest, DepthAfter(y, 0));
    var k := Cut(masked, 0);
    TrimFirst(c);
    assert s[..k][0] == c[0] && s[..k][|c|] == COMMA;
    TrimKeeps(s[..k], |c|);
  }

  lemma ShowComment(t: Text, rs: seq<Region>)
    requires t != [] && |rs| == |t| && rs[0] == LineComment && t[0] == COMMA
    ensures ShowAll(t, rs, EVERYTHING)[0] == SPACE
  {
  }

  lemma CutNotHere(m: Text, depth: nat)
    requires m != [] && m[0] != COMMA
    ensures Cut(m, depth) > 0
  {
  }

  /** Trimming keeps everything between two bytes that are not white space. */
  lemma TrimKeeps(s: Text, i: nat)
    requires i < |s| && !IsSpace(s[0]) && !IsSpace(s[i])
    ensures |Trim(s)| > i
  {
    hide Trim;
    var before, after := TrimParts(s);
    var core := Trim(s);
  }

  lemma TrimFirst(c: Text)
    requires c != [] && Trim(c) == c
    ensures !IsSpace(c[0])
  {
    var before, after := TrimParts(c);
  }

  lemma CommentedComma(r: Text)
    ensures Regions([COMMA] + r, LineComment)[0] == LineComment
  {
  }

  lemma {:induction false} PresentAll(cs: seq<Clause>)
    requires forall i :: 0 <= i < |cs| ==> Keeps(cs[i])
    ensures Changes(cs) == Present(cs)
  {
    if cs != [] {
      PresentAll(cs[1..]);
    }
  }

  /**
   * Rescanning the joined changes finds exactly those changes as top-level clauses,
   * in order, if and only if every change but the last ends in plain code before its comma.
   */
  lemma {:induction false} RescanJoined(ks: seq<Text>)
    requires ks != [] && AllSound(ks)
    ensures Present(Pieces(Join(ks))) == ks <==> AllClosed(ks)
    ensures AllClosed(ks) ==> Changes(Pieces(Join(ks))) == ks
    decreases |ks|
  {
    hide ViewOf, Move, DepthAfter, IsOnlineClause, Regions, Cut, Trim, Mask, Pieces, Closed, ShowAll;
    if |ks| == 1 {
      JoinOne(ks[0]);
    } else {
      var c, rest := ks[0], ks[1..];
      assert Join(ks) == c + ([COMMA, SPACE] + Join(rest));
      assert AllSound(rest);
      assert AllClosed(ks) <==> Closed(c) && AllClosed(rest) by {
        forall i | 0 <= i < |rest| - 1 ensures rest[i] == ks[i + 1] {}
      }
      if Closed(c) {
        ClosedHead(c, Join(rest));
        RescanJoined(rest);
        var cs := Pieces(Join(ks));
        assert cs[1..] == Pieces(Join(rest));
        assert Present(cs) == [c] + Present(cs[1..]);
        assert ([c] + Present(cs[1..]))[1..] == Present(cs[1..]);
      } else {
        OpenHead(c, Join(rest));
      }
    }
  }

  lemma JoinOne(c: Text)
    requires Final(c)
    ensures Present(Pieces(c)) == [c] && Changes(Pieces(c)) == [c]
  {
    hide Trim, Mask, IsOnlineClause, Cut;
    LastPiece(c);
    assert Pieces(c)[1..] == [];
  }

  // ---------- the theorems ----------

  /**
   * Rescanning a stripped body and splitting it at top-level commas gives exactly the
   * original clauses that are not ALGORITHM or LOCK clauses, trimmed and in order, if and
   * only if each of them but the last ends in plain code.  Then stripping is idempotent; for
   * that the condition is sufficient, not necessary (`StrippingTwice` has the exact one).
   */
  lemma StrippedClauses(body: Text)
    requires Stripped(body).Ok?
    ensures var ks, s := Changes(Pieces(body)), Stripped(body).value;
            && (Present(Pieces(s)) == ks <==> AllClosed(ks))
            && (AllClosed(ks) ==> Stripped(s) == Stripped(body))
  {
    hide Pieces, AllClosed;
    ChangesSound(body);
    RescanJoined(Changes(Pieces(body)));
  }

  predicate NoLineComment(body: Text) {
    LineComment !in Regions(body, Plain)
  }

  /** So it is for every body without line comments. */
  lemma StrippedWithoutLineComments(body: Text)
    requires NoLineComment(body) && Stripped(body).Ok?
    ensures var s := Stripped(body).value;
            Present(Pieces(s)) == Changes(Pieces(body)) && Stripped(s) == Stripped(body)
  {
    hide Pieces, AllClosed;
    ChangesClosed(body);
    StrippedClauses(body);
  }

  lemma {:induction false} ChangesClosed(body: Text)
    requires NoLineComment(body)
    ensures AllClosed(Changes(Pieces(body)))
    decreases |body|
  {
    hide ViewOf, Move, ShowAll, Cut, DepthAfter, Trim, IsOnlineClause, Regions, Keeps, Split, Closed, NoLineComment;
    var masked := Mask(body, EVERYTHING);
    var k := Cut(masked, 0);
    if k == |body| {
      LastPiece(body);
      assert Pieces(body)[1..] == [];
    } else {
      FirstPiece(body);
      var x, r := body[..k], body[k + 1..];
      assert body == x + ([COMMA] + r);
      NoLineCommentParts(x, r);
      ChangesClosed(r);
      ClosedClause(x, r);
      assert Pieces(body)[1..] == Pieces(r);
    }
  }

  /** Without line comments in the whole there are none in the parts. */
  lemma NoLineCommentParts(x: Text, r: Text)
    requires NoLineComment(x + ([COMMA] + r))
    requires ViewOf(x, [COMMA] + r, Plain).View? && ViewOf(x, [COMMA] + r, Plain).state.Plain?
    ensures NoLineComment(r) && LineComment !in ViewOf(x, [COMMA] + r, Plain).regions
  {
    hide ViewOf, Regions, Mask;
    var rs := Regions(x + ([COMMA] + r), Plain);
    ViewRegions(x, [COMMA] + r, Plain);
    CommaMask(r);
    var v := ViewOf(x, [COMMA] + r, Plain).regions;
    forall i | 0 <= i < |r| ensures Regions(r, Plain)[i] in rs {
      assert Regions(r, Plain)[i] == rs[|x| + 1 + i];
    }
    forall i | 0 <= i < |x| ensures v[i] in rs {
      assert v[i] == rs[i];
    }
  }

  lemma ClosedClause(x: Text, r: Text)
    requires ViewOf(x, [COMMA] + r, Plain).View? && ViewOf(x, [COMMA] + r, Plain).state.Plain?
    requires LineComment !in ViewOf(x, [COMMA] + r, Plain).regions
    ensures Closed(Trim(x))
  {
    hide ViewOf, Move, Trim;
    var before, after := TrimParts(x);
    var c, follow := Trim(x), [COMMA] + r;
    assert before + (c + after) == x;
    PaddedPiece(before, c, after, follow);
    ViewSpace(before, (c + after) + follow);
    ViewJoin(before, c + after, follow, Plain);
    ViewJoin(c, after, follow, Plain);
    var v, vx := ViewOf(c, after + follow, Plain), ViewOf(x, follow, Plain);
    forall i | 0 <= i < |c| ensures !v.regions[i].LineComment? {
      assert v.regions[i] == vx.regions[|before| + i];
    }
    if v.state.LineComment? {
      LineState(c, after + follow, Plain);
    }
    assert after != [] ==> (after + follow)[0] == after[0];
    ViewContext(c, after + follow, [COMMA], Plain);
  }

  /** A text after which a line comment is open has a byte in it. */
  lemma {:induction false} LineState(a: Text, follow: Text, m: Region)
    requires ViewOf(a, follow, m).View? && ViewOf(a, follow, m).state.LineComment? && !m.LineComment?
    ensures LineComment in ViewOf(a, follow, m).regions
    decreases |a|
  {
    if a != [] {
      var (n, next) := Move(a + follow, m);
      if next.LineComment? {
        assert Fill(n, Covered(m, next))[0] == LineComment;
        assert ViewOf(a, follow, m).regions[0] == LineComment;
      } else {
        LineState(a[n..], follow, next);
      }
    }
  }

  lemma CommentedMask()
    ensures Mask([97, HASH, LF, COMMA, 98], EVERYTHING) == [97, SPACE, LF, COMMA, 98]
  {
    hide ShowAll, Regions;
    var body: Text := [97, HASH, LF, COMMA, 98];
    assert body[1..] == [HASH, LF, COMMA, 98] && body[1..][1..] == [LF, COMMA, 98];
    assert [LF, COMMA, 98][1..] == [COMMA, 98] && [COMMA, 98][1..] == [98] && [98][1..] == [];
    RegionsStep([98], Plain);
    RegionsStep([COMMA, 98], Plain);
    RegionsStep([LF, COMMA, 98], LineComment);
    RegionsStep(body[1..], Plain);
    RegionsStep(body, Plain);
    assert Regions(body, Plain) == [Plain, LineComment, Plain, Plain, Plain];
    CommentedShown();
  }

  lemma CommentedShown()
    ensures ShowAll([97, HASH, LF, COMMA, 98], [Plain, LineComment, Plain, Plain, Plain], EVERYTHING)
         == [97, SPACE, LF, COMMA, 98]
  {
  }

  lemma CommentedCut()
    ensures Cut([97, SPACE, LF, COMMA, 98], 0) == 3 && Cut([98], 0) == 1
  {
    var masked: Text := [97, SPACE, LF, COMMA, 98];
    assert masked[1..] == [SPACE, LF, COMMA, 98] && masked[1..][1..] == [LF, COMMA, 98];
    assert [LF, COMMA, 98][1..] == [COMMA, 98] && [98][1..] == [];
    assert Cut([COMMA, 98], 0) == 0 && Cut([LF, COMMA, 98], 0) == 1 && Cut(masked[1..], 0) == 2;
    assert Cut([], 0) == 0;
  }

  lemma CommentedPieces()
    ensures Pieces([97, HASH, LF, COMMA, 98]) == [Clause([97, HASH], [97]), Clause([98], [98])]
  {
    hide Mask, Cut, Trim;
    var body: Text := [97, HASH, LF, COMMA, 98];
    var masked: Text := [97, SPACE, LF, COMMA, 98];
    CommentedMask();
    CommentedCut();
    assert body[..3] == [] + [97, HASH] + [LF] && masked[..3] == [] + [97] + [SPACE, LF];
    TrimUnique([], [97, HASH], [LF]);
    TrimUnique([], [97], [SPACE, LF]);
    assert [98] == [] + [98] + [] && [98][..1] == [98];
    TrimUnique([], [98], []);
    SplitStep(body, masked, 3);
    assert body[4..] == [98] && masked[4..] == [98];
    assert Split([98], [98]) == [Clause([98], [98])];
  }

  lemma CommentedExample()
    ensures Changes(Pieces([97, HASH, LF, COMMA, 98])) == [[97, HASH], [98]]
    ensures ViewOf([97, HASH], [COMMA], Plain) == View([Plain, LineComment], LineComment, QUIET)
  {
    hide Pieces;
    CommentedPieces();
    var cs := [Clause([97, HASH], [97]), Clause([98], [98])];
    assert |ALGORITHM| == 9 && |LOCK| == 4;
    assert cs[1..] == [Clause([98], [98])] && cs[1..][1..] == [];
    assert Changes(cs[1..]) == [[98]];
    var a: Text := [97, HASH];
    assert a[1..] == [HASH] && a[1..][1..] == [];
    assert ViewOf([HASH], [COMMA], Plain) == View([LineComment], LineComment, QUIET);
  }

  /** Joined, the second clause has become part of the comment. */
  lemma CommentedAgain()
    ensures var s: Text := [97, HASH, COMMA, SPACE, 98]; Pieces(s) == [Clause(s, [97])] && Changes(Pieces(s)) == [s]
  {
    hide Mask, Trim, Cut, Split, Changes;
    var s: Text := [97, HASH, COMMA, SPACE, 98];
    var masked: Text := [97, SPACE, SPACE, SPACE, SPACE];
    AgainMask();
    OneCut();
    assert s == [] + s + [] && masked == [] + [97] + [SPACE, SPACE, SPACE, SPACE];
    TrimUnique([], s, []);
    TrimUnique([], [97], [SPACE, SPACE, SPACE, SPACE]);
    OnePiece(s, masked);
    OneChange(s);
  }

  lemma AgainMask()
    ensures Mask([97, HASH, COMMA, SPACE, 98], EVERYTHING) == [97, SPACE, SPACE, SPACE, SPACE]
  {
    hide ShowAll, Regions;
    var s: Text := [97, HASH, COMMA, SPACE, 98];
    assert s[1..] == [HASH, COMMA, SPACE, 98] && s[1..][1..] == [COMMA, SPACE, 98];
    assert [COMMA, SPACE, 98][1..] == [SPACE, 98] && [SPACE, 98][1..] == [98] && [98][1..] == [];
    RegionsStep([98], LineComment);
    RegionsStep([SPACE, 98], LineComment);
    RegionsStep([COMMA, SPACE, 98], LineComment);
    RegionsStep(s[1..], Plain);
    RegionsStep(s, Plain);
    assert Regions(s, Plain) == [Plain, LineComment, LineComment, LineComment, LineComment];
    CommentShown();
  }

  lemma CommentShown()
    ensures var rs := [Plain, LineComment, LineComment, LineComment, LineComment];
            ShowAll([97, HASH, COMMA, SPACE, 98], rs, EVERYTHING) == [97, SPACE, SPACE, SPACE, SPACE]
  {
  }

  lemma OneCut()
    ensures Cut([97, SPACE, SPACE, SPACE, SPACE], 0) == 5
  {
    var t: Text := [97, SPACE, SPACE, SPACE, SPACE];
    assert t[1..] == [SPACE, SPACE, SPACE, SPACE] && t[1..][1..] == [SPACE, SPACE, SPACE];
    assert [SPACE, SPACE, SPACE][1..] == [SPACE, SPACE] && [SPACE, SPACE][1..] == [SPACE] && [SPACE][1..] == [];
    assert Cut([SPACE, SPACE], 0) == 2;
    assert Cut([SPACE, SPACE, SPACE], 0) == 3 && Cut(t[1..], 0) == 4;
  }

  lemma OnePiece(s: Text, masked: Text)
    requires |s| == |masked| == Cut(masked, 0)
    ensures Split(s, masked) == [Clause(Trim(s), Trim(masked))]
  {
    hide Trim, Cut;
    assert s[..|s|] == s && masked[..|s|] == masked;
  }

  lemma OneChange(raw: Text)
    requires raw != []
    ensures Changes([Clause(raw, [97])]) == [raw]
  {
    var cs := [Clause(raw, [97])];
    assert cs[1..] == [];
    assert |ALGORITHM| == 9 && |LOCK| == 4;
  }

  /**
   * Without that condition it fails: of `a#`, a line break, `,b`, trimming eats the break that
   * ended the comment.  Stripping that body is idempotent all the same.
   */
  lemma LineCommentSwallows()
    ensures var body: Text := [97, HASH, LF, COMMA, 98];
            && Stripped(body) == Ok([97, HASH, COMMA, SPACE, 98])
            && Present(Pieces(Stripped(body).value)) != Changes(Pieces(body))
            && Stripped(Stripped(body).value) == Stripped(body)
  {
    hide Pieces;
    var body, s: Text := [97, HASH, LF, COMMA, 98], [97, HASH, COMMA, SPACE, 98];
    CommentedExample();
    CommentedAgain();
    assert [[97, HASH], [98]][1..] == [[98]];
    assert Join([[97, HASH], [98]]) == s && Join([s]) == s;
    assert !Closed([97, HASH]);
    assert !AllClosed([[97, HASH], [98]]) by {
      NotAllClosed([97, HASH], [98]);
    }
    StrippedClauses(body);
  }

  lemma NotAllClosed(c: Text, d: Text)
    requires !Closed(c)
    ensures !AllClosed([c, d])
  {
    hide Closed;
    assert [c, d][0] == c;
  }
}
