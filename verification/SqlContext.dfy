/**
 * Scanning a piece of a longer text.  These lemmas say when cutting, joining
 * or extending SQL text leaves the scanner's view of the pieces unchanged.
 */
module SqlContext {
  import opened Bytes
  import opened SqlScanner

  /** The view of a piece `a` that is followed by other text; `Straddles` if a token crosses its end. */
  datatype View = Straddles | View(regions: seq<Region>, state: Region, seen: Warnings)

  function ViewOf(a: Text, follow: Text, m: Region): (v: View)
    ensures v.View? ==> |v.regions| == |a|
  {
    if a == [] then View([], m, QUIET) else
      var s := a + follow;
      var (n, next) := Move(s, m);
      if n > |a| then Straddles
      else Prefixed(Fill(n, Covered(m, next)), TokenWarns(s, m), ViewOf(a[n..], follow, next))
  }

  function Fill(n: nat, r: Region): (rs: seq<Region>)
    requires 1 <= n <= 2
    ensures |rs| == n && rs[0] == r && rs[n - 1] == r
  {
    if n == 1 then [r] else [r, r]
  }

  /** A view with one more token in front. */
  function Prefixed(token: seq<Region>, seen: Warnings, v: View): View {
    if v.Straddles? then v
    else View(token + v.regions, v.state, seen.Or(v.seen))
  }

  /** Two consecutive views make one. */
  function Joined(v: View, w: View): View
    requires v.View?
  {
    if w.Straddles? then w else Prefixed(v.regions, v.seen, w)
  }

  lemma JoinPrefixed(token: seq<Region>, seen: Warnings, v: View, w: View)
    requires v.View?
    ensures Joined(Prefixed(token, seen, v), w) == Prefixed(token, seen, Joined(v, w))
  {
    if w.View? {
      assert (token + v.regions) + w.regions == token + (v.regions + w.regions);
    }
  }

  lemma RegionsStep(s: Text, m: Region)
    requires s != []
    ensures var (n, next) := Move(s, m); Regions(s, m) == Fill(n, Covered(m, next)) + Regions(s[n..], next)
  {
  }

  lemma ViewStep(a: Text, follow: Text, m: Region)
    requires a != []
    ensures var (n, next) := Move(a + follow, m);
            ViewOf(a, follow, m) ==
            if n > |a| then Straddles
            else Prefixed(Fill(n, Covered(m, next)), TokenWarns(a + follow, m), ViewOf(a[n..], follow, next))
  {
  }

  lemma {:induction false} ViewAll(s: Text, m: Region)
    ensures ViewOf(s, [], m).View?
    ensures ViewOf(s, [], m).regions == Regions(s, m)
    ensures ViewOf(s, [], m).seen == Warned(s, m)
    decreases |s|
  {
    if s != [] {
      var (n, next) := Move(s, m);
      assert s + [] == s;
      ViewAll(s[n..], next);
    }
  }

  lemma {:induction false} ViewJoin(a: Text, b: Text, follow: Text, m: Region)
    requires ViewOf(a, b + follow, m).View?
    ensures var v := ViewOf(a, b + follow, m); ViewOf(a + b, follow, m) == Joined(v, ViewOf(b, follow, v.state))
    decreases |a|
  {
    if a == [] {
      assert a + b == b;
      assert Joined(ViewOf(a, b + follow, m), ViewOf(b, follow, m)) == ViewOf(b, follow, m);
    } else {
      var s := a + (b + follow);
      assert a + b + follow == s;
      var (n, next) := Move(s, m);
      assert (a + b)[n..] == a[n..] + b;
      ViewJoin(a[n..], b, follow, next);
      var v, w := ViewOf(a[n..], b + follow, next), ViewOf(b, follow, ViewOf(a, b + follow, m).state);
      JoinPrefixed(Fill(n, Covered(m, next)), TokenWarns(s, m), v, w);
    }
  }

  /** Text that cannot extend a token ending just before it. */
  predicate Harmless(t: Text) {
    t == [] || (t[0] != STAR && t[0] != DASH && !IsQuote(t[0]))
  }

  /** The same after a given piece, whose last byte a quote must not repeat. */
  predicate Follows(a: Text, t: Text) {
    t == [] || (t[0] != STAR && t[0] != DASH && (a != [] && IsQuote(t[0]) ==> a[|a| - 1] != t[0]))
  }

  predicate EndsDashes(a: Text) {
    |a| >= 2 && a[|a| - 2] == DASH && a[|a| - 1] == DASH
  }

  /** What follows a piece that ends in plain code does not matter, but for a final `--`. */
  lemma {:induction false} ViewContext(a: Text, t: Text, u: Text, m: Region)
    requires m.Valid() && ViewOf(a, t, m).View? && ViewOf(a, t, m).state.Plain?
    requires Follows(a, t) && Follows(a, u)
    requires AtGap(t) || !AtGap(u) || !EndsDashes(a)
    ensures ViewOf(a, u, m) == ViewOf(a, t, m)
    decreases |a|
  {
    if a != [] {
      if |a| <= 3 {
        ViewContextShort(a, t, u, m);
      } else {
        ViewContextLong(a, t, u, m);
      }
      var (n, next) := Move(a + t, m);
      assert EndsDashes(a[n..]) ==> EndsDashes(a);
      ViewContext(a[n..], t, u, next);
    }
  }

  /** A token looks at no more than four bytes. */
  lemma ViewContextLong(a: Text, t: Text, u: Text, m: Region)
    requires |a| > 3
    ensures Move(a + u, m) == Move(a + t, m)
    ensures TokenWarns(a + u, m) == TokenWarns(a + t, m)
  {
    assert forall k :: 0 <= k < 4 ==> (a + t)[k] == a[k] && (a + u)[k] == a[k];
    assert (a + t)[2..][0] == a[2] && (a + u)[2..][0] == a[2];
  }

  /** The same for a short piece, whose first token may look past it. */
  lemma ViewContextShort(a: Text, t: Text, u: Text, m: Region)
    requires 1 <= |a| <= 3
    requires m.Valid() && ViewOf(a, t, m).View? && ViewOf(a, t, m).state.Plain?
    requires Follows(a, t) && Follows(a, u)
    requires AtGap(t) || !AtGap(u) || !EndsDashes(a)
    ensures Move(a + u, m) == Move(a + t, m)
    ensures TokenWarns(a + u, m) == TokenWarns(a + t, m)
  {
    hide Move, ViewOf, TokenWarns, Follows;
    if |a| == 1 {
      ViewContextOne(a, t, u, m);
    } else if |a| == 2 {
      ViewContextTwo(a, t, u, m);
    } else {
      ViewContextThree(a, t, u, m);
    }
  }

  lemma ViewContextThree(a: Text, t: Text, u: Text, m: Region)
    requires |a| == 3
    requires m.Valid() && ViewOf(a, t, m).View? && ViewOf(a, t, m).state.Plain?
    ensures Move(a + u, m) == Move(a + t, m)
    ensures TokenWarns(a + u, m) == TokenWarns(a + t, m)
  {
    hide ViewOf;
    ViewStep(a, t, m);
    var (n, next) := Move(a + t, m);
    assert (a + t)[1] == a[1] == (a + u)[1] && (a + t)[2] == a[2] == (a + u)[2];
    assert (a + t)[2..][0] == a[2] && (a + u)[2..][0] == a[2];
    if n == 2 {
      LastByte(a[2..], t, next);
    }
  }

  lemma ViewContextOne(a: Text, t: Text, u: Text, m: Region)
    requires |a| == 1
    requires m.Valid() && ViewOf(a, t, m).View? && ViewOf(a, t, m).state.Plain?
    requires Follows(a, t) && Follows(a, u)
    ensures Move(a + u, m) == Move(a + t, m)
    ensures TokenWarns(a + u, m) == TokenWarns(a + t, m)
  {
    assert t != [] ==> (a + t)[1] == t[0];
    assert u != [] ==> (a + u)[1] == u[0];
    assert a[Move(a + t, m).0..] == [];
  }

  lemma ViewContextTwo(a: Text, t: Text, u: Text, m: Region)
    requires |a| == 2
    requires m.Valid() && ViewOf(a, t, m).View? && ViewOf(a, t, m).state.Plain?
    requires Follows(a, t) && Follows(a, u)
    requires AtGap(t) || !AtGap(u) || !EndsDashes(a)
    ensures Move(a + u, m) == Move(a + t, m)
    ensures TokenWarns(a + u, m) == TokenWarns(a + t, m)
  {
    assert (a + t)[2..] == t && (a + u)[2..] == u;
    assert (a + t)[1] == a[1] == (a + u)[1];
    if Move(a + t, m).0 == 2 {
      assert a[2..] == [];
    }
  }

  /** A block comment does not end in a single byte. */
  lemma LastByte(a: Text, t: Text, m: Region)
    requires |a| == 1
    requires ViewOf(a, t, m).View? && ViewOf(a, t, m).state.Plain?
    ensures !m.BlockComment?
  {
    var (n, next) := Move(a + t, m);
    assert a[1..] == [];
    assert ViewOf(a[1..], t, next) == View([], next, QUIET);
  }

  /** White space in plain code is plain. */
  lemma {:induction false} ViewSpace(w: Text, follow: Text)
    requires AllSpace(w)
    ensures ViewOf(w, follow, Plain) == View(seq(|w|, i => Plain), Plain, QUIET)
    decreases |w|
  {
    if w != [] {
      assert (w + follow)[0] == w[0];
      ViewSpace(w[1..], follow);
      assert [Plain] + seq(|w| - 1, i => Plain) == seq(|w|, i => Plain);
    }
  }

  /** White space does not leave a string or a block comment. */
  lemma {:induction false} SpaceStays(w: Text, follow: Text, m: Region)
    requires AllSpace(w) && m.Valid() && (m.Quoted? || m.BlockComment?)
    ensures ViewOf(w, follow, m).View? && ViewOf(w, follow, m).state == m
    decreases |w|
  {
    if w != [] {
      assert (w + follow)[0] == w[0];
      SpaceStays(w[1..], follow, m);
    }
  }

  /** Trailing white space of a piece that ends in plain code can only close a line comment. */
  lemma {:induction false} SpaceTail(c: Text, w: Text, follow: Text, m: Region)
    requires AllSpace(w) && m.Valid()
    requires ViewOf(c + w, follow, m).View? && ViewOf(c + w, follow, m).state.Plain?
    ensures ViewOf(c, w + follow, m).View?
    ensures var state := ViewOf(c, w + follow, m).state; state.Plain? || state.LineComment?
    decreases |c|
  {
    hide Move, ViewOf;
    if c == [] {
      assert c + w == w;
      ViewNone(w + follow, m);
      if m.Quoted? || m.BlockComment? {
        SpaceStays(w, follow, m);
      }
    } else {
      var s := c + (w + follow);
      assert c + w + follow == s;
      var (n, next) := Move(s, m);
      ViewStep(c + w, follow, m);
      ViewStep(c, w + follow, m);
      SpaceStraddle(c, w, follow, m);
      assert (c + w)[n..] == c[n..] + w;
      SpaceTail(c[n..], w, follow, next);
    }
  }

  lemma ViewNone(follow: Text, m: Region)
    ensures ViewOf([], follow, m) == View([], m, QUIET)
  {
  }

  /** Only an escape inside a string takes white space along. */
  lemma SpaceStraddle(c: Text, w: Text, follow: Text, m: Region)
    requires c != [] && AllSpace(w) && m.Valid()
    requires ViewOf(c + w, follow, m).View? && ViewOf(c + w, follow, m).state.Plain?
    ensures Move(c + w + follow, m).0 <= |c|
  {
    var (n, next) := Move(c + w + follow, m);
    if n > |c| {
      assert (c + w + follow)[0] == c[0] && (c + w + follow)[1] == w[0];
      assert m.Quoted? && next == m;
      assert (c + w)[2..] == w[1..];
      SpaceStays(w[1..], follow, m);
      assert false;
    }
  }

  /** The start of a byte of plain code is a token boundary in plain state. */
  lemma {:induction false} PlainBoundary(s: Text, m: Region, k: nat)
    requires k < |s| && Regions(s, m)[k].Plain? && s[k] != LF && s[k] != CR
    ensures ViewOf(s[..k], s[k..], m).View? && ViewOf(s[..k], s[k..], m).state.Plain?
    ensures ViewOf(s[..k], s[k..], m).regions == Regions(s, m)[..k]
    ensures Regions(s[k..], Plain) == Regions(s, m)[k..]
    decreases |s|
  {
    hide Move, Regions, ViewOf;
    var (n, next) := Move(s, m);
    assert s[..k] + s[k..] == s;
    RegionsStep(s, m);
    if k == 0 {
      MovePlain(s, m);
      assert s[..k] == [] && s[k..] == s;
      ViewNone(s, m);
    } else if k < n {
      MovePlain(s, m);
      assert false;
    } else {
      assert Regions(s, m)[k] == Regions(s[n..], next)[k - n];
      assert s[n..][..k - n] == s[..k][n..] && s[n..][k - n..] == s[k..];
      PlainBoundary(s[n..], next, k - n);
      ViewStep(s[..k], s[k..], m);
    }
  }

  /** Plain tokens are single bytes, read in plain state unless they end a line comment. */
  lemma MovePlain(s: Text, m: Region)
    requires s != [] && Covered(m, Move(s, m).1).Plain?
    ensures Move(s, m) == (1, Plain)
    ensures m.Plain? || (m.LineComment? && (s[0] == LF || s[0] == CR))
  {
  }

  /** Nothing after a comma matters to the text before it. */
  lemma {:induction false} CommaContext(a: Text, r: Text, m: Region)
    ensures ViewOf(a, [COMMA] + r, m) == ViewOf(a, [COMMA], m)
    decreases |a|
  {
    if a != [] {
      var s, t := a + ([COMMA] + r), a + [COMMA];
      assert forall k :: 0 <= k < |t| ==> s[k] == t[k];
      assert |a| > 1 ==> s[2..][0] == t[2..][0];
      CommaLookahead(a, r, m);
      var (n, next) := Move(t, m);
      if n <= |a| {
        CommaContext(a[n..], r, next);
      }
    }
  }

  lemma CommaLookahead(a: Text, r: Text, m: Region)
    requires a != []
    ensures Move(a + ([COMMA] + r), m) == Move(a + [COMMA], m)
    ensures TokenWarns(a + ([COMMA] + r), m) == TokenWarns(a + [COMMA], m)
  {
    var s, t := a + ([COMMA] + r), a + [COMMA];
    assert s == t + r;
    assert |t| > 2 ==> s[2..][0] == t[2..][0];
  }

  /** What a text's bytes belong to is the same before white space as at the end. */
  lemma {:induction false} GapContext(a: Text, w: Text, m: Region)
    requires AtGap(w) && m.Valid()
    ensures Regions(a + w, m)[..|a|] == Regions(a, m)
    decreases |a|
  {
    if a != [] {
      var s := a + w;
      var (n, next) := Move(s, m);
      GapLookahead(a, w, m);
      if n > |a| {
        assert Regions(a, m) == [m];
      } else {
        assert s[n..] == a[n..] + w;
        GapContext(a[n..], w, next);
        assert Regions(s, m) == Fill(n, Covered(m, next)) + Regions(s[n..], next);
      }
    }
  }

  lemma GapLookahead(a: Text, w: Text, m: Region)
    requires a != [] && AtGap(w) && m.Valid()
    ensures Move(a + w, m).0 > |a| ==> |a| == 1 && m.Quoted? && Move(a, m) == (1, m) && Covered(m, Move(a, m).1) == m
    ensures Move(a + w, m).0 > |a| ==> Move(a + w, m).1 == m
    ensures Move(a + w, m).0 <= |a| ==> Move(a, m) == Move(a + w, m)
  {
    var s := a + w;
    assert forall k :: 0 <= k < |a| ==> s[k] == a[k];
    assert w != [] ==> s[|a|] == w[0];
    assert |a| == 2 ==> s[2..] == w && a[2..] == [];
    assert |a| > 2 ==> s[2..][0] == a[2] && a[2..][0] == a[2];
  }

  /** The regions of a piece are those of the whole text. */
  lemma {:induction false} ViewRegions(a: Text, follow: Text, m: Region)
    requires ViewOf(a, follow, m).View?
    ensures Regions(a + follow, m) == ViewOf(a, follow, m).regions + Regions(follow, ViewOf(a, follow, m).state)
    decreases |a|
  {
    hide Move, Regions, ViewOf;
    if a == [] {
      ViewNone(follow, m);
      assert a + follow == follow;
    } else {
      var s := a + follow;
      var (n, next) := Move(s, m);
      ViewStep(a, follow, m);
      RegionsStep(s, m);
      assert s[n..] == a[n..] + follow;
      ViewRegions(a[n..], follow, next);
      var v := ViewOf(a[n..], follow, next);
      assert Fill(n, Covered(m, next)) + (v.regions + Regions(follow, v.state)) ==
             Fill(n, Covered(m, next)) + v.regions + Regions(follow, v.state);
    }
  }

  lemma ShowJoin(a: Text, ra: seq<Region>, b: Text, rb: seq<Region>, o: Options)
    requires |ra| == |a| && |rb| == |b|
    ensures ShowAll(a + b, ra + rb, o) == ShowAll(a, ra, o) + ShowAll(b, rb, o)
  {
  }
}
