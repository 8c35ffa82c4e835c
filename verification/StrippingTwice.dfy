/** Stripping a text that is already stripped: when it changes nothing. */
module StrippingTwice {
  import opened Bytes
  import opened SqlScanner
  import opened SqlContext
  import opened SqlEdges
  import opened AlterClauses
  import opened AlterRescan

  predicate AllKept(cs: seq<Clause>) {
    forall i :: 0 <= i < |cs| ==> Keeps(cs[i])
  }

  /** Every top-level comma is followed by exactly one space, and no other white space stands at a clause's ends. */
  predicate EvenlySpaced(s: Text, masked: Text, lead: Text)
    requires |s| == |masked|
    decreases |s|
  {
    var k := Cut(masked, 0);
    s[..k] == lead + Trim(s[..k]) && (k < |s| ==> EvenlySpaced(s[k + 1..], masked[k + 1..], [SPACE]))
  }

  /**
   * A text is left as it is by stripping if and only if rescanning it finds only clauses that
   * are kept, and the white space at its top-level commas is that of a joined text.
   */
  lemma StrippedFixed(s: Text)
    ensures Stripped(s) == Ok(s) <==>
            AllKept(Pieces(s)) && EvenlySpaced(s, Mask(s, EVERYTHING), [])
  {
    hide Mask, Changes, Join, EvenlySpaced, Keeps, Split;
    var masked := Mask(s, EVERYTHING);
    var cs := Split(s, masked);
    SplitSome(s, masked);
    MaskCommas(s);
    if AllKept(cs) {
      ChangesAll(cs);
      JoinedSpacing(s, masked, []);
    } else if Changes(cs) != [] {
      FewerCommas(s, masked);
    }
  }

  /** So stripping twice is stripping once if and only if that holds of the stripped text. */
  lemma StrippedTwice(body: Text)
    requires Stripped(body).Ok?
    ensures var s := Stripped(body).value;
            Stripped(s) == Stripped(body) <==>
            AllKept(Pieces(s)) && EvenlySpaced(s, Mask(s, EVERYTHING), [])
  {
    hide Stripped, Pieces, Keeps, Mask, EvenlySpaced;
    StrippedFixed(Stripped(body).value);
  }

  /**
   * It fails for `a#`, a line break, `,b(`, a line break and `,LOCK)`: of the stripped text the
   * comment covers `, b(`, so that `LOCK)` is a clause at top level, which stripping drops.
   */
  lemma StrippingTwiceDiffers()
    ensures Stripped(LOST) == Ok(LOST_ONCE) && Stripped(LOST_ONCE) != Stripped(LOST)
  {
    hide Stripped, Pieces, Keeps, Mask, EvenlySpaced;
    LostPieces();
    LostOncePieces();
    StrippedFixed(LOST_ONCE);
  }

  const LOST: Text := [97, HASH, LF, COMMA] + ([98, LPAREN, LF, COMMA] + LOCK + [RPAREN])
  const LOST_ONCE: Text := [97, HASH, COMMA, SPACE] + ([98, LPAREN, LF, COMMA] + LOCK + [RPAREN])

  // ---------- commas ----------

  function Raws(cs: seq<Clause>): seq<Text> {
    seq(|cs|, i requires 0 <= i < |cs| => cs[i].raw)
  }

  function Commas(s: Text): nat {
    if s == [] then 0 else (if s[0] == COMMA then 1 else 0) + Commas(s[1..])
  }

  function AllCommas(ks: seq<Text>): nat {
    if ks == [] then 0 else Commas(ks[0]) + AllCommas(ks[1..])
  }

  lemma {:induction false} CommasJoin(a: Text, b: Text)
    ensures Commas(a + b) == Commas(a) + Commas(b)
  {
    if a == [] {
      assert a + b == b;
    } else {
      assert (a + b)[1..] == a[1..] + b;
      CommasJoin(a[1..], b);
    }
  }

  lemma {:induction false} CommasSpace(w: Text)
    requires AllSpace(w)
    ensures Commas(w) == 0
  {
    if w != [] {
      assert IsSpace(w[0]);
      CommasSpace(w[1..]);
    }
  }

  lemma CommasTrim(s: Text)
    ensures Commas(Trim(s)) == Commas(s)
  {
    hide Trim;
    var before, after := TrimParts(s);
    CommasJoin(before + Trim(s), after);
    CommasJoin(before, Trim(s));
    CommasSpace(before);
    CommasSpace(after);
  }

  lemma {:induction false} JoinCommas(ks: seq<Text>)
    requires ks != []
    ensures Commas(Join(ks)) == AllCommas(ks) + |ks| - 1
    decreases |ks|
  {
    if |ks| == 1 {
      assert ks[1..] == [];
    } else {
      JoinCommas(ks[1..]);
      CommasJoin(ks[0], [COMMA, SPACE] + Join(ks[1..]));
      CommasJoin([COMMA, SPACE], Join(ks[1..]));
      assert [COMMA, SPACE][1..] == [SPACE] && [SPACE][1..] == [];
    }
  }

  /** A text has the commas of its clauses and those between them. */
  lemma {:induction false} SplitCommas(s: Text, masked: Text)
    requires |s| == |masked| && forall i :: 0 <= i < |s| && masked[i] == COMMA ==> s[i] == COMMA
    ensures Commas(s) == AllCommas(Raws(Split(s, masked))) + |Split(s, masked)| - 1
    decreases |s|
  {
    hide Trim, Cut, Commas, Split, AllCommas;
    var k := Cut(masked, 0);
    CommasTrim(s[..k]);
    if k == |s| {
      assert s[..k] == s;
      OnePiece(s, masked);
      CommasFirst(Split(s, masked), []);
      assert AllCommas(Raws([])) == 0 by { NoCommas(); }
    } else {
      var rest := Split(s[k + 1..], masked[k + 1..]);
      SplitStep(s, masked, k);
      SplitCommas(s[k + 1..], masked[k + 1..]);
      assert s == s[..k] + ([COMMA] + s[k + 1..]);
      CommasJoin(s[..k], [COMMA] + s[k + 1..]);
      CommasJoin([COMMA], s[k + 1..]);
      OneComma();
      CommasFirst(Split(s, masked), rest);
    }
  }

  lemma NoCommas()
    ensures AllCommas(Raws([])) == 0
  {
  }

  lemma CommasFirst(cs: seq<Clause>, rest: seq<Clause>)
    requires cs != [] && cs[1..] == rest
    ensures AllCommas(Raws(cs)) == Commas(cs[0].raw) + AllCommas(Raws(rest))
  {
    assert Raws(cs)[1..] == Raws(rest);
  }

  lemma OneComma()
    ensures Commas([COMMA]) == 1
  {
  }

  /** Dropping a clause drops a comma. */
  lemma {:induction false} ChangesCommas(cs: seq<Clause>)
    ensures |Changes(cs)| <= |cs| && AllCommas(Changes(cs)) <= AllCommas(Raws(cs))
    ensures !AllKept(cs) ==> |Changes(cs)| < |cs|
    decreases |cs|
  {
    hide Keeps, Commas;
    if cs == [] {
      assert Raws(cs) == [];
    } else {
      ChangesCommas(cs[1..]);
      assert Raws(cs)[1..] == Raws(cs[1..]);
      assert Changes(cs) == if Keeps(cs[0]) then [cs[0].raw] + Changes(cs[1..]) else Changes(cs[1..]);
      assert AllCommas(Raws(cs)) == Commas(cs[0].raw) + AllCommas(Raws(cs[1..]));
      if Keeps(cs[0]) && !AllKept(cs) {
        var i :| 0 <= i < |cs| && !Keeps(cs[i]);
        assert cs[1..][i - 1] == cs[i];
      }
      assert Keeps(cs[0]) ==> ([cs[0].raw] + Changes(cs[1..]))[1..] == Changes(cs[1..]);
    }
  }

  lemma MaskCommas(s: Text)
    ensures forall i :: 0 <= i < |s| && Mask(s, EVERYTHING)[i] == COMMA ==> s[i] == COMMA
  {
    hide Regions;
  }

  /** A text from which a clause is dropped is not what is left of it. */
  lemma FewerCommas(s: Text, masked: Text)
    requires masked == Mask(s, EVERYTHING)
    requires !AllKept(Split(s, masked)) && Changes(Split(s, masked)) != []
    ensures Join(Changes(Split(s, masked))) != s
  {
    hide Mask, Split, Keeps, Changes, Join, Commas, AllCommas, AllKept;
    MaskCommas(s);
    SplitCommas(s, masked);
    ChangesCommas(Split(s, masked));
    JoinCommas(Changes(Split(s, masked)));
  }

  // ---------- white space ----------

  lemma SplitSome(s: Text, masked: Text)
    requires |s| == |masked|
    ensures Split(s, masked) != []
  {
  }

  lemma {:induction false} ChangesAll(cs: seq<Clause>)
    requires AllKept(cs)
    ensures Changes(cs) == Raws(cs)
    decreases |cs|
  {
    hide Keeps;
    if cs != [] {
      ChangesAll(cs[1..]);
      assert Raws(cs) == [cs[0].raw] + Raws(cs[1..]);
    }
  }

  /** Joining the clauses of a text gives the text exactly if it is evenly spaced. */
  lemma {:induction false} JoinedSpacing(s: Text, masked: Text, lead: Text)
    requires |s| == |masked| && AllSpace(lead) && AllKept(Split(s, masked))
    requires forall i :: 0 <= i < |s| && masked[i] == COMMA ==> s[i] == COMMA
    ensures lead + Join(Raws(Split(s, masked))) == s <==> EvenlySpaced(s, masked, lead)
    decreases |s|
  {
    hide Trim, Cut, Keeps, Split, Join, EvenlySpaced;
    var k := Cut(masked, 0);
    var u := s[..k];
    EvenlyStep(s, masked, lead);
    if k == |s| {
      assert u == s;
      OnePiece(s, masked);
      JoinAlone(Clause(Trim(u), Trim(masked)));
    } else {
      var t, m := s[k + 1..], masked[k + 1..];
      var c, rest := Clause(Trim(u), Trim(masked[..k])), Split(t, m);
      SplitStep(s, masked, k);
      KeptRest(c, rest);
      JoinedSpacing(t, m, [SPACE]);
      SplitSome(t, m);
      JoinFirst([c] + rest, rest);
      Around(s, k, Join(Raws(rest)));
      Aligned(u, lead, t, [SPACE] + Join(Raws(rest)));
    }
  }

  lemma EvenlyStep(s: Text, masked: Text, lead: Text)
    requires |s| == |masked|
    ensures var k := Cut(masked, 0);
            EvenlySpaced(s, masked, lead) <==>
            s[..k] == lead + Trim(s[..k]) && (k < |s| ==> EvenlySpaced(s[k + 1..], masked[k + 1..], [SPACE]))
  {
  }

  lemma JoinAlone(c: Clause)
    ensures Join(Raws([c])) == c.raw
  {
  }

  lemma KeptRest(c: Clause, rest: seq<Clause>)
    requires AllKept([c] + rest)
    ensures c.raw != [] && AllKept(rest)
  {
    assert Keeps(([c] + rest)[0]);
    forall i | 0 <= i < |rest| ensures Keeps(rest[i]) {
      assert ([c] + rest)[i + 1] == rest[i];
    }
  }

  lemma Around(s: Text, k: nat, joined: Text)
    requires k < |s| && s[k] == COMMA
    ensures s == s[..k] + ([COMMA] + s[k + 1..])
    ensures [COMMA, SPACE] + joined == [COMMA] + ([SPACE] + joined)
  {
  }

  lemma JoinFirst(cs: seq<Clause>, rest: seq<Clause>)
    requires cs != [] && cs[1..] == rest && rest != []
    ensures Join(Raws(cs)) == cs[0].raw + ([COMMA, SPACE] + Join(Raws(rest)))
  {
    assert Raws(cs)[1..] == Raws(rest);
  }

  /** A trimmed clause and a comma can only stand where they stand. */
  lemma Aligned(u: Text, lead: Text, t: Text, x: Text)
    requires AllSpace(lead) && Trim(u) != []
    ensures lead + (Trim(u) + ([COMMA] + x)) == u + ([COMMA] + t) <==> u == lead + Trim(u) && x == t
  {
    hide Trim, Leading;
    var c := Trim(u);
    var p, q := TrimParts(u);
    var a, b := c + ([COMMA] + x), c + (q + ([COMMA] + t));
    assert u + ([COMMA] + t) == p + b;
    LeadingUnique(lead, a);
    LeadingUnique(p, b);
    if lead + a == p + b {
      assert a == b && |lead| == |p|;
      assert (lead + a)[..|lead|] == (p + b)[..|p|];
      assert lead == p;
      assert a[|c|..] == [COMMA] + x && b[|c|..] == q + ([COMMA] + t);
      SameAfter(q, x, t);
    }
  }

  lemma SameAfter(q: Text, x: Text, t: Text)
    requires AllSpace(q) && [COMMA] + x == q + ([COMMA] + t)
    ensures q == [] && x == t
  {
    assert q != [] ==> ([COMMA] + x)[0] == q[0] && IsSpace(q[0]);
    assert ([COMMA] + x)[1..] == x && (q + ([COMMA] + t))[1..] == t;
  }

  // ---------- the text whose clause is lost ----------

  lemma {:induction false} LineRegions(c: Text, t: Text)
    requires LF !in c && CR !in c
    ensures Regions(c + t, LineComment) == seq(|c|, i => LineComment) + Regions(t, LineComment)
    decreases |c|
  {
    hide Regions;
    if c == [] {
      assert c + t == t;
    } else {
      assert (c + t)[1..] == c[1..] + t && (c + t)[0] == c[0];
      LineRegions(c[1..], t);
      RegionsStep(c + t, LineComment);
      Associate([LineComment], seq(|c| - 1, i => LineComment), Regions(t, LineComment));
      assert [LineComment] + seq(|c| - 1, i => LineComment) == seq(|c|, i => LineComment);
    }
  }

  /** A letter, a comment to the end of the line, and code. */
  lemma HashRegions(c: Text, r: Text)
    requires LF !in c && CR !in c && Unremarkable(r)
    ensures Regions([97] + ([HASH] + c) + ([LF] + r), Plain) ==
            [Plain] + seq(|c| + 1, i => LineComment) + AllPlain(|r| + 1)
  {
    hide Regions, Unremarkable;
    var t := [LF] + r;
    Gather([97], [HASH], c, t);
    LetterFirst([HASH] + (c + t));
    HashFirst(c, t);
    LineEnds(r);
    Associate([Plain], seq(|c| + 1, i => LineComment), AllPlain(|r| + 1));
  }

  lemma Gather(a: Text, b: Text, c: Text, d: Text)
    ensures a + (b + c) + d == a + (b + (c + d))
  {
  }

  lemma Associate(a: seq<Region>, b: seq<Region>, c: seq<Region>)
    ensures a + (b + c) == a + b + c
  {
  }

  lemma LetterFirst(h: Text)
    ensures Regions([97] + h, Plain) == [Plain] + Regions(h, Plain)
  {
    hide Regions;
    assert ([97] + h)[1..] == h;
    RegionsStep([97] + h, Plain);
  }

  lemma HashFirst(c: Text, t: Text)
    requires LF !in c && CR !in c
    ensures Regions([HASH] + (c + t), Plain) == seq(|c| + 1, i => LineComment) + Regions(t, LineComment)
  {
    hide Regions;
    var h := [HASH] + (c + t);
    assert h[1..] == c + t;
    RegionsStep(h, Plain);
    LineRegions(c, t);
    var x, y := seq(|c|, i => LineComment), Regions(t, LineComment);
    assert [LineComment] + (x + y) == [LineComment] + x + y;
    assert [LineComment] + x == seq(|c| + 1, i => LineComment);
  }

  lemma LineEnds(r: Text)
    requires Unremarkable(r)
    ensures Regions([LF] + r, LineComment) == AllPlain(|r| + 1)
  {
    hide Regions, ViewOf;
    assert ([LF] + r)[1..] == r;
    RegionsStep([LF] + r, LineComment);
    PlainView(r, []);
    ViewAll(r, Plain);
    assert [Plain] + AllPlain(|r|) == AllPlain(|r| + 1);
  }

  lemma HashMask(c: Text, r: Text)
    requires LF !in c && CR !in c && Unremarkable(r)
    requires forall i :: 0 <= i < |r| && IsGap(r[i]) ==> Blank(r[i]) == r[i]
    ensures Mask([97] + ([HASH] + c) + ([LF] + r), EVERYTHING) == [97] + seq(|c| + 1, i => SPACE) + ([LF] + r)
  {
    hide Regions;
    HashRegions(c, r);
  }

  lemma LostPieces()
    ensures Stripped(LOST) == Ok(LOST_ONCE)
  {
    hide Mask, Trim, Split, Cut, IsOnlineClause, Changes, Join;
    var b: Text := [98, LPAREN, LF, COMMA] + LOCK + [RPAREN];
    assert |b| == 9 && b[0] == 98 && b[8] == RPAREN;
    LostMask(b);
    DeepCut();
    hide LOCK;
    FirstCommented(b);
    WholePiece(b);
    NoOnline(b);
    ShortIsNone([97]);
    assert LOST == [97, HASH, LF, COMMA] + b;
    var cs := [Clause([97, HASH], [97]), Clause(b, b)];
    assert Pieces(LOST) == cs;
    TwoChanges(cs);
    assert [97, HASH] + ([COMMA, SPACE] + b) == LOST_ONCE;
  }

  lemma LostMask(b: Text)
    requires b == [98, LPAREN, LF, COMMA] + LOCK + [RPAREN]
    ensures Mask(LOST, EVERYTHING) == [97, SPACE, LF] + ([COMMA] + b)
  {
    hide Mask;
    assert LOST == [97] + ([HASH] + []) + ([LF] + ([COMMA] + b));
    HashMask([], [COMMA] + b);
    assert [97] + seq(1, i => SPACE) + ([LF] + ([COMMA] + b)) == [97, SPACE, LF] + ([COMMA] + b);
  }

  /** The first clause is a letter and a comment; its line break is trimmed. */
  lemma FirstCommented(b: Text)
    ensures Split([97, HASH, LF, COMMA] + b, [97, SPACE, LF] + ([COMMA] + b)) ==
            [Clause([97, HASH], [97])] + Split(b, b)
  {
    hide Trim, Split, Cut;
    var s, m := [97, HASH, LF, COMMA] + b, [97, SPACE, LF] + ([COMMA] + b);
    CutFirst([97, SPACE, LF], b);
    SplitStep(s, m, 3);
    assert s[..3] == [] + [97, HASH] + [LF] && m[..3] == [] + [97] + [SPACE, LF];
    TrimUnique([], [97, HASH], [LF]);
    TrimUnique([], [97], [SPACE, LF]);
    assert s[4..] == b && m[4..] == b;
  }

  /** A trimmed text that is all shown and has no comma at top level is one piece. */
  lemma WholePiece(b: Text)
    requires b != [] && !IsSpace(b[0]) && !IsSpace(b[|b| - 1]) && Cut(b, 0) == |b|
    ensures Split(b, b) == [Clause(b, b)]
  {
    hide Trim, Cut;
    assert b == [] + b + [];
    TrimUnique([], b, []);
    OnePiece(b, b);
  }

  lemma ShortIsNone(s: Text)
    requires |s| < 4
    ensures !IsOnlineClause(s)
  {
    assert |ALGORITHM| == 9 && |LOCK| == 4;
  }

  lemma CutFirst(a: Text, b: Text)
    requires Bland(a)
    ensures Cut(a + ([COMMA] + b), 0) == |a|
  {
    CutBland(a, 0);
    CutJoin(a, [COMMA] + b, 0);
    CutComma(b);
  }

  lemma DeepCut()
    ensures var b := [98, LPAREN, LF, COMMA] + LOCK + [RPAREN]; Cut(b, 0) == |b|
  {
    var a: Text := [98, LPAREN];
    var c: Text := [LF, COMMA] + LOCK;
    assert [98, LPAREN, LF, COMMA] + LOCK + [RPAREN] == a + (c + [RPAREN]);
    assert a[1..] == [LPAREN] && [LPAREN][1..] == [] && Cut([LPAREN], 0) == 1 && DepthAfter([LPAREN], 0) == 1;
    CutDeep(c, 1);
    assert [RPAREN][1..] == [] && Cut([RPAREN], 1) == 1;
    CutJoin(c, [RPAREN], 1);
    CutJoin(a, c + [RPAREN], 0);
  }

  lemma {:induction false} CutDeep(m: Text, depth: nat)
    requires depth > 0 && LPAREN !in m && RPAREN !in m
    ensures Cut(m, depth) == |m| && DepthAfter(m, depth) == depth
  {
    if m != [] {
      assert m[0] in m;
      CutDeep(m[1..], depth);
    }
  }

  lemma NoOnline(s: Text)
    requires s != [] && Upper(s[0]) != ALGORITHM[0] && Upper(s[0]) != LOCK[0]
    ensures !IsOnlineClause(s)
  {
    assert |ALGORITHM| <= |s| ==> UpperText(s[..|ALGORITHM|])[0] == Upper(s[0]);
    assert |LOCK| <= |s| ==> UpperText(s[..|LOCK|])[0] == Upper(s[0]);
  }

  lemma TwoChanges(cs: seq<Clause>)
    requires |cs| == 2 && Keeps(cs[0]) && Keeps(cs[1])
    ensures Changes(cs) != [] && Join(Changes(cs)) == cs[0].raw + ([COMMA, SPACE] + cs[1].raw)
  {
    hide Keeps;
    assert cs[1..][0] == cs[1] && cs[1..][1..] == [];
    assert Changes(cs[1..]) == [cs[1].raw] + Changes(cs[1..][1..]);
    assert Changes(cs) == [cs[0].raw] + Changes(cs[1..]);
    assert Changes(cs) == [cs[0].raw, cs[1].raw];
    assert [cs[0].raw, cs[1].raw][1..] == [cs[1].raw];
  }

  lemma LostOncePieces()
    ensures !AllKept(Pieces(LOST_ONCE))
  {
    hide Mask, Trim, Split, Cut, Keeps;
    var b := LOCK + [RPAREN];
    assert |b| == 5 && b[0] == 76 && b[4] == RPAREN;
    var a: Text := [97, SPACE, SPACE, SPACE, SPACE, SPACE, LF];
    LostOnceMask(b);
    LockDropped();
    CutBlandPart();
    assert LOST_ONCE == [97, HASH, COMMA, SPACE, 98, LPAREN, LF] + ([COMMA] + b);
    hide LOCK, LOST_ONCE;
    CutFirst(a, b);
    SplitStep(LOST_ONCE, a + ([COMMA] + b), 7);
    PastComma([97, HASH, COMMA, SPACE, 98, LPAREN, LF], b);
    PastComma(a, b);
    WholePiece(b);
    assert Pieces(LOST_ONCE)[1] == Clause(b, b);
  }

  lemma PastComma(a: Text, b: Text)
    ensures (a + ([COMMA] + b))[|a| + 1..] == b
  {
  }

  lemma LostOnceMask(b: Text)
    requires b == LOCK + [RPAREN]
    ensures Mask(LOST_ONCE, EVERYTHING) == [97, SPACE, SPACE, SPACE, SPACE, SPACE, LF] + ([COMMA] + b)
  {
    hide Mask;
    var c: Text := [COMMA, SPACE, 98, LPAREN];
    assert LOST_ONCE == [97] + ([HASH] + c) + ([LF] + ([COMMA] + b));
    HashMask(c, [COMMA] + b);
    assert [97] + seq(|c| + 1, i => SPACE) == [97, SPACE, SPACE, SPACE, SPACE, SPACE];
  }

  lemma CutBlandPart()
    ensures Cut(LOCK + [RPAREN], 0) == |LOCK + [RPAREN]|
  {
    CutBland(LOCK, 0);
    assert [RPAREN][1..] == [] && Cut([RPAREN], 0) == 1;
    CutJoin(LOCK, [RPAREN], 0);
  }

  lemma LockDropped()
    ensures var b := LOCK + [RPAREN]; !Keeps(Clause(b, b))
  {
    var b := LOCK + [RPAREN];
    assert b[..|LOCK|] == LOCK && UpperText(LOCK) == LOCK;
  }
}
