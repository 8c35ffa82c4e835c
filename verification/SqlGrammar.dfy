/**
 * What a MySQL text consists of, told from its bytes: comments, quoted texts
 * and code.  The scanner's regions are those of this grammar.
 */
module SqlGrammar {
  import opened Bytes
  import opened SqlScanner
  import opened SqlContext
  import opened SqlEdges
  import opened Quotes

  // ---------- the grammar ----------

  predicate EndsLine(b: Byte) {
    b == 10 || b == 13
  }

  predicate SpaceOrControl(b: Byte) {
    b <= 32 || b == 127
  }

  /** From `#`, or two dashes before white space or the end, to the end of the line. */
  predicate LineText(x: Text, rest: Text) {
    && x != [] && (forall i :: 0 <= i < |x| ==> !EndsLine(x[i])) && (rest == [] || EndsLine(rest[0]))
    && (|| x[0] == HASH
        || (&& |x| >= 2 && x[0] == DASH && x[1] == DASH
            && (|x + rest| == 2 || SpaceOrControl((x + rest)[2]))))
  }

  predicate NoEnd(s: Text) {
    forall k :: 0 <= k < |s| - 1 ==> !(s[k] == STAR && s[k + 1] == SLASH)
  }

  /** From `/*` to the first `*/` after it, or to the end if there is none. */
  predicate BlockText(x: Text, rest: Text) {
    && |x| >= 2 && x[0] == SLASH && x[1] == STAR
    && (|| (|x| >= 4 && x[|x| - 2] == STAR && x[|x| - 1] == SLASH && NoEnd(x[2..|x| - 1]))
        || (rest == [] && NoEnd(x[2..])))
  }

  predicate Quotes3(b: Byte) {
    b == 39 || b == 34 || b == 96
  }

  /** A byte that begins no comment and no quoted text. */
  predicate CodeText(s: Text) {
    && s != [] && !Quotes3(s[0]) && s[0] != HASH
    && !(|s| > 1 && s[0] == SLASH && s[1] == STAR)
    && !(|s| > 1 && s[0] == DASH && s[1] == DASH && (|s| == 2 || SpaceOrControl(s[2])))
  }

  /** The piece `x` of a text, and what its bytes belong to; backslashes escape in all quotes but backticks. */
  predicate IsPiece(x: Text, rest: Text, r: Region) {
    match r
    case LineComment => LineText(x, rest)
    case BlockComment => BlockText(x, rest)
    case Quoted(q) => Quotes3(q) && QuotedText(x, rest, q, q != BACKTICK)
    case Plain => |x| == 1 && CodeText(x + rest)
  }

  function Same(n: nat, r: Region): (rs: seq<Region>)
    ensures |rs| == n
  {
    seq(n, i => r)
  }

  // ---------- the scanner reads each piece ----------

  lemma SameMore(k: nat, n: nat, r: Region, rs: seq<Region>)
    ensures Same(k, r) + (Same(n, r) + rs) == Same(k + n, r) + rs
  {
  }

  lemma FillIs(n: nat, r: Region)
    requires 1 <= n <= 2
    ensures Fill(n, r) == Same(n, r)
  {
  }

  /** One token in front of a run of the same region. */
  lemma RunStep(s: Text, m: Region, r: Region, n: nat, rs: seq<Region>)
    requires s != [] && Covered(m, Move(s, m).1) == r
    requires Regions(s[Move(s, m).0..], Move(s, m).1) == Same(n, r) + rs
    ensures Regions(s, m) == Same(Move(s, m).0 + n, r) + rs
  {
    hide Regions, Move, Same;
    RegionsStep(s, m);
    FillIs(Move(s, m).0, r);
    SameMore(Move(s, m).0, n, r, rs);
  }

  lemma {:induction false} LineRun(c: Text, rest: Text)
    requires (forall i :: 0 <= i < |c| ==> !EndsLine(c[i])) && (rest == [] || EndsLine(rest[0]))
    ensures Regions(c + rest, LineComment) == Same(|c|, LineComment) + Regions(rest, Plain)
    decreases |c|
  {
    hide Regions, Same;
    if c == [] {
      assert c + rest == rest;
      LineOver(rest);
    } else {
      var s := c + rest;
      assert s[1..] == c[1..] + rest && s[0] == c[0];
      LineRun(c[1..], rest);
      RunStep(s, LineComment, LineComment, |c| - 1, Regions(rest, Plain));
    }
  }

  lemma LineOver(rest: Text)
    requires rest == [] || EndsLine(rest[0])
    ensures Regions(rest, LineComment) == Same(0, LineComment) + Regions(rest, Plain)
  {
    hide Regions;
    if rest != [] {
      RegionsStep(rest, LineComment);
      RegionsStep(rest, Plain);
    } else {
      assert Regions([], LineComment) == [] && Regions([], Plain) == [] by { NoRegions(); }
    }
  }

  lemma NoRegions()
    ensures forall m: Region :: Regions([], m) == []
  {
  }

  lemma {:induction false} BlockRun(c: Text, rest: Text)
    requires NoEnd(c + [STAR])
    ensures Regions(c + ([STAR, SLASH] + rest), BlockComment) == Same(|c| + 2, BlockComment) + Regions(rest, Plain)
    decreases |c|
  {
    hide Regions, Same;
    var s := c + ([STAR, SLASH] + rest);
    if c == [] {
      assert s[2..] == rest && s[0] == STAR && s[1] == SLASH;
      NoneMore(BlockComment, Regions(rest, Plain));
      RunStep(s, BlockComment, BlockComment, 0, Regions(rest, Plain));
    } else {
      assert s[1..] == c[1..] + ([STAR, SLASH] + rest) && s[0] == c[0];
      assert s[0] == (c + [STAR])[0] && s[1] == (c + [STAR])[1];
      assert forall k :: 0 <= k < |c| ==> (c[1..] + [STAR])[k] == (c + [STAR])[k + 1];
      BlockRun(c[1..], rest);
      RunStep(s, BlockComment, BlockComment, |c| + 1, Regions(rest, Plain));
    }
  }

  lemma {:induction false} BlockOpen(c: Text)
    requires NoEnd(c)
    ensures Regions(c, BlockComment) == Same(|c|, BlockComment) + []
    decreases |c|
  {
    hide Regions, Same;
    if c == [] {
      NoRegions();
    } else {
      assert forall k :: 0 <= k < |c| - 1 ==> c[1..][k] == c[k + 1];
      BlockOpen(c[1..]);
      RunStep(c, BlockComment, BlockComment, |c| - 1, []);
    }
  }

  /** The rest of a quoted text that is closed. */
  lemma {:induction false} QuoteRun(c: Text, rest: Text, q: Byte)
    requires Quotes3(q) && Inside(c, q, q != BACKTICK) && (rest == [] || rest[0] != q)
    ensures Regions(c + ([q] + rest), Quoted(q)) == Same(|c| + 1, Quoted(q)) + Regions(rest, Plain)
    decreases |c|
  {
    hide Regions, Same, Inside, Move;
    var s := c + ([q] + rest);
    if c == [] {
      assert s == [q] + rest;
      QuoteClose(rest, q);
    } else {
      QuoteMove(c, [q] + rest, q);
      var n := Move(s, Quoted(q)).0;
      InsideLess(c, n, q, q != BACKTICK);
      assert s[n..] == c[n..] + ([q] + rest);
      QuoteRun(c[n..], rest, q);
      RunStep(s, Quoted(q), Quoted(q), |c| - n + 1, Regions(rest, Plain));
    }
  }

  lemma QuoteClose(rest: Text, q: Byte)
    requires Quotes3(q) && (rest == [] || rest[0] != q)
    ensures Regions([q] + rest, Quoted(q)) == Same(1, Quoted(q)) + Regions(rest, Plain)
  {
    hide Regions, Same;
    var s := [q] + rest;
    assert s[1..] == rest && s[0] == q && (rest != [] ==> s[1] == rest[0]);
    NoneMore(Quoted(q), Regions(rest, Plain));
    RunStep(s, Quoted(q), Quoted(q), 0, Regions(rest, Plain));
  }

  lemma NoneMore(r: Region, rs: seq<Region>)
    ensures Same(0, r) + rs == rs
  {
  }

  /** Inside a quoted text the scanner takes a byte, or a pair. */
  lemma QuoteMove(c: Text, t: Text, q: Byte)
    requires c != [] && Quotes3(q) && Inside(c, q, q != BACKTICK) && t != [] && t[0] == q
    ensures var (n, next) := Move(c + t, Quoted(q));
            && next == Quoted(q) && n <= |c|
            && (n == 1 ==> c[0] != q && !(q != BACKTICK && c[0] == BACKSLASH))
            && (n == 2 ==> (c[0] == q && c[1] == q) || (q != BACKTICK && c[0] == BACKSLASH))
  {
    hide Inside;
    var s := c + t;
    assert s[0] == c[0] && s[1] == if |c| > 1 then c[1] else t[0];
    if c[0] == q {
      InsideQuote(c, q, q != BACKTICK);
    } else if q != BACKTICK && c[0] == BACKSLASH && |c| == 1 {
      assert c == [BACKSLASH];
      InsideOne(BACKSLASH, q, true);
    }
  }

  /** What is left of a quoted text that is never closed; at the end a backslash may escape nothing. */
  predicate OpenRest(c: Text, q: Byte) {
    || Inside(c, q, q != BACKTICK)
    || (q != BACKTICK && c != [] && c[|c| - 1] == BACKSLASH && Inside(c[..|c| - 1], q, true))
  }

  lemma {:induction false} QuoteOpen(c: Text, q: Byte)
    requires Quotes3(q) && OpenRest(c, q)
    ensures Regions(c, Quoted(q)) == Same(|c|, Quoted(q)) + []
    decreases |c|
  {
    hide Regions, Same, OpenRest;
    if c == [] {
      NoRegions();
    } else {
      OpenMove(c, q);
      var n := Move(c, Quoted(q)).0;
      QuoteOpen(c[n..], q);
      RunStep(c, Quoted(q), Quoted(q), |c| - n, []);
    }
  }

  lemma OpenMove(c: Text, q: Byte)
    requires c != [] && Quotes3(q) && OpenRest(c, q)
    ensures var (n, next) := Move(c, Quoted(q)); next == Quoted(q) && OpenRest(c[n..], q)
  {
    hide Inside;
    var e := q != BACKTICK;
    var (n, next) := Move(c, Quoted(q));
    NothingInside(q, e);
    if Inside(c, q, e) {
      if c[0] == q {
        InsideQuote(c, q, e);
      }
      if |c| > 1 || !(e && c[0] == BACKSLASH) {
        InsideLess(c, n, q, e);
      }
    } else {
      var d := c[..|c| - 1];
      if d != [] {
        assert d[0] == c[0];
        if c[0] == q {
          InsideQuote(d, q, e);
        }
        if |d| == 1 && c[0] == BACKSLASH {
          assert d == [BACKSLASH];
          InsideOne(BACKSLASH, q, e);
        }
        InsideLess(d, n, q, e);
        assert d[n..] == c[n..][..|c[n..]| - 1];
      }
    }
  }

  lemma LineMove(x: Text, rest: Text)
    requires LineText(x, rest)
    ensures var n := if x[0] == HASH then 1 else 2;
            && Move(x + rest, Plain) == (n, LineComment) && n <= |x| && (x + rest)[n..] == x[n..] + rest
            && (forall i :: 0 <= i < |x[n..]| ==> !EndsLine(x[n..][i]))
  {
    var s := x + rest;
    assert s[0] == x[0] && (|x| > 1 ==> s[1] == x[1]) && (|s| > 2 ==> s[2..][0] == s[2]);
  }

  lemma LineRead(x: Text, rest: Text)
    requires LineText(x, rest)
    ensures Regions(x + rest, Plain) == Same(|x|, LineComment) + Regions(rest, Plain)
  {
    hide Regions, Same, Move;
    LineMove(x, rest);
    var n := if x[0] == HASH then 1 else 2;
    LineRun(x[n..], rest);
    RunStep(x + rest, Plain, LineComment, |x| - n, Regions(rest, Plain));
  }

  lemma BlockRead(x: Text, rest: Text)
    requires BlockText(x, rest)
    ensures Regions(x + rest, Plain) == Same(|x|, BlockComment) + Regions(rest, Plain)
  {
    hide Regions, Same, NoEnd;
    var s := x + rest;
    assert s[0] == x[0] && s[1] == x[1] && s[2..] == x[2..] + rest;
    if |x| >= 4 && x[|x| - 2] == STAR && x[|x| - 1] == SLASH && NoEnd(x[2..|x| - 1]) {
      var c := x[2..|x| - 2];
      assert s[2..] == c + ([STAR, SLASH] + rest) && x[2..|x| - 1] == c + [STAR];
      BlockRun(c, rest);
    } else {
      assert s[2..] == x[2..];
      BlockOpen(x[2..]);
      NoRegions();
    }
    RunStep(s, Plain, BlockComment, |x| - 2, Regions(rest, Plain));
  }

  lemma QuoteRead(x: Text, rest: Text, q: Byte)
    requires Quotes3(q) && QuotedText(x, rest, q, q != BACKTICK)
    ensures Regions(x + rest, Plain) == Same(|x|, Quoted(q)) + Regions(rest, Plain)
  {
    hide Regions, Same, Inside;
    var s := x + rest;
    assert s[0] == x[0] && s[1..] == x[1..] + rest;
    if Closed(x, rest, q, q != BACKTICK) {
      var c := x[1..|x| - 1];
      assert s[1..] == c + ([q] + rest);
      QuoteRun(c, rest, q);
    } else {
      assert s[1..] == x[1..];
      assert x[1..] != [] ==> x[1..][|x[1..]| - 1] == x[|x| - 1] && x[1..][..|x[1..]| - 1] == x[1..|x| - 1];
      QuoteOpen(x[1..], q);
      NoRegions();
    }
    RunStep(s, Plain, Quoted(q), |x| - 1, Regions(rest, Plain));
  }

  lemma CodeRead(x: Text, rest: Text)
    requires |x| == 1 && CodeText(x + rest)
    ensures Regions(x + rest, Plain) == Same(1, Plain) + Regions(rest, Plain)
  {
    hide Regions, Same;
    var s := x + rest;
    assert s[0] == x[0] && s[1..] == rest;
    assert |s| > 2 ==> s[2..][0] == s[2];
    NoneMore(Plain, Regions(rest, Plain));
    RunStep(s, Plain, Plain, 0, Regions(rest, Plain));
  }

  /** A piece is read as one run of its region, and the rest from code. */
  lemma PieceRead(x: Text, rest: Text, r: Region)
    requires IsPiece(x, rest, r)
    ensures x != [] && Regions(x + rest, Plain) == Same(|x|, r) + Regions(rest, Plain)
  {
    hide Regions, Same, Inside, NoEnd, CodeText;
    match r
    case LineComment => LineRead(x, rest);
    case BlockComment => BlockRead(x, rest);
    case Quoted(q) => QuoteRead(x, rest, q);
    case Plain => CodeRead(x, rest);
  }

  // ---------- every text is made of pieces ----------

  /** A text and what its bytes belong to, piece by piece. */
  ghost predicate Reads(s: Text, rs: seq<Region>)
    decreases |s|
  {
    if s == [] then rs == []
    else exists n: nat, r: Region ::
           0 < n <= |s| && IsPiece(s[..n], s[n..], r) && |rs| >= n && rs[..n] == Same(n, r) && Reads(s[n..], rs[n..])
  }

  lemma {:induction false} ReadsOnly(s: Text, rs: seq<Region>)
    requires Reads(s, rs)
    ensures rs == Regions(s, Plain)
    decreases |s|
  {
    hide Regions, Same, IsPiece;
    if s == [] {
      NoRegions();
    } else {
      var n: nat, r: Region :|
        0 < n <= |s| && IsPiece(s[..n], s[n..], r) && |rs| >= n && rs[..n] == Same(n, r) && Reads(s[n..], rs[n..]);
      assert s == s[..n] + s[n..] && rs == rs[..n] + rs[n..];
      PieceRead(s[..n], s[n..], r);
      ReadsOnly(s[n..], rs[n..]);
    }
  }

  /** Where a line ends. */
  lemma {:induction false} LineEnd(s: Text) returns (n: nat)
    ensures n <= |s| && (forall i :: 0 <= i < n ==> !EndsLine(s[i])) && (n < |s| ==> EndsLine(s[n]))
  {
    n := 0;
    while n < |s| && !EndsLine(s[n])
      invariant n <= |s| && forall i :: 0 <= i < n ==> !EndsLine(s[i])
    {
      n := n + 1;
    }
  }

  /** Where a block comment ends. */
  lemma BlockEnd(s: Text) returns (n: nat, closed: bool)
    ensures n <= |s| && (closed ==> n >= 2 && s[n - 2] == STAR && s[n - 1] == SLASH && NoEnd(s[..n - 1]))
    ensures !closed ==> n == |s| && NoEnd(s)
  {
    n := 0;
    while n + 1 < |s| && !(s[n] == STAR && s[n + 1] == SLASH)
      invariant n <= |s| && forall k :: 0 <= k < n && k + 1 < |s| ==> !(s[k] == STAR && s[k + 1] == SLASH)
    {
      n := n + 1;
    }
    closed := n + 1 < |s|;
    n := if closed then n + 2 else |s|;
  }

  /** Where a quoted text ends, after its opening quote. */
  lemma {:induction false} QuoteEnd(s: Text, q: Byte) returns (n: nat, closed: bool)
    requires Quotes3(q)
    ensures n <= |s|
    ensures closed ==> n > 0 && s[n - 1] == q && Inside(s[..n - 1], q, q != BACKTICK) && (n < |s| ==> s[n] != q)
    ensures !closed ==> n == |s| && OpenRest(s, q)
    decreases |s|
  {
    hide Inside;
    var e := q != BACKTICK;
    NothingInside(q, e);
    if s == [] {
      n, closed := 0, false;
    } else if e && s[0] == BACKSLASH && |s| == 1 {
      n, closed := 1, false;
      assert s[..0] == [];
    } else if s[0] == q && !(|s| > 1 && s[1] == q) {
      n, closed := 1, true;
      assert s[..0] == [];
    } else {
      var k := if s[0] == q || (e && s[0] == BACKSLASH) then 2 else 1;
      n, closed := QuoteEnd(s[k..], q);
      if closed {
        assert s[..k + n - 1][k..] == s[k..][..n - 1] && s[..k + n - 1][0] == s[0];
        assert k == 2 ==> s[..k + n - 1][1] == s[1];
        InsideMore(s[..k + n - 1], k, q, e);
      } else {
        OpenMore(s, k, q);
      }
      n := k + n;
    }
  }

  lemma OpenMore(s: Text, k: nat, q: Byte)
    requires 1 <= k <= 2 && k <= |s| && Quotes3(q) && OpenRest(s[k..], q)
    requires k == 1 ==> s[0] != q && !(q != BACKTICK && s[0] == BACKSLASH)
    requires k == 2 ==> if q != BACKTICK && s[0] == BACKSLASH then true else s[0] == q && s[1] == q
    ensures OpenRest(s, q)
  {
    hide Inside;
    var e := q != BACKTICK;
    if Inside(s[k..], q, e) {
      InsideMore(s, k, q, e);
    } else {
      var d := s[..|s| - 1];
      assert d[k..] == s[k..][..|s[k..]| - 1] && d[0] == s[0];
      assert k == 2 ==> d[1] == s[1];
      InsideMore(d, k, q, e);
    }
  }

  /** The first piece of a text. */
  lemma FirstPiece(s: Text) returns (n: nat, r: Region)
    requires s != []
    ensures 0 < n <= |s| && IsPiece(s[..n], s[n..], r)
  {
    hide Inside;
    if Quotes3(s[0]) {
      r := Quoted(s[0]);
      var k, closed := QuoteEnd(s[1..], s[0]);
      n := k + 1;
      QuotePiece(s, k, closed);
    } else if s[0] == HASH || (|s| > 1 && s[0] == DASH && s[1] == DASH && (|s| == 2 || SpaceOrControl(s[2]))) {
      r := LineComment;
      var m := if s[0] == HASH then 1 else 2;
      var k := LineEnd(s[m..]);
      n := m + k;
      assert s[..n] + s[n..] == s;
      assert forall i :: m <= i < n ==> s[i] == s[m..][i - m];
      assert n < |s| ==> s[n] == s[m..][k];
    } else if |s| > 1 && s[0] == SLASH && s[1] == STAR {
      r := BlockComment;
      var k, closed := BlockEnd(s[2..]);
      n := k + 2;
      assert s[..n][2..] == s[2..][..k];
      if closed {
        assert s[..n][2..n - 1] == s[2..][..k - 1];
        assert s[n - 2] == s[2..][k - 2] && s[n - 1] == s[2..][k - 1];
      }
    } else {
      n, r := 1, Plain;
      assert s[..1] + s[1..] == s;
    }
  }

  lemma QuotePiece(s: Text, k: nat, closed: bool)
    requires s != [] && Quotes3(s[0]) && k <= |s[1..]|
    requires closed ==> k > 0 && s[1..][k - 1] == s[0] && Inside(s[1..][..k - 1], s[0], s[0] != BACKTICK)
    requires closed && k < |s[1..]| ==> s[1..][k] != s[0]
    requires !closed ==> k == |s[1..]| && OpenRest(s[1..], s[0])
    ensures QuotedText(s[..k + 1], s[k + 1..], s[0], s[0] != BACKTICK)
  {
    hide Inside;
    var x := s[..k + 1];
    assert x[1..] == s[1..][..k];
    if closed {
      assert x[1..|x| - 1] == s[1..][..k - 1] && x[|x| - 1] == s[1..][k - 1];
    } else {
      assert x == s && x[1..] == s[1..];
      assert |x| > 1 ==> x[1..|x| - 1] == s[1..][..|s[1..]| - 1] && x[|x| - 1] == s[1..][|s[1..]| - 1];
    }
  }

  lemma {:induction false} RegionsRead(s: Text)
    ensures Reads(s, Regions(s, Plain))
    decreases |s|
  {
    hide Regions, Same, IsPiece;
    if s == [] {
      NoRegions();
    } else {
      var n, r := FirstPiece(s);
      assert s == s[..n] + s[n..];
      PieceRead(s[..n], s[n..], r);
      RegionsRead(s[n..]);
      var rs := Regions(s, Plain);
      assert rs[..n] == Same(n, r) && rs[n..] == Regions(s[n..], Plain);
    }
  }

  /** The scanner's regions are exactly those that the grammar gives. */
  lemma RegionsExactly(s: Text, rs: seq<Region>)
    ensures Reads(s, rs) <==> rs == Regions(s, Plain)
  {
    hide Regions, Reads;
    RegionsRead(s);
    if Reads(s, rs) {
      ReadsOnly(s, rs);
    }
  }

  // ---------- warnings ----------

  /** Reading pairs from the left, a backslash stands before a quote. */
  predicate EscapedQuote(s: Text, q: Byte)
    decreases |s|
  {
    |s| > 1 &&
    if s[0] == BACKSLASH then s[1] == q || EscapedQuote(s[2..], q)
    else if s[0] == q then s[1] == q && EscapedQuote(s[2..], q)
    else EscapedQuote(s[1..], q)
  }

  /** A comment that the server would execute: it goes on with `!`, or `M!` in either case. */
  predicate Executable(s: Text) {
    (|s| > 2 && s[2] == 33) || (|s| > 3 && (s[2] == 77 || s[2] == 109) && s[3] == 33)
  }

  /** What a piece warns of. */
  function PieceWarns(x: Text, rest: Text, r: Region): Warnings {
    Warnings(r.BlockComment? && Executable(x + rest),
             r.Quoted? && r.quote != 96 && x != [] && EscapedQuote(x[1..], r.quote))
  }

  lemma {:induction false} LineQuiet(c: Text, rest: Text)
    requires (forall i :: 0 <= i < |c| ==> !EndsLine(c[i])) && (rest == [] || EndsLine(rest[0]))
    ensures Warned(c + rest, LineComment) == Warned(rest, Plain)
    decreases |c|
  {
    hide Warned;
    if c == [] {
      assert c + rest == rest;
      if rest == [] {
        WarnedNothing(Plain);
        WarnedNothing(LineComment);
      } else {
        WarnedStep(rest, LineComment);
        WarnedStep(rest, Plain);
      }
    } else {
      assert (c + rest)[1..] == c[1..] + rest && (c + rest)[0] == c[0];
      WarnedStep(c + rest, LineComment);
      LineQuiet(c[1..], rest);
    }
  }

  lemma {:induction false} BlockQuiet(c: Text, rest: Text)
    requires NoEnd(c + [STAR])
    ensures Warned(c + ([STAR, SLASH] + rest), BlockComment) == Warned(rest, Plain)
    decreases |c|
  {
    hide Warned;
    var s := c + ([STAR, SLASH] + rest);
    WarnedStep(s, BlockComment);
    if c == [] {
      assert s[2..] == rest && s[0] == STAR && s[1] == SLASH;
    } else {
      assert s[1..] == c[1..] + ([STAR, SLASH] + rest);
      assert s[0] == (c + [STAR])[0] && s[1] == (c + [STAR])[1];
      assert forall k :: 0 <= k < |c| ==> (c[1..] + [STAR])[k] == (c + [STAR])[k + 1];
      BlockQuiet(c[1..], rest);
    }
  }

  lemma {:induction false} BlockOpenQuiet(c: Text)
    requires NoEnd(c)
    ensures Warned(c, BlockComment) == QUIET
    decreases |c|
  {
    hide Warned;
    if c == [] {
      WarnedNothing(BlockComment);
    } else {
      WarnedStep(c, BlockComment);
      assert forall k :: 0 <= k < |c| - 1 ==> c[1..][k] == c[k + 1];
      BlockOpenQuiet(c[1..]);
    }
  }

  lemma InsideMove(c: Text, rest: Text, q: Byte)
    requires c != [] && Quotes3(q) && Inside(c, q, q != BACKTICK)
    ensures var s := c + ([q] + rest);
            var (n, next) := Move(s, Quoted(q));
            && next == Quoted(q) && n <= |c| && Inside(c[n..], q, q != BACKTICK)
            && s[n..] == c[n..] + ([q] + rest) && (c + [q])[n..] == c[n..] + [q]
            && (n == 1 ==> c[0] != q && !(q != BACKTICK && c[0] == BACKSLASH))
            && (n == 2 ==> (c[0] == q && c[1] == q) || (q != BACKTICK && c[0] == BACKSLASH))
  {
    hide Inside, Move;
    QuoteMove(c, [q] + rest, q);
    var n := Move(c + ([q] + rest), Quoted(q)).0;
    InsideLess(c, n, q, q != BACKTICK);
    From(c, [q] + rest, n);
    From(c, [q], n);
  }

  lemma From(c: Text, t: Text, n: nat)
    requires n <= |c|
    ensures (c + t)[n..] == c[n..] + t
  {
  }

  /** One step of `EscapedQuote`, as the scanner takes it. */
  lemma EscapedMove(c: Text, rest: Text, q: Byte, n: nat)
    requires c != [] && Quotes3(q) && 1 <= n <= 2 && n <= |c| && (c + [q])[n..] == c[n..] + [q]
    requires n == 1 ==> c[0] != q && !(q != BACKTICK && c[0] == BACKSLASH)
    requires n == 2 ==> (c[0] == q && c[1] == q) || (q != BACKTICK && c[0] == BACKSLASH)
    ensures TokenWarns(c + ([q] + rest), Quoted(q)).Or(Warnings(false, q != BACKTICK && EscapedQuote(c[n..] + [q], q)))
         == Warnings(false, q != BACKTICK && EscapedQuote(c + [q], q))
  {
    var s, t := c + ([q] + rest), c + [q];
    assert s[0] == c[0] == t[0] && s[1] == t[1] && |t| > 1 && (n == 2 ==> s[1] == c[1]);
    EscapedStep(t, q);
    hide EscapedQuote;
  }

  lemma EscapedStep(s: Text, q: Byte)
    requires |s| > 1
    ensures EscapedQuote(s, q) ==
            if s[0] == BACKSLASH then s[1] == q || EscapedQuote(s[2..], q)
            else if s[0] == q then s[1] == q && EscapedQuote(s[2..], q)
            else EscapedQuote(s[1..], q)
  {
  }

  lemma {:induction false} QuoteWarns(c: Text, rest: Text, q: Byte)
    requires Quotes3(q) && Inside(c, q, q != BACKTICK) && (rest == [] || rest[0] != q)
    ensures Warned(c + ([q] + rest), Quoted(q)) ==
            Warnings(false, q != BACKTICK && EscapedQuote(c + [q], q)).Or(Warned(rest, Plain))
    decreases |c|
  {
    hide Warned, Inside, EscapedQuote, Move, TokenWarns;
    var s := c + ([q] + rest);
    WarnedStep(s, Quoted(q));
    if c == [] {
      QuoteEnds(rest, q);
    } else {
      InsideMove(c, rest, q);
      var n := Move(s, Quoted(q)).0;
      EscapedMove(c, rest, q, n);
      QuoteWarns(c[n..], rest, q);
    }
  }

  lemma QuoteEnds(rest: Text, q: Byte)
    requires Quotes3(q) && (rest == [] || rest[0] != q)
    ensures var s := [] + ([q] + rest);
            && Move(s, Quoted(q)) == (1, Plain) && s[1..] == rest
            && TokenWarns(s, Quoted(q)) == QUIET && !EscapedQuote([] + [q], q)
  {
    var s := [] + ([q] + rest);
    assert s[0] == q && (rest != [] ==> s[1] == rest[0]);
  }

  lemma {:induction false} QuoteOpenWarns(c: Text, q: Byte)
    requires Quotes3(q) && OpenRest(c, q)
    ensures Warned(c, Quoted(q)) == Warnings(false, q != BACKTICK && EscapedQuote(c, q))
    decreases |c|
  {
    hide Warned, OpenRest;
    if c == [] {
      WarnedNothing(Quoted(q));
    } else {
      OpenMove(c, q);
      OpenFirst(c, q);
      WarnedStep(c, Quoted(q));
      QuoteOpenWarns(c[Move(c, Quoted(q)).0..], q);
    }
  }

  lemma OpenFirst(c: Text, q: Byte)
    requires c != [] && Quotes3(q) && OpenRest(c, q)
    ensures c[0] == q ==> |c| > 1 && c[1] == q
  {
    hide Inside;
    var e := q != BACKTICK;
    if c[0] == q {
      if Inside(c, q, e) {
        InsideQuote(c, q, e);
      } else {
        InsideQuote(c[..|c| - 1], q, e);
      }
    }
  }

  lemma PieceWarned(x: Text, rest: Text, r: Region)
    requires IsPiece(x, rest, r)
    ensures Warned(x + rest, Plain) == PieceWarns(x, rest, r).Or(Warned(rest, Plain))
  {
    hide Warned, Inside, NoEnd;
    var s := x + rest;
    assert s[0] == x[0] && (|x| > 1 ==> s[1] == x[1]);
    WarnedStep(s, Plain);
    match r
    case LineComment => LineWarned(x, rest);
    case BlockComment => BlockWarned(x, rest);
    case Quoted(q) => QuoteWarned(x, rest, q);
    case Plain =>
      assert s[1..] == rest;
      assert |s| > 2 ==> s[2..][0] == s[2];
  }

  lemma LineWarned(x: Text, rest: Text)
    requires LineText(x, rest)
    ensures Warned(x + rest, Plain) == Warned(rest, Plain)
  {
    hide Warned, Move;
    assert (x + rest)[0] == x[0];
    LineMove(x, rest);
    WarnedStep(x + rest, Plain);
    LineQuiet(x[if x[0] == HASH then 1 else 2..], rest);
  }

  lemma BlockWarned(x: Text, rest: Text)
    requires BlockText(x, rest)
    ensures Warned(x + rest, Plain) == Warnings(Executable(x + rest), false).Or(Warned(rest, Plain))
  {
    hide Warned, NoEnd;
    var s := x + rest;
    assert s[0] == x[0] && s[1] == x[1] && s[2..] == x[2..] + rest;
    WarnedStep(s, Plain);
    if |x| >= 4 && x[|x| - 2] == STAR && x[|x| - 1] == SLASH && NoEnd(x[2..|x| - 1]) {
      var c := x[2..|x| - 2];
      assert s[2..] == c + ([STAR, SLASH] + rest) && x[2..|x| - 1] == c + [STAR];
      BlockQuiet(c, rest);
    } else {
      assert s[2..] == x[2..];
      BlockOpenQuiet(x[2..]);
      WarnedNothing(Plain);
    }
  }

  lemma QuoteWarned(x: Text, rest: Text, q: Byte)
    requires Quotes3(q) && QuotedText(x, rest, q, q != BACKTICK)
    ensures Warned(x + rest, Plain) ==
            Warnings(false, q != BACKTICK && EscapedQuote(x[1..], q)).Or(Warned(rest, Plain))
  {
    hide Warned, Inside, EscapedQuote;
    var s := x + rest;
    assert s[0] == x[0] && s[1..] == x[1..] + rest;
    WarnedStep(s, Plain);
    if Closed(x, rest, q, q != BACKTICK) {
      var c := x[1..|x| - 1];
      assert s[1..] == c + ([q] + rest) && x[1..] == c + [q];
      QuoteWarns(c, rest, q);
    } else {
      assert s[1..] == x[1..];
      assert x[1..] != [] ==> x[1..][|x[1..]| - 1] == x[|x| - 1] && x[1..][..|x[1..]| - 1] == x[1..|x| - 1];
      QuoteOpenWarns(x[1..], q);
      WarnedNothing(Plain);
    }
  }

  /** What the pieces of a text warn of, together. */
  ghost predicate Warns(s: Text, w: Warnings)
    decreases |s|
  {
    if s == [] then w == Warnings(false, false)
    else exists n: nat, r: Region, v: Warnings ::
           0 < n <= |s| && IsPiece(s[..n], s[n..], r) && Warns(s[n..], v) && w == PieceWarns(s[..n], s[n..], r).Or(v)
  }

  lemma {:induction false} WarnsParts(s: Text, w: Warnings) returns (n: nat, r: Region, v: Warnings)
    requires s != [] && Warns(s, w)
    ensures 0 < n <= |s| && IsPiece(s[..n], s[n..], r) && Warns(s[n..], v)
    ensures w == PieceWarns(s[..n], s[n..], r).Or(v)
  {
    hide IsPiece, PieceWarns;
    var k: nat, t: Region, u: Warnings :|
      0 < k <= |s| && IsPiece(s[..k], s[k..], t) && Warns(s[k..], u) && w == PieceWarns(s[..k], s[k..], t).Or(u);
    n, r, v := k, t, u;
  }

  lemma {:induction false} WarnsWhole(s: Text, n: nat, r: Region, v: Warnings)
    requires 0 < n <= |s| && IsPiece(s[..n], s[n..], r) && Warns(s[n..], v)
    ensures Warns(s, PieceWarns(s[..n], s[n..], r).Or(v))
  {
    hide IsPiece, PieceWarns;
  }

  /** The scanner warns exactly of what the pieces warn of. */
  lemma {:induction false} WarnedExactly(s: Text, w: Warnings)
    ensures Warns(s, w) <==> w == Warned(s, Plain)
    decreases |s|
  {
    hide Warned, IsPiece, PieceWarns;
    if s == [] {
      WarnedNothing(Plain);
    } else {
      var n, r := FirstPiece(s);
      assert s == s[..n] + s[n..];
      PieceWarned(s[..n], s[n..], r);
      WarnedExactly(s[n..], Warned(s[n..], Plain));
      WarnsWhole(s, n, r, Warned(s[n..], Plain));
      if Warns(s, w) {
        var k, t, v := WarnsParts(s, w);
        assert s == s[..k] + s[k..];
        PieceWarned(s[..k], s[k..], t);
        WarnedExactly(s[k..], v);
      }
    }
  }

  // ---------- masking ----------

  /** What masking shows of a byte: white space in place of what the options hide, and of white space in code. */
  lemma MaskBytes(s: Text, o: Options, i: nat)
    requires i < |s|
    ensures var b, r := s[i], Regions(s, Plain)[i];
            var blank := if b == 10 || b == 13 then b else 32;
            Mask(s, o)[i] ==
            match r
            case LineComment => blank
            case BlockComment => blank
            case Plain => if SpaceOrControl(b) then blank else b
            case Quoted(q) => if o.maskStrings && (q == 39 || o.maskIdentifiers) then blank else b
  {
    hide Regions;
  }
}
