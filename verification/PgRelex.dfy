/** What the PostgreSQL lexer finds after every parameter was written as NULL. */
module PgRelex {
  import opened Bytes
  import opened Wrappers
  import opened PgLexer

  // ---------- what lies behind a quote ----------

  /** What the bytes before a position say about a quote at it. */
  datatype Behind = Boundary | Ident | OpenE | OpenU | Ampersand

  function Then(h: Behind, b: Byte): Behind {
    if h.OpenU? && b == AMPERSAND then Ampersand
    else if !IsIdentPart(b) then Boundary
    else if (h.Boundary? || h.Ampersand?) && IsE(b) then OpenE
    else if (h.Boundary? || h.Ampersand?) && IsU(b) then OpenU
    else Ident
  }

  function BehindOf(s: Text): Behind {
    if s == [] then Boundary else Then(BehindOf(s[..|s| - 1]), s[|s| - 1])
  }

  function Fold(h: Behind, s: Text): Behind
    decreases |s|
  {
    if s == [] then h else Fold(Then(h, s[0]), s[1..])
  }

  lemma BehindBoundary(s: Text)
    ensures (BehindOf(s).Boundary? || BehindOf(s).Ampersand?) == (s == [] || !IsIdentPart(s[|s| - 1]))
  {
  }

  lemma BehindU(s: Text)
    ensures BehindOf(s).OpenU? ==
            (s != [] && IsU(s[|s| - 1]) && (|s| == 1 || !IsIdentPart(s[|s| - 2])))
  {
    if s != [] {
      BehindBoundary(s[..|s| - 1]);
    }
  }

  /** The three-byte look-behind of the agent is this automaton. */
  lemma BehindDecides(s: Text)
    ensures EscapePrefix(s) == (BehindOf(s).OpenE? || BehindOf(s).Ampersand?)
  {
    if s != [] {
      BehindBoundary(s[..|s| - 1]);
      BehindU(s[..|s| - 1]);
    }
  }

  lemma {:induction false} BehindAppend(a: Text, x: Text)
    ensures BehindOf(a + x) == Fold(BehindOf(a), x)
    decreases |x|
  {
    if x == [] {
      assert a + x == a;
    } else {
      assert a + x == (a + [x[0]]) + x[1..];
      assert (a + [x[0]])[..|a|] == a;
      BehindAppend(a + [x[0]], x[1..]);
    }
  }

  predicate Alike(a: Text, b: Text) {
    BehindOf(a) == BehindOf(b)
  }

  lemma AlikeAppend(a: Text, b: Text, x: Text)
    requires Alike(a, b)
    ensures Alike(a + x, b + x)
  {
    BehindAppend(a, x);
    BehindAppend(b, x);
  }

  /** Both a parameter and NULL leave the middle of a word behind. */
  lemma AlikeNull(a: Text, b: Text, param: Text)
    requires |param| > 1 && param[0] == DOLLAR && forall i :: 1 <= i < |param| ==> IsDigit(param[i])
    ensures Alike(a + param, b + NULL)
  {
    BehindAppend(a, param);
    BehindAppend(b, NULL);
    FoldDigits(Then(BehindOf(a), DOLLAR), param[1..]);
    assert NULL[1..] == [85, 76, 76] && NULL[1..][1..] == [76, 76] && NULL[1..][1..][1..] == [76];
    assert NULL[1..][1..][1..][1..] == [];
  }

  lemma {:induction false} FoldDigits(h: Behind, s: Text)
    requires h.Ident? && forall i :: 0 <= i < |s| ==> IsDigit(s[i])
    ensures Fold(h, s).Ident?
    decreases |s|
  {
    if s != [] {
      FoldDigits(Then(h, s[0]), s[1..]);
    }
  }

  // ---------- what follows a token ----------

  /** Texts that end together and start alike, except that `$` may have become `N`. */
  predicate Similar(r: Text, u: Text) {
    && (r == [] <==> u == [])
    && (r != [] ==> u[0] == r[0] || (r[0] == DOLLAR && u[0] == NULL[0]))
  }

  lemma {:induction false} LineStable(x: Text, r: Text, u: Text)
    requires Similar(r, u) && LineLength(x + r) == |x|
    ensures LineLength(x + u) == |x|
    decreases |x|
  {
    if x == [] {
      assert x + r == r && x + u == u;
    } else {
      assert (x + r)[1..] == x[1..] + r && (x + u)[1..] == x[1..] + u;
      LineStable(x[1..], r, u);
    }
  }

  lemma {:induction false} CommentStable(x: Text, r: Text, u: Text, depth: nat)
    requires depth > 0 && CommentLength(x + r, depth) == Some(|x|)
    ensures CommentLength(x + u, depth) == Some(|x|)
    decreases |x|
  {
    var s, t := x + r, x + u;
    assert s[0] == t[0] == x[0] && s[1] == t[1] == x[1];
    assert s[1..] == x[1..] + r && t[1..] == x[1..] + u && s[2..] == x[2..] + r && t[2..] == x[2..] + u;
    if s[0] == SLASH && s[1] == STAR {
      CommentStable(x[2..], r, u, depth + 1);
    } else if s[0] == STAR && s[1] == SLASH {
      if depth > 1 {
        CommentStable(x[2..], r, u, depth - 1);
      }
    } else {
      CommentStable(x[1..], r, u, depth);
    }
  }

  lemma QuotedStep(s: Text, quote: Byte, escapes: bool)
    requires s != []
    ensures QuotedLength(s, quote, escapes) ==
            if (escapes && s[0] == BACKSLASH) || (s[0] == quote && |s| > 1 && s[1] == quote) then
              if |s| == 1 then 1 else 2 + QuotedLength(s[2..], quote, escapes)
            else if s[0] == quote then 1
            else 1 + QuotedLength(s[1..], quote, escapes)
  {
  }

  lemma {:induction false} QuotedStable(x: Text, r: Text, u: Text, quote: Byte, escapes: bool)
    requires quote == QUOTE || quote == DQUOTE
    requires Similar(r, u) && QuotedLength(x + r, quote, escapes) == |x|
    ensures QuotedLength(x + u, quote, escapes) == |x|
    decreases |x|
  {
    hide QuotedLength;
    if x + r != [] {
      QuotedStep(x + r, quote, escapes);
    }
    if x + u != [] {
      QuotedStep(x + u, quote, escapes);
    }
    var s, t := x + r, x + u;
    if x == [] {
      assert s == r && t == u;
    } else {
      assert s[0] == t[0] == x[0];
      assert |x| > 1 ==> s[1] == t[1] == x[1];
      assert |x| == 1 && r != [] ==> s[1] == r[0] && t[1] == u[0];
      assert s[1..] == x[1..] + r && t[1..] == x[1..] + u;
      if |x| > 1 {
        assert s[2..] == x[2..] + r && t[2..] == x[2..] + u;
      }
      if (escapes && s[0] == BACKSLASH) || (s[0] == quote && |s| > 1 && s[1] == quote) {
        if |x| > 1 {
          QuotedStable(x[2..], r, u, quote, escapes);
        }
      } else if s[0] != quote {
        QuotedStable(x[1..], r, u, quote, escapes);
      }
    }
  }

  lemma {:induction false} IndexStable(x: Text, r: Text, u: Text, tag: Text, k: nat)
    requires tag != [] && IndexOf(x + r, tag) == Some(k) && k + |tag| == |x|
    ensures IndexOf(x + u, tag) == Some(k)
    decreases |x|
  {
    var s, t := x + r, x + u;
    assert s[..|tag|] == x[..|tag|] == t[..|tag|];
    if k > 0 {
      assert s[1..] == x[1..] + r && t[1..] == x[1..] + u;
      IndexStable(x[1..], r, u, tag, k - 1);
    }
  }

  lemma {:induction false} RunStable(x: Text, r: Text, u: Text)
    requires TagRun(x + r) < |x|
    ensures TagRun(x + u) == TagRun(x + r)
    decreases |x|
  {
    if IsTagPart(x[0]) {
      assert (x + r)[1..] == x[1..] + r && (x + u)[1..] == x[1..] + u;
      RunStable(x[1..], r, u);
    }
  }

  lemma TagStable(x: Text, r: Text, u: Text)
    requires TagLength(x + r).Some? && TagLength(x + r).value <= |x|
    ensures TagLength(x + u) == TagLength(x + r)
  {
    var s, t := x + r, x + u;
    assert s[0] == t[0] == x[0] && s[1] == t[1] == x[1];
    assert s[1..] == x[1..] + r && t[1..] == x[1..] + u;
    if s[1] != DOLLAR {
      var n := 1 + TagRun(s[1..]);
      assert s[n] == x[n];
      RunStable(x[1..], r, u);
      assert t[n] == x[n];
    }
  }

  // ---------- the rewritten rest of a text ----------

  /** The rewritten rest ends with the original and starts like it. */
  lemma RestSimilar(b: Text, s: Text)
    requires Lex(b, s).Some?
    ensures Similar(s, Nullify(Lex(b, s).value))
  {
    if s != [] {
      var (kind, n) := Next(b, s).value;
      var rest := Lex(b + s[..n], s[n..]).value;
      LexStep(b, s);
      NullifyStep(Token(kind, s[..n]), rest);
    }
  }

  lemma LetterIsCode(b: Text, s: Text)
    requires s != [] && IsTagPart(s[0])
    ensures Next(b, s) == Some((Code, 1))
  {
  }

  /** Word bytes that a `$` could tag are kept, and what ends them is not turned into `$`. */
  lemma {:induction false} RunKept(b: Text, s: Text)
    requires Lex(b, s).Some?
    requires TagRun(s) < |s| ==> s[TagRun(s)] != DOLLAR
    ensures var u := Nullify(Lex(b, s).value);
            && TagRun(u) == TagRun(s) <= |u|
            && (TagRun(s) < |u| ==> u[TagRun(s)] != DOLLAR)
    decreases |s|
  {
    hide Next, Lex, Nullify;
    if s != [] && IsTagPart(s[0]) {
      LetterIsCode(b, s);
      LexStep(b, s);
      var rest := Lex(b + s[..1], s[1..]).value;
      NullifyStep(Token(Code, s[..1]), rest);
      RunKept(b + s[..1], s[1..]);
      var u := Nullify(Lex(b, s).value);
      assert u[0] == s[0] && u[1..] == Nullify(rest);
    } else {
      RestSimilar(b, s);
      NoTokens(b);
    }
  }

  lemma NoTokens(b: Text)
    ensures Lex(b, []) == Some([]) && Nullify([]) == []
  {
  }

  /** A token that is no parameter is read again in front of the rewritten rest. */
  lemma NextStable(b: Text, s: Text, c: Text)
    requires s != [] && Lex(b, s).Some? && Alike(b, c)
    requires !Next(b, s).value.0.Parameter?
    ensures var n := Next(b, s).value.1;
            Lex(b + s[..n], s[n..]).Some? &&
            Next(c, s[..n] + Nullify(Lex(b + s[..n], s[n..]).value)) == Next(b, s)
  {
    hide Lex, Nullify, CommentLength, QuotedLength, LineLength, DigitCount, TagLength, IndexOf, EscapePrefix, BehindOf;
    LexStep(b, s);
    var (kind, n) := Next(b, s).value;
    var x, r := s[..n], s[n..];
    var u := Nullify(Lex(b + x, r).value);
    RestSimilar(b + x, r);
    BehindDecides(b);
    BehindDecides(c);
    var t := x + u;
    assert s == x + r && t[0] == s[0];
    assert s[1..] == x[1..] + r && t[1..] == x[1..] + u;
    assert n == 1 ==> s[1..] == r && t[1..] == u;
    if |s| > 1 && ((s[0] == DASH && s[1] == DASH) || (s[0] == SLASH && s[1] == STAR)) {
      assert t[1] == s[1] && s[2..] == x[2..] + r && t[2..] == x[2..] + u;
      if s[0] == DASH {
        LineStable(x[2..], r, u);
      } else {
        CommentStable(x[2..], r, u, 1);
      }
    } else if s[0] == QUOTE {
      QuotedStable(x[1..], r, u, QUOTE, EscapePrefix(b));
      assert t[0] == QUOTE;
    } else if s[0] == DQUOTE {
      QuotedStable(x[1..], r, u, DQUOTE, false);
    } else if s[0] == DOLLAR {
      DollarStable(b, s, u);
    } else {
      assert n == 1;
      assert |t| > 1 ==> t[1] == u[0];
    }
  }

  lemma DollarStable(b: Text, s: Text, u: Text)
    requires s != [] && s[0] == DOLLAR && Next(b, s).Some? && !Next(b, s).value.0.Parameter?
    requires Lex(b + s[..Next(b, s).value.1], s[Next(b, s).value.1..]).Some?
    requires u == Nullify(Lex(b + s[..Next(b, s).value.1], s[Next(b, s).value.1..]).value)
    ensures forall c :: Next(c, s[..Next(b, s).value.1] + u) == Next(b, s)
  {
    hide Lex, Nullify, DigitCount, CommentLength, QuotedLength, LineLength, EscapePrefix, TagLength, IndexOf;
    var (kind, n) := Next(b, s).value;
    var x, r := s[..n], s[n..];
    var t := x + u;
    assert s == x + r && t[0] == DOLLAR;
    if TagLength(s).Some? {
      var k := TagLength(s).value;
      TagStable(x, r, u);
      assert s[k..] == x[k..] + r && t[k..] == x[k..] + u && s[..k] == t[..k] == x[..k];
      IndexStable(x[k..], r, u, x[..k], n - 2 * k);
    } else {
      assert n == 1 && x == [DOLLAR];
      PlainDollar(b + x, r, u);
    }
  }

  /** A `$` that opens nothing still opens nothing before the rewritten rest. */
  lemma PlainDollar(b: Text, r: Text, u: Text)
    requires Lex(b, r).Some? && u == Nullify(Lex(b, r).value)
    requires TagLength([DOLLAR] + r).None? && (r != [] ==> !IsDigit(r[0]))
    ensures TagLength([DOLLAR] + u).None? && (u != [] ==> !IsDigit(u[0]))
  {
    hide Lex, Nullify;
    var s, t := [DOLLAR] + r, [DOLLAR] + u;
    assert s[1..] == r && t[1..] == u;
    RestSimilar(b, r);
    if r != [] {
      assert s[1] == r[0] && t[1] == u[0];
      if IsIdentStart(r[0]) {
        var k := TagRun(r);
        assert k < |r| ==> s[1 + k] == r[k];
        RunKept(b, r);
        assert k < |u| ==> t[1 + k] == u[k];
      }
    }
  }

  // ---------- the theorems ----------

  /** The tokens of the rewritten text: each parameter became the letters of NULL. */
  function Flat(ts: seq<Token>): seq<Token> {
    if ts == [] then []
    else
      (if ts[0].kind.Parameter? then [Token(Code, [78]), Token(Code, [85]), Token(Code, [76]), Token(Code, [76])]
       else [ts[0]]) + Flat(ts[1..])
  }

  lemma FlatStep(t: Token, ts: seq<Token>)
    ensures Flat([t] + ts) ==
            (if t.kind.Parameter? then [Token(Code, [78]), Token(Code, [85]), Token(Code, [76]), Token(Code, [76])]
             else [t]) + Flat(ts)
  {
    assert ([t] + ts)[1..] == ts;
  }

  /** The rewritten text scans to exactly the predicted tokens. */
  lemma {:induction false} Relex(b: Text, s: Text, c: Text)
    requires Lex(b, s).Some? && Alike(b, c)
    ensures Lex(c, Nullify(Lex(b, s).value)) == Some(Flat(Lex(b, s).value))
    decreases |s|
  {
    hide Lex, Nullify, Next, Flat, BehindOf;
    if s == [] {
      NoTokens(b);
      NoTokens(c);
      assert Flat([]) == [] by { FlatNone(); }
    } else {
      LexStep(b, s);
      var (kind, n) := Next(b, s).value;
      var x, r := s[..n], s[n..];
      var rest := Lex(b + x, r).value;
      NullifyStep(Token(kind, x), rest);
      FlatStep(Token(kind, x), rest);
      var u := Nullify(rest);
      if kind.Parameter? {
        ParameterShape(b, s);
        AlikeNull(b, c, x);
        Relex(b + x, r, c + NULL);
        LexNull(c, u);
      } else {
        NextStable(b, s, c);
        AlikeAppend(b, c, x);
        Relex(b + x, r, c + x);
        var t := x + u;
        assert t[..n] == x && t[n..] == u;
        LexStep(c, t);
      }
    }
  }

  lemma FlatNone()
    ensures Flat([]) == []
  {
  }

  /** A parameter is `$` and all the digits after it. */
  lemma ParameterShape(b: Text, s: Text)
    requires s != [] && Next(b, s).Some? && Next(b, s).value.0.Parameter?
    ensures var n := Next(b, s).value.1;
            && n > 1 && s[0] == DOLLAR
            && (forall i :: 1 <= i < n ==> IsDigit(s[i]))
            && (n < |s| ==> !IsDigit(s[n]))
  {
    var n := Next(b, s).value.1;
    forall i | 1 <= i < n ensures IsDigit(s[i]) {
      assert s[i] == s[1..][..n - 1][i - 1];
    }
  }

  lemma LexNull(c: Text, u: Text)
    requires Lex(c + NULL, u).Some?
    ensures Lex(c, NULL + u) ==
            Some([Token(Code, [78]), Token(Code, [85]), Token(Code, [76]), Token(Code, [76])] + Lex(c + NULL, u).value)
  {
    hide Lex, Next;
    var ts := Lex(c + NULL, u).value;
    assert c + [78] + [85] + [76] + [76] == c + NULL;
    LexLetter(c + [78] + [85] + [76], 76, u);
    LexLetter(c + [78] + [85], 76, [76] + u);
    LexLetter(c + [78], 85, [76] + ([76] + u));
    LexLetter(c, 78, [85] + ([76] + ([76] + u)));
    assert NULL + u == [78] + ([85] + ([76] + ([76] + u)));
    assert [Token(Code, [78])] + ([Token(Code, [85])] + ([Token(Code, [76])] + ([Token(Code, [76])] + ts)))
        == [Token(Code, [78]), Token(Code, [85]), Token(Code, [76]), Token(Code, [76])] + ts;
  }

  lemma LexLetter(c: Text, b: Byte, u: Text)
    requires IsLetter(b) && Lex(c + [b], u).Some?
    ensures Lex(c, [b] + u) == Some([Token(Code, [b])] + Lex(c + [b], u).value)
  {
    hide Lex;
    var s := [b] + u;
    LetterIsCode(c, s);
    LexStep(c, s);
    assert s[..1] == [b] && s[1..] == u;
  }

  predicate HasParameter(ts: seq<Token>) {
    exists i :: 0 <= i < |ts| && ts[i].kind.Parameter?
  }

  /** The scan that looks for a parameter finds one exactly if the tokens hold one. */
  lemma {:induction false} ContainsIsHas(b: Text, s: Text)
    requires Lex(b, s).Some?
    ensures ContainsParameter(b, s) == HasParameter(Lex(b, s).value)
    decreases |s|
  {
    hide Next, Lex;
    if s == [] {
      NoTokens(b);
    } else {
      LexStep(b, s);
      var (kind, n) := Next(b, s).value;
      var rest := Lex(b + s[..n], s[n..]).value;
      ContainsIsHas(b + s[..n], s[n..]);
      var ts := [Token(kind, s[..n])] + rest;
      assert Lex(b, s).value == ts && ts[0].kind == kind;
      if HasParameter(rest) {
        var i :| 0 <= i < |rest| && rest[i].kind.Parameter?;
        assert ts[i + 1].kind.Parameter?;
      }
      if HasParameter(ts) && !kind.Parameter? {
        var i :| 0 <= i < |ts| && ts[i].kind.Parameter?;
        assert rest[i - 1].kind.Parameter?;
      }
    }
  }

  lemma {:induction false} FlatHasNone(ts: seq<Token>)
    ensures !HasParameter(Flat(ts)) && Nullify(Flat(ts)) == Nullify(ts)
    decreases |ts|
  {
    hide Nullify;
    if ts == [] {
    } else {
      FlatHasNone(ts[1..]);
      assert ts == [ts[0]] + ts[1..];
      NullifyStep(ts[0], ts[1..]);
      if ts[0].kind.Parameter? {
        var rest := Flat(ts[1..]);
        var n, u, l := Token(Code, [78]), Token(Code, [85]), Token(Code, [76]);
        NullifyStep(l, rest);
        NullifyStep(l, [l] + rest);
        NullifyStep(u, [l] + ([l] + rest));
        NullifyStep(n, [u] + ([l] + ([l] + rest)));
        assert Flat(ts) == [n] + ([u] + ([l] + ([l] + rest)));
        assert [78] + ([85] + ([76] + ([76] + Nullify(rest)))) == NULL + Nullify(rest);
      } else {
        NullifyStep(ts[0], Flat(ts[1..]));
      }
    }
  }

  /** The tokens are the text, cut into non-empty pieces. */
  lemma {:induction false} TokensAreText(b: Text, s: Text)
    requires Lex(b, s).Some?
    ensures Render(Lex(b, s).value) == s
    decreases |s|
  {
    if s != [] {
      var n := Next(b, s).value.1;
      LexStep(b, s);
      TokensAreText(b + s[..n], s[n..]);
      var ts := Lex(b, s).value;
      assert ts[1..] == Lex(b + s[..n], s[n..]).value;
      assert s == s[..n] + s[n..];
    }
  }

  /** Without parameters nothing is rewritten; with one the text changes. */
  lemma {:induction false} NullifyChanges(b: Text, s: Text)
    requires Lex(b, s).Some?
    ensures (Nullify(Lex(b, s).value) == s) == !HasParameter(Lex(b, s).value)
    decreases |s|
  {
    hide Next, Lex, Nullify;
    if s == [] {
      NoTokens(b);
    } else {
      LexStep(b, s);
      var (kind, n) := Next(b, s).value;
      var x, rest := s[..n], Lex(b + s[..n], s[n..]).value;
      NullifyStep(Token(kind, x), rest);
      NullifyChanges(b + x, s[n..]);
      var ts := [Token(kind, x)] + rest;
      assert Lex(b, s).value == ts;
      assert s == x + s[n..];
      if kind.Parameter? {
        ParameterShape(b, s);
        assert ts[0].kind.Parameter?;
      } else {
        assert HasParameter(ts) == HasParameter(rest) by {
          if HasParameter(rest) {
            var i :| 0 <= i < |rest| && rest[i].kind.Parameter?;
            assert ts[i + 1].kind.Parameter?;
          }
        }
        if x + Nullify(rest) == x + s[n..] {
          assert (x + Nullify(rest))[n..] == Nullify(rest) && (x + s[n..])[n..] == s[n..];
        }
      }
    }
  }

  /**
   * Replacement: the result scans to the original tokens with each parameter in code
   * turned into NULL; so no unquoted parameter remains and replacing again changes nothing.
   */
  lemma ReplacedScans(query: Text)
    requires Lex([], query).Some?
    ensures Lex([], Replaced(query)) == Some(Flat(Lex([], query).value))
    ensures !ContainsParameter([], Replaced(query))
    ensures Render(Lex([], query).value) == query && Replaced(query) == Nullify(Lex([], query).value)
  {
    hide Lex, Nullify, Flat;
    Relex([], query, []);
    TokensAreText([], query);
    FlatHasNone(Lex([], query).value);
    ContainsIsHas([], Replaced(query));
  }

  lemma ReplacedTwice(query: Text)
    ensures Replaced(Replaced(query)) == Replaced(query)
  {
    hide Lex, Nullify, Flat;
    if Lex([], query).Some? {
      Relex([], query, []);
      FlatHasNone(Lex([], query).value);
    }
  }

  /** A query comes back unchanged exactly if it has no unquoted parameter, or something in it never closes. */
  lemma UnchangedExactly(query: Text)
    ensures Replaced(query) == query <==> Lex([], query).None? || !ContainsParameter([], query)
  {
    hide Lex, Nullify;
    if Lex([], query).Some? {
      NullifyChanges([], query);
      ContainsIsHas([], query);
    }
  }
}
