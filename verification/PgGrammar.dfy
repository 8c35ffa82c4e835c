/**
 * What the tokens of a PostgreSQL text are, told from their bytes: comments,
 * strings, quoted identifiers, dollar quotes and parameters.
 */
module PgGrammar {
  import opened Bytes
  import opened Wrappers
  import opened Quotes
  import opened PgLexer
  import opened PgRelex

  // ---------- the grammar ----------

  /** A byte that can begin a name. */
  predicate NameStart(b: Byte) {
    65 <= b <= 90 || 97 <= b <= 122 || b == 95 || b >= 128
  }

  predicate NameDigit(b: Byte) {
    48 <= b <= 57
  }

  /** From two dashes to the end of the line, without the line feed. */
  predicate LineComment(x: Text, rest: Text) {
    && |x| >= 2 && x[0] == DASH && x[1] == DASH && LF !in x
    && (rest == [] || rest[0] == LF)
  }

  /** Reading from the left, `/*` and `*/` balance at the end and not before. */
  predicate Balances(s: Text, depth: nat)
    decreases |s|
  {
    if depth == 0 then s == []
    else if |s| < 2 then false
    else if s[..2] == [SLASH, STAR] then Balances(s[2..], depth + 1)
    else if s[..2] == [STAR, SLASH] then Balances(s[2..], depth - 1)
    else Balances(s[1..], depth)
  }

  predicate BlockComment(x: Text) {
    |x| >= 2 && x[..2] == [SLASH, STAR] && Balances(x[2..], 1)
  }

  predicate EndsWith(s: Text, w: Text) {
    |w| <= |s| && s[|s| - |w|..] == w
  }

  predicate NameByte(b: Byte) {
    NameStart(b) || NameDigit(b) || b == DOLLAR
  }

  /** The text ends in a word, on its own. */
  predicate EndsInWord(s: Text, w: Text) {
    EndsWith(s, w) && (|s| == |w| || !NameByte(s[|s| - |w| - 1]))
  }

  /** Before an escape string stands `E` or `U&`, in any case, on its own. */
  predicate BeforeEscapes(b: Text) {
    EndsInWord(b, Ascii("E")) || EndsInWord(b, Ascii("e")) || EndsInWord(b, Ascii("U&")) || EndsInWord(b, Ascii("u&"))
  }

  /** `$name$`, where the name may be empty. */
  predicate Tag(t: Text) {
    && |t| >= 2 && t[0] == DOLLAR && t[|t| - 1] == DOLLAR
    && (|t| > 2 ==> NameStart(t[1]))
    && forall i :: 1 <= i < |t| - 1 ==> NameStart(t[i]) || NameDigit(t[i])
  }

  predicate FoundAt(s: Text, t: Text, k: nat) {
    k + |t| <= |s| && s[k..k + |t|] == t
  }

  /** A tag, and everything to its first repetition. */
  predicate DollarQuoted(x: Text, t: Text) {
    && Tag(t) && |x| >= 2 * |t| && t <= x && FoundAt(x[|t|..], t, |x| - 2 * |t|)
    && forall k: nat :: k < |x| - 2 * |t| ==> !FoundAt(x[|t|..], t, k)
  }

  predicate ParameterText(x: Text, rest: Text) {
    && |x| >= 2 && x[0] == DOLLAR && (forall i :: 1 <= i < |x| ==> NameDigit(x[i]))
    && (rest == [] || !NameDigit(rest[0]))
  }

  /** A text that is skipped whole. */
  ghost predicate SkippedText(b: Text, x: Text, rest: Text) {
    || LineComment(x, rest)
    || BlockComment(x)
    || QuotedText(x, rest, QUOTE, BeforeEscapes(b))
    || QuotedText(x, rest, DQUOTE, false)
    || exists t :: DollarQuoted(x, t)
  }

  /** A text that begins a comment or a dollar quote with no end. */
  ghost predicate NeverCloses(s: Text) {
    || (|s| >= 2 && s[..2] == [SLASH, STAR] && forall n: nat :: n <= |s| ==> !BlockComment(s[..n]))
    || (exists t: Text :: Tag(t) && t <= s && forall k: nat :: !FoundAt(s[|t|..], t, k))
  }

  /** One byte that begins none of these. */
  ghost predicate CodeByte(s: Text) {
    && s != [] && s[0] != QUOTE && s[0] != DQUOTE
    && !(|s| > 1 && (s[..2] == [DASH, DASH] || s[..2] == [SLASH, STAR]))
    && (s[0] == DOLLAR ==> (|s| > 1 ==> !NameDigit(s[1])) && forall t: Text :: Tag(t) ==> !(t <= s))
  }

  // ---------- the parts ----------

  lemma NameBytes(b: Byte)
    ensures NameStart(b) == IsIdentStart(b) && NameDigit(b) == IsDigit(b) && NameByte(b) == IsIdentPart(b)
    ensures IsTagPart(b) == (NameStart(b) || NameDigit(b))
  {
  }

  lemma {:induction false} LineIs(s: Text)
    ensures var n := LineLength(s); LF !in s[..n] && (n < |s| ==> s[n] == LF)
  {
    if s != [] && s[0] != LF {
      LineIs(s[1..]);
      var n := LineLength(s);
      assert s[..n] == [s[0]] + s[1..][..n - 1];
    }
  }

  lemma BalancesStep(s: Text, n: nat, depth: nat)
    requires depth > 0 && n <= |s|
    ensures |s| < 2 || n < 2 ==> !Balances(s[..n], depth)
    ensures |s| >= 2 && n >= 2 && s[0] == SLASH && s[1] == STAR ==>
              Balances(s[..n], depth) == Balances(s[2..][..n - 2], depth + 1)
    ensures |s| >= 2 && n >= 2 && s[0] == STAR && s[1] == SLASH ==>
              Balances(s[..n], depth) == Balances(s[2..][..n - 2], depth - 1)
    ensures |s| >= 2 && n >= 2 && !(s[0] == SLASH && s[1] == STAR) && !(s[0] == STAR && s[1] == SLASH) ==>
              Balances(s[..n], depth) == Balances(s[1..][..n - 1], depth)
  {
    if |s| >= 2 && n >= 2 {
      assert s[..n][2..] == s[2..][..n - 2] && s[..n][1..] == s[1..][..n - 1];
      assert s[..n][..2] == [s[0], s[1]];
    }
  }

  /** A comment's length is that of the only beginning of the text that balances. */
  lemma {:induction false} CommentIs(s: Text, depth: nat)
    requires depth > 0
    ensures forall n: nat :: n <= |s| ==> (Balances(s[..n], depth) <==> CommentLength(s, depth) == Some(n))
    decreases |s|
  {
    hide Balances;
    forall n: nat | n <= |s| ensures Balances(s[..n], depth) <==> CommentLength(s, depth) == Some(n) {
      BalancesStep(s, n, depth);
      if |s| >= 2 {
        CommentIs(s[1..], depth);
        CommentIs(s[2..], depth + 1);
        if depth > 1 {
          CommentIs(s[2..], depth - 1);
        } else if n >= 2 {
          BalancedNow(s[2..][..n - 2]);
        }
      }
    }
  }

  lemma BalancedNow(s: Text)
    ensures Balances(s, 0) <==> s == []
  {
  }

  /** The rest of a quoted text after its opening quote. */
  predicate QuotedRest(s: Text, n: nat, quote: Byte, escapes: bool) {
    && n <= |s|
    && (|| (n > 0 && s[n - 1] == quote && Inside(s[..n - 1], quote, escapes) && (n < |s| ==> s[n] != quote))
        || (n == |s| && Inside(s, quote, escapes))
        || (n == |s| && escapes && n > 0 && s[n - 1] == BACKSLASH && Inside(s[..n - 1], quote, escapes)))
  }

  lemma RestMore(s: Text, k: nat, n: nat, quote: Byte, escapes: bool)
    requires 1 <= k <= 2 && k <= |s| && QuotedRest(s[k..], n, quote, escapes)
    requires k == 1 ==> s[0] != quote && !(escapes && s[0] == BACKSLASH)
    requires k == 2 ==> if escapes && s[0] == BACKSLASH then true else s[0] == quote && s[1] == quote
    ensures QuotedRest(s, k + n, quote, escapes)
  {
    hide Inside;
    var r := s[k..];
    if n > 0 {
      var m := k + n - 1;
      assert s[..m][k..] == r[..n - 1] && r[n - 1] == s[m];
      assert s[..m][0] == s[0] && (k == 2 ==> s[..m][1] == s[1]);
      if Inside(r[..n - 1], quote, escapes) {
        InsideMore(s[..m], k, quote, escapes);
      }
    }
    if Inside(r, quote, escapes) {
      InsideMore(s, k, quote, escapes);
    }
  }

  lemma {:induction false} QuotedIs(s: Text, quote: Byte, escapes: bool)
    requires quote != BACKSLASH
    ensures QuotedRest(s, QuotedLength(s, quote, escapes), quote, escapes)
    decreases |s|
  {
    hide Inside, QuotedLength;
    NothingInside(quote, escapes);
    if s == [] {
      assert QuotedLength(s, quote, escapes) == 0 by { NoQuoted(quote, escapes); }
    } else {
      QuotedStep(s, quote, escapes);
      assert s[..0] == [];
      if (escapes && s[0] == BACKSLASH) || (s[0] == quote && |s| > 1 && s[1] == quote) {
        if |s| > 1 {
          QuotedIs(s[2..], quote, escapes);
          RestMore(s, 2, QuotedLength(s[2..], quote, escapes), quote, escapes);
        }
      } else if s[0] != quote {
        QuotedIs(s[1..], quote, escapes);
        RestMore(s, 1, QuotedLength(s[1..], quote, escapes), quote, escapes);
      }
    }
  }

  lemma NoQuoted(quote: Byte, escapes: bool)
    ensures QuotedLength([], quote, escapes) == 0
  {
  }

  /** Such a rest and its opening quote are a quoted text. */
  lemma QuotedWhole(s: Text, n: nat, quote: Byte, escapes: bool)
    requires s != [] && s[0] == quote && QuotedRest(s[1..], n, quote, escapes)
    ensures QuotedText(s[..n + 1], s[n + 1..], quote, escapes)
  {
    hide Inside;
    var x, r := s[..n + 1], s[1..];
    assert x[1..] == r[..n];
    if n > 0 {
      assert x[1..|x| - 1] == r[..n - 1] && x[|x| - 1] == r[n - 1];
    }
    assert n == |r| ==> r[..n] == r;
  }

  lemma {:induction false} TagRunIs(s: Text)
    ensures var n := TagRun(s);
            (forall i :: 0 <= i < n ==> IsTagPart(s[i])) && (n < |s| ==> !IsTagPart(s[n]))
  {
    if s != [] && IsTagPart(s[0]) {
      TagRunIs(s[1..]);
      forall i | 0 <= i < TagRun(s) ensures IsTagPart(s[i]) {
        assert i > 0 ==> s[i] == s[1..][i - 1];
      }
    }
  }

  /** A tag's length is that of the only beginning of the text that is a tag. */
  lemma TagIs(s: Text, n: nat)
    requires n <= |s|
    ensures TagLength(s) == Some(n) <==> Tag(s[..n])
  {
    hide IsTagPart, NameStart, NameDigit;
    TagBytes();
    if |s| >= 2 && s[0] == DOLLAR {
      var r := s[1..];
      TagRunIs(r);
      assert forall i :: 1 <= i < |s| ==> s[i] == r[i - 1];
    }
  }

  lemma TagBytes()
    ensures forall b: Byte :: IsTagPart(b) == (NameStart(b) || NameDigit(b)) && IsIdentStart(b) == NameStart(b)
    ensures !IsTagPart(DOLLAR)
  {
  }

  lemma NoTag(s: Text)
    requires TagLength(s).None?
    ensures forall t: Text :: Tag(t) ==> !(t <= s)
  {
    hide Tag, TagLength;
    forall t: Text ensures Tag(t) ==> !(t <= s) {
      if t <= s {
        assert s[..|t|] == t;
        TagIs(s, |t|);
      }
    }
  }

  lemma OneTag(s: Text, t: Text)
    requires Tag(t) && t <= s
    ensures TagLength(s) == Some(|t|)
  {
    hide Tag, TagLength;
    assert s[..|t|] == t;
    TagIs(s, |t|);
  }

  lemma Within(s: Text, k: nat, n: nat)
    requires 0 < k && k + n <= |s|
    ensures s[1..][k - 1..k - 1 + n] == s[k..k + n]
  {
  }

  /** The first occurrence of a tag. */
  lemma {:induction false} IndexIs(s: Text, tag: Text)
    requires tag != []
    ensures IndexOf(s, tag).Some? ==>
              && FoundAt(s, tag, IndexOf(s, tag).value)
              && forall k: nat :: k < IndexOf(s, tag).value ==> !FoundAt(s, tag, k)
    ensures IndexOf(s, tag).None? ==> forall k: nat :: !FoundAt(s, tag, k)
  {
    if |s| >= |tag| && s[..|tag|] != tag {
      IndexIs(s[1..], tag);
      forall k: nat ensures FoundAt(s, tag, k) == (k > 0 && FoundAt(s[1..], tag, k - 1)) {
        if k > 0 && k + |tag| <= |s| {
          Within(s, k, |tag|);
        }
      }
    }
  }

  lemma EndsInOne(b: Text, w: Text)
    requires |w| == 1
    ensures var n := |b|;
            EndsInWord(b, w) == (n > 0 && b[n - 1] == w[0] && (n == 1 || !IsIdentPart(b[n - 2])))
  {
    var n := |b|;
    if n > 0 {
      assert b[n - 1..] == [b[n - 1]] && w == [w[0]];
    }
    if n > 1 {
      NameBytes(b[n - 2]);
    }
  }

  lemma EndsInTwo(b: Text, w: Text)
    requires |w| == 2
    ensures var n := |b|;
            EndsInWord(b, w) ==
            (n > 1 && b[n - 2] == w[0] && b[n - 1] == w[1] && (n == 2 || !IsIdentPart(b[n - 3])))
  {
    var n := |b|;
    if n > 1 {
      assert b[n - 2..] == [b[n - 2], b[n - 1]] && w == [w[0], w[1]];
    }
    if n > 2 {
      NameBytes(b[n - 3]);
    }
  }

  lemma EscapesAre(b: Text)
    ensures EscapePrefix(b) == BeforeEscapes(b)
  {
    hide EndsInWord, IsIdentPart;
    EndsInOne(b, Ascii("E"));
    EndsInOne(b, Ascii("e"));
    EndsInTwo(b, Ascii("U&"));
    EndsInTwo(b, Ascii("u&"));
  }

  // ---------- the tokens ----------

  /** What one token is: skipped, a parameter, or a byte of code; or why there is none. */
  ghost predicate IsToken(b: Text, s: Text, r: Option<(Kind, nat)>) {
    match r
    case None => NeverCloses(s)
    case Some((kind, n)) =>
      && 1 <= n <= |s|
      && match kind
         case Skipped => SkippedText(b, s[..n], s[n..])
         case Parameter => ParameterText(s[..n], s[n..]) && forall t: Text :: Tag(t) ==> !(t <= s)
         case Code => n == 1 && CodeByte(s)
  }

  /** Every token is what the grammar says. */
  lemma TokenIs(b: Text, s: Text)
    requires s != []
    ensures IsToken(b, s, Next(b, s))
  {
    hide CommentLength, QuotedLength, LineLength, DigitCount, TagLength, IndexOf, EscapePrefix, BeforeEscapes;
    hide Tag, FoundAt, Inside, Balances, NameStart;
    if |s| > 1 {
      assert s[..2] == [s[0], s[1]];
    }
    if |s| > 1 && s[0] == DASH && s[1] == DASH {
      LineToken(s);
    } else if |s| > 1 && s[0] == SLASH && s[1] == STAR {
      CommentToken(s);
    } else if s[0] == QUOTE {
      EscapesAre(b);
      QuotedIs(s[1..], QUOTE, EscapePrefix(b));
      QuotedWhole(s, QuotedLength(s[1..], QUOTE, EscapePrefix(b)), QUOTE, EscapePrefix(b));
    } else if s[0] == DQUOTE {
      QuotedIs(s[1..], DQUOTE, false);
      QuotedWhole(s, QuotedLength(s[1..], DQUOTE, false), DQUOTE, false);
    } else if s[0] == DOLLAR {
      DollarToken(b, s);
    }
  }

  lemma LineToken(s: Text)
    requires |s| > 1 && s[0] == DASH && s[1] == DASH
    ensures var n := 2 + LineLength(s[2..]); LineComment(s[..n], s[n..])
  {
    hide LineLength;
    LineIs(s[2..]);
    var k := LineLength(s[2..]);
    assert s[..2 + k] == [DASH, DASH] + s[2..][..k];
    assert k < |s[2..]| ==> s[2 + k..][0] == s[2..][k];
  }

  lemma CommentToken(s: Text)
    requires |s| > 1 && s[0] == SLASH && s[1] == STAR
    ensures var r := CommentLength(s[2..], 1);
            if r.None? then NeverCloses(s) else BlockComment(s[..2 + r.value])
  {
    hide CommentLength, Balances;
    CommentIs(s[2..], 1);
    assert s[..2] == [SLASH, STAR];
    forall n: nat | n <= |s| ensures BlockComment(s[..n]) <==> n >= 2 && Balances(s[2..][..n - 2], 1) {
      if n >= 2 {
        assert s[..n][..2] == s[..2] && s[..n][2..] == s[2..][..n - 2];
      }
    }
  }

  lemma DollarToken(b: Text, s: Text)
    requires s != [] && s[0] == DOLLAR
    ensures IsToken(b, s, Next(b, s))
  {
    hide TagLength, IndexOf, DigitCount, Tag, FoundAt;
    if TagLength(s).Some? {
      var n := TagLength(s).value;
      var t, u := s[..n], s[n..];
      TagIs(s, n);
      TagSize(t);
      IndexIs(u, t);
      if IndexOf(u, t).Some? {
        DollarWhole(s, n, IndexOf(u, t).value);
      } else {
        assert t <= s && s[|t|..] == u;
      }
    } else {
      NoTag(s);
      if |s| > 1 && IsDigit(s[1]) {
        ParameterWhole(s);
      }
    }
  }

  lemma TagSize(t: Text)
    ensures Tag(t) ==> |t| >= 2
  {
  }

  lemma DollarWhole(s: Text, n: nat, k: nat)
    requires n <= |s| && Tag(s[..n]) && FoundAt(s[n..], s[..n], k)
    requires forall j: nat :: j < k ==> !FoundAt(s[n..], s[..n], j)
    ensures n + k + n <= |s| && DollarQuoted(s[..n + k + n], s[..n])
  {
    hide Tag;
    TagSize(s[..n]);
    var x, t, u := s[..n + k + n], s[..n], s[n..];
    assert x[n..] == u[..k + n];
    forall j: nat | j <= k ensures FoundAt(x[n..], t, j) == FoundAt(u, t, j) {
      assert u[..k + n][j..j + n] == u[j..j + n];
    }
  }

  lemma ParameterWhole(s: Text)
    requires |s| > 1 && s[0] == DOLLAR && IsDigit(s[1])
    ensures var n := 1 + DigitCount(s[1..]); ParameterText(s[..n], s[n..])
  {
    var k := DigitCount(s[1..]);
    forall i | 1 <= i < 1 + k ensures NameDigit(s[i]) {
      assert s[i] == s[1..][..k][i - 1];
    }
    assert k < |s[1..]| ==> s[1 + k..][0] == s[1..][k];
    assert s[1..][0] == s[1];
  }

  // ---------- there is only one token ----------

  lemma RestLess(s: Text, k: nat, n: nat, quote: Byte, escapes: bool)
    requires 1 <= k <= 2 && k <= |s| && QuotedRest(s, n, quote, escapes) && quote != BACKSLASH
    requires k == 1 ==> s[0] != quote && !(escapes && s[0] == BACKSLASH)
    requires k == 2 ==> (s[0] == quote && s[1] == quote) || (escapes && s[0] == BACKSLASH)
    ensures n >= k && QuotedRest(s[k..], n - k, quote, escapes)
  {
    hide Inside;
    var r := s[k..];
    if k == 2 {
      InsideOne(s[0], quote, escapes);
      assert |s| >= 2 && (n == 2 ==> s[..n - 1] == [s[0]]);
    }
    if n > k {
      assert s[..n - 1][k..] == r[..n - k - 1];
      assert k == 2 ==> s[..n - 1][0] == s[0] && s[..n - 1][1] == s[1];
      if Inside(s[..n - 1], quote, escapes) {
        InsideLess(s[..n - 1], k, quote, escapes);
      }
    }
    if Inside(s, quote, escapes) {
      InsideLess(s, k, quote, escapes);
    }
  }

  lemma {:induction false} QuotedOnly(s: Text, n: nat, quote: Byte, escapes: bool)
    requires QuotedRest(s, n, quote, escapes) && quote != BACKSLASH
    ensures n == QuotedLength(s, quote, escapes)
    decreases |s|
  {
    hide Inside, QuotedLength;
    if s == [] {
      NoQuoted(quote, escapes);
    } else {
      QuotedStep(s, quote, escapes);
      if (escapes && s[0] == BACKSLASH) || (s[0] == quote && |s| > 1 && s[1] == quote) {
        if |s| > 1 {
          RestLess(s, 2, n, quote, escapes);
          QuotedOnly(s[2..], n - 2, quote, escapes);
        }
      } else if s[0] != quote {
        RestLess(s, 1, n, quote, escapes);
        QuotedOnly(s[1..], n - 1, quote, escapes);
      } else {
        if Inside(s, quote, escapes) {
          InsideQuote(s, quote, escapes);
        }
        if n > 1 && Inside(s[..n - 1], quote, escapes) {
          InsideQuote(s[..n - 1], quote, escapes);
        }
      }
    }
  }

  lemma QuotedPart(x: Text, rest: Text, quote: Byte, escapes: bool)
    requires QuotedText(x, rest, quote, escapes) && quote != BACKSLASH
    ensures |x| - 1 == QuotedLength((x + rest)[1..], quote, escapes)
  {
    hide Inside;
    var s := (x + rest)[1..];
    var n := |x| - 1;
    assert s == x[1..] + rest;
    if n > 0 {
      assert s[..n - 1] == x[1..|x| - 1] && s[n - 1] == x[|x| - 1];
    }
    assert n < |s| ==> s[n] == rest[0];
    assert rest == [] ==> s == x[1..];
    QuotedOnly(s, n, quote, escapes);
  }

  lemma {:induction false} LineOnly(s: Text, k: nat)
    requires k <= |s| && (forall i :: 0 <= i < k ==> s[i] != LF) && (k < |s| ==> s[k] == LF)
    ensures LineLength(s) == k
  {
    if k > 0 {
      LineOnly(s[1..], k - 1);
    }
  }

  lemma LinePart(x: Text, rest: Text)
    requires LineComment(x, rest)
    ensures |x| == 2 + LineLength((x + rest)[2..])
  {
    var s := (x + rest)[2..];
    var k := |x| - 2;
    assert forall i :: 0 <= i < k ==> s[i] == x[i + 2] && x[i + 2] in x;
    assert k < |s| ==> s[k] == rest[0];
    LineOnly(s, k);
  }

  lemma CommentPart(x: Text, rest: Text)
    requires BlockComment(x)
    ensures CommentLength((x + rest)[2..], 1) == Some(|x| - 2)
  {
    hide Balances, CommentLength;
    var s := (x + rest)[2..];
    assert s[..|x| - 2] == x[2..];
    CommentIs(s, 1);
  }

  lemma FoundInFront(v: Text, rest: Text, t: Text, j: nat)
    requires j + |t| <= |v|
    ensures FoundAt(v + rest, t, j) == FoundAt(v, t, j)
  {
    assert (v + rest)[j..j + |t|] == v[j..j + |t|];
  }

  lemma IndexOnly(u: Text, t: Text, k: nat)
    requires t != [] && FoundAt(u, t, k) && forall j: nat :: j < k ==> !FoundAt(u, t, j)
    ensures IndexOf(u, t) == Some(k)
  {
    hide FoundAt, IndexOf;
    IndexIs(u, t);
  }

  lemma TagInFront(x: Text, rest: Text, t: Text)
    requires t <= x
    ensures t <= x + rest && (x + rest)[|t|..] == x[|t|..] + rest
  {
  }

  lemma DollarPart(x: Text, rest: Text, t: Text)
    requires DollarQuoted(x, t)
    ensures var s := x + rest; t <= s && s[|t|..] == x[|t|..] + rest
    ensures IndexOf(x[|t|..] + rest, t) == Some(|x| - 2 * |t|)
  {
    hide Tag, FoundAt, IndexOf;
    TagSize(t);
    TagInFront(x, rest, t);
    var v, k := x[|t|..], |x| - 2 * |t|;
    FoundInFront(v, rest, t, k);
    forall j: nat | j < k ensures !FoundAt(v + rest, t, j) {
      FoundInFront(v, rest, t, j);
    }
    IndexOnly(v + rest, t, k);
  }

  lemma {:induction false} DigitsOnly(s: Text, k: nat)
    requires k <= |s| && (forall i :: 0 <= i < k ==> IsDigit(s[i])) && (k < |s| ==> !IsDigit(s[k]))
    ensures DigitCount(s) == k
  {
    if k > 0 {
      DigitsOnly(s[1..], k - 1);
    }
  }

  lemma ParameterPart(x: Text, rest: Text)
    requires ParameterText(x, rest)
    ensures DigitCount((x + rest)[1..]) == |x| - 1
  {
    hide DigitCount;
    var s := (x + rest)[1..];
    var k := |x| - 1;
    assert forall i :: 0 <= i < k ==> s[i] == x[i + 1] && NameDigit(x[i + 1]);
    assert k < |s| ==> s[k] == rest[0];
    DigitsOnly(s, k);
  }

  lemma UntaggedNone(s: Text)
    requires forall t: Text :: Tag(t) ==> !(t <= s)
    ensures TagLength(s).None?
  {
    hide Tag, TagLength;
    forall n: nat | n <= |s| ensures TagLength(s) != Some(n) {
      TagIs(s, n);
      assert s[..n] <= s;
    }
    TagWithin(s);
  }

  lemma TagWithin(s: Text)
    ensures TagLength(s).Some? ==> TagLength(s).value <= |s|
  {
    hide TagLength;
  }

  /** A text that is skipped whole is what the lexer skips. */
  lemma SkippedOnly(b: Text, x: Text, rest: Text)
    requires SkippedText(b, x, rest) && x != []
    ensures Next(b, x + rest) == Some((Skipped, |x|))
  {
    hide CommentLength, QuotedLength, LineLength, DigitCount, TagLength, IndexOf, EscapePrefix, BeforeEscapes;
    hide Inside, Balances, FoundAt;
    var s := x + rest;
    assert s[0] == x[0] && (|x| > 1 ==> s[1] == x[1]);
    if LineComment(x, rest) {
      LinePart(x, rest);
    } else if BlockComment(x) {
      assert x[..2][0] == x[0] && x[..2][1] == x[1];
      CommentPart(x, rest);
    } else if QuotedText(x, rest, QUOTE, BeforeEscapes(b)) {
      EscapesAre(b);
      QuotedPart(x, rest, QUOTE, BeforeEscapes(b));
    } else if QuotedText(x, rest, DQUOTE, false) {
      QuotedPart(x, rest, DQUOTE, false);
    } else {
      var t :| DollarQuoted(x, t);
      DollarPart(x, rest, t);
      OneTag(s, t);
      assert s[..|t|] == t && x[0] == t[0] == DOLLAR;
    }
  }

  lemma CodeOnly(b: Text, s: Text)
    requires CodeByte(s)
    ensures Next(b, s) == Some((Code, 1))
  {
    hide Tag, TagLength;
    assert |s| > 1 ==> s[..2] == [s[0], s[1]];
    if s[0] == DOLLAR {
      UntaggedNone(s);
    }
    assert |s| > 1 ==> NameDigit(s[1]) == IsDigit(s[1]);
  }

  lemma ParameterOnly(b: Text, x: Text, rest: Text)
    requires ParameterText(x, rest) && forall t: Text :: Tag(t) ==> !(t <= x + rest)
    ensures Next(b, x + rest) == Some((Parameter, |x|))
  {
    hide Tag, TagLength, DigitCount;
    var s := x + rest;
    ParameterPart(x, rest);
    UntaggedNone(s);
    assert s[0] == x[0] && s[1] == x[1];
  }

  lemma NeverOnly(b: Text, s: Text)
    requires s != [] && NeverCloses(s)
    ensures Next(b, s).None?
  {
    hide Tag, TagLength, Balances, CommentLength, IndexOf;
    TagStarts();
    if t: Text :| Tag(t) && t <= s && forall k: nat :: !FoundAt(s[|t|..], t, k) {
      OneTag(s, t);
      IndexIs(s[|t|..], t);
      assert s[..|t|] == t;
    } else {
      assert s[0] == s[..2][0] == SLASH && s[1] == s[..2][1] == STAR;
      CommentToken(s);
    }
  }

  lemma TagStarts()
    ensures forall t: Text :: Tag(t) ==> |t| >= 2 && t[0] == DOLLAR
  {
  }

  /** So the grammar says exactly what each token is. */
  lemma TokenExactly(b: Text, s: Text, r: Option<(Kind, nat)>)
    requires s != []
    ensures IsToken(b, s, r) <==> r == Next(b, s)
  {
    hide Next, SkippedText, CodeByte, ParameterText, NeverCloses, Tag;
    TokenIs(b, s);
    if IsToken(b, s, r) {
      match r
      case None => NeverOnly(b, s);
      case Some((kind, n)) =>
        assert s == s[..n] + s[n..];
        match kind
        case Skipped => SkippedOnly(b, s[..n], s[n..]);
        case Parameter => ParameterOnly(b, s[..n], s[n..]);
        case Code => CodeOnly(b, s);
    }
  }

  // ---------- whole texts ----------

  /** Tokens of the grammar, one after the other, from the beginning of a text. */
  ghost predicate Covers(b: Text, s: Text, ts: seq<Token>)
    decreases |ts|
  {
    ts == [] ||
    (var x := ts[0].text;
     && x != [] && x <= s && IsToken(b, s, Some((ts[0].kind, |x|)))
     && Covers(b + x, s[|x|..], ts[1..]))
  }

  lemma CoversStep(b: Text, s: Text, t: Token, ts: seq<Token>)
    ensures Covers(b, s, [t] + ts) <==>
            && t.text != [] && t.text <= s && IsToken(b, s, Some((t.kind, |t.text|)))
            && Covers(b + t.text, s[|t.text|..], ts)
  {
    hide IsToken;
    assert ([t] + ts)[1..] == ts;
  }

  lemma RenderStep(t: Token, ts: seq<Token>)
    ensures Render([t] + ts) == t.text + Render(ts)
  {
    assert ([t] + ts)[1..] == ts;
  }

  /** A text of tokens is read as these tokens, and what comes after them from there. */
  lemma {:induction false} LexCovered(b: Text, s: Text, ts: seq<Token>)
    requires Covers(b, s, ts)
    ensures |Render(ts)| <= |s| && Render(ts) <= s
    ensures var rest := Lex(b + Render(ts), s[|Render(ts)|..]);
            Lex(b, s) == if rest.None? then None else Some(ts + rest.value)
    ensures ContainsParameter(b, s) ==
            (HasParameter(ts) || ContainsParameter(b + Render(ts), s[|Render(ts)|..]))
    decreases |ts|
  {
    hide Next, IsToken, Lex, ContainsParameter, Render;
    if ts == [] {
      assert Render([]) == [] by { NoRender(); }
      assert b + [] == b && s[0..] == s;
      var rest := Lex(b, s);
      assert rest.Some? ==> [] + rest.value == rest.value;
    } else {
      var t, us := ts[0], ts[1..];
      assert ts == [t] + us;
      CoversStep(b, s, t, us);
      RenderStep(t, us);
      var n := |t.text|;
      TokenExactly(b, s, Some((t.kind, n)));
      LexCovered(b + t.text, s[n..], us);
      LexStep(b, s);
      ContainsStep(b, s);
      assert s[..n] == t.text;
      var m := |Render(us)|;
      assert s[n..][m..] == s[n + m..] && b + t.text + Render(us) == b + (t.text + Render(us));
      assert t.text + Render(us) <= s by { assert s == t.text + s[n..]; }
      HasStep(t, us);
      var rest := Lex(b + Render(ts), s[n + m..]);
      if rest.Some? {
        assert [t] + (us + rest.value) == [t] + us + rest.value;
        assert Token(t.kind, t.text) == t;
      }
    }
  }

  lemma NoRender()
    ensures Render([]) == []
  {
  }

  lemma ContainsStep(b: Text, s: Text)
    requires s != [] && Next(b, s).Some?
    ensures var (kind, n) := Next(b, s).value;
            ContainsParameter(b, s) == (kind.Parameter? || ContainsParameter(b + s[..n], s[n..]))
  {
  }

  lemma HasStep(t: Token, ts: seq<Token>)
    ensures HasParameter([t] + ts) == (t.kind.Parameter? || HasParameter(ts))
  {
    var all := [t] + ts;
    assert all[0] == t;
    if HasParameter(ts) {
      var i :| 0 <= i < |ts| && ts[i].kind.Parameter?;
      assert all[i + 1] == ts[i];
    }
    if HasParameter(all) {
      var i :| 0 <= i < |all| && all[i].kind.Parameter?;
      assert i > 0 ==> all[i] == ts[i - 1];
    }
  }

  /**
   * A text is read as tokens of the grammar to its end, or to where something begins that
   * never closes.
   */
  lemma {:induction false} LexIs(b: Text, s: Text) returns (ts: seq<Token>)
    ensures Covers(b, s, ts) && Render(ts) <= s
    ensures Lex(b, s).Some? ==> Lex(b, s) == Some(ts) && Render(ts) == s
    ensures Lex(b, s).None? ==> NeverCloses(s[|Render(ts)|..])
    decreases |s|
  {
    hide Next, IsToken, Lex, NeverCloses, Render;
    NoRender();
    if s == [] {
      ts := [];
      NoTokens(b);
    } else {
      TokenIs(b, s);
      LexStep(b, s);
      if Next(b, s).None? {
        ts := [];
        assert s[0..] == s;
        NoneIs(b, s);
      } else {
        var (kind, n) := Next(b, s).value;
        var x := s[..n];
        var us := LexIs(b + x, s[n..]);
        ts := [Token(kind, x)] + us;
        SomeIs(b, s);
        CoversStep(b, s, Token(kind, x), us);
        RenderStep(Token(kind, x), us);
        assert s == x + s[n..] && s[n..][|Render(us)|..] == s[|Render(ts)|..];
      }
    }
  }

  lemma NoneIs(b: Text, s: Text)
    requires IsToken(b, s, None)
    ensures NeverCloses(s)
  {
  }

  lemma SomeIs(b: Text, s: Text)
    requires s != [] && Next(b, s).Some?
    ensures 1 <= Next(b, s).value.1 <= |s|
  {
    hide Next;
  }

  // ---------- after a comment ----------

  /** What comes before matters to a text only through the look-behind. */
  lemma {:induction false} LexAlike(b: Text, c: Text, s: Text)
    requires Alike(b, c)
    ensures Lex(b, s) == Lex(c, s) && ContainsParameter(b, s) == ContainsParameter(c, s)
    decreases |s|
  {
    hide Next, Lex, ContainsParameter, BehindOf;
    if s == [] {
      NoTokens(b);
      NoTokens(c);
      assert !ContainsParameter(b, []) && !ContainsParameter(c, []) by { ContainsNone(b); ContainsNone(c); }
    } else {
      NextAlike(b, c, s);
      LexStep(b, s);
      LexStep(c, s);
      if Next(b, s).Some? {
        SomeIs(b, s);
        ContainsStep(b, s);
        ContainsStep(c, s);
        var n := Next(b, s).value.1;
        AlikeAppend(b, c, s[..n]);
        LexAlike(b + s[..n], c + s[..n], s[n..]);
      } else {
        ContainsStop(b, s);
        ContainsStop(c, s);
      }
    }
  }

  lemma ContainsNone(b: Text)
    ensures !ContainsParameter(b, [])
  {
  }

  lemma ContainsStop(b: Text, s: Text)
    requires s != [] && Next(b, s).None?
    ensures !ContainsParameter(b, s)
  {
  }

  lemma NextAlike(b: Text, c: Text, s: Text)
    requires s != [] && Alike(b, c)
    ensures Next(b, s) == Next(c, s)
  {
    hide CommentLength, QuotedLength, LineLength, DigitCount, TagLength, IndexOf, EscapePrefix, BehindOf;
    BehindDecides(b);
    BehindDecides(c);
  }

  /** Between tokens in code: the grammar cuts the text there. */
  ghost predicate InCode(a: Text, follow: Text) {
    exists ts :: Covers([], a + follow, ts) && Render(ts) == a
  }

  /** A token in front of others is that token when the text ends earlier, unless it is a line comment. */
  lemma Shorter(b: Text, s: Text, t: Text, r: Option<(Kind, nat)>)
    requires r.Some? && r.value.1 <= |s| && t != [] && t[0] != LF && IsToken(b, s + t, r)
    ensures IsToken(b, s, r)
  {
    hide Inside, Balances, FoundAt, BeforeEscapes, Tag;
    var (kind, n) := r.value;
    assert (s + t)[..n] == s[..n] && (s + t)[n..] == s[n..] + t;
    match kind
    case Skipped =>
    case Parameter => assert forall x: Text :: Tag(x) && x <= s ==> x <= s + t;
    case Code =>
      assert forall x: Text :: Tag(x) && x <= s ==> x <= s + t;
      assert |s| > 1 ==> (s + t)[..2] == s[..2];
  }

  lemma {:induction false} CoversShorter(b: Text, s: Text, t: Text, ts: seq<Token>)
    requires Covers(b, s + t, ts) && Render(ts) == s && t != [] && t[0] != LF
    ensures Covers(b, s, ts)
    decreases |ts|
  {
    hide IsToken, Render;
    if ts != [] {
      var x, us := ts[0], ts[1..];
      assert ts == [x] + us;
      CoversStep(b, s + t, x, us);
      RenderStep(x, us);
      var n := |x.text|;
      assert (s + t)[n..] == s[n..] + t && s[n..] == Render(us);
      Shorter(b, s, t, Some((x.kind, n)));
      CoversShorter(b + x.text, s[n..], t, us);
      CoversStep(b, s, x, us);
    }
  }

  /** A comment to the end of a line, in code. */
  lemma LineCovered(b: Text, c: Text, s: Text)
    requires LF !in c
    ensures var x := [DASH, DASH] + c;
            Covers(b, x + ([LF] + s), [Token(Skipped, x), Token(Code, [LF])])
  {
    hide Tag;
    var x := [DASH, DASH] + c;
    var t := x + ([LF] + s);
    assert t[..|x|] == x && t[|x|..] == [LF] + s && x[0] == DASH && x[1] == DASH;
    assert LineComment(x, [LF] + s);
    assert CodeByte([LF] + s);
    CoversStep(b + x, [LF] + s, Token(Code, [LF]), []);
    CoversStep(b, t, Token(Skipped, x), [Token(Code, [LF])]);
    assert [Token(Skipped, x)] + [Token(Code, [LF])] == [Token(Skipped, x), Token(Code, [LF])];
    assert [Token(Code, [LF])] + [] == [Token(Code, [LF])];
  }

  lemma {:induction false} NullifyJoin(ts: seq<Token>, us: seq<Token>)
    ensures Nullify(ts + us) == Nullify(ts) + Nullify(us)
    decreases |ts|
  {
    hide Nullify;
    if ts == [] {
      assert ts + us == us;
      NoTokens([]);
    } else {
      assert ts == [ts[0]] + ts[1..] && ts + us == [ts[0]] + (ts[1..] + us);
      NullifyStep(ts[0], ts[1..]);
      NullifyStep(ts[0], ts[1..] + us);
      NullifyJoin(ts[1..], us);
    }
  }

  /**
   * A line comment in code ends with its line: replacement works before it and after it, and
   * leaves it as it is, unless something after it never closes and nothing is replaced.
   */
  lemma AfterLineComment(a: Text, c: Text, s: Text)
    requires LF !in c && InCode(a, [DASH, DASH] + c + ([LF] + s))
    ensures var comment := [DASH, DASH] + c + [LF];
            && Replaced(a + comment + s) ==
               (if Lex([], s).None? then a + comment + s else Replaced(a) + comment + Replaced(s))
            && ContainsParameter([], a + comment + s) == (ContainsParameter([], a) || ContainsParameter([], s))
  {
    hide IsToken, Lex, ContainsParameter, Nullify, Render, Covers, BehindOf;
    var x := [DASH, DASH] + c;
    var t := x + ([LF] + s);
    var ts :| Covers([], a + t, ts) && Render(ts) == a;
    var all := a + (x + [LF]) + s;
    assert a + t == all;
    NoRender();
    NoTokens([]);
    LexCovered([], a + t, ts);
    assert (a + t)[|a|..] == t && [] + a == a;
    assert t[0] == DASH;
    CoversShorter([], a, t, ts);
    LexCovered([], a, ts);
    assert a[|a|..] == [];
    NoTokens(a);
    ContainsNone(a);
    assert ts + [] == ts;
    LineCovered(a, c, s);
    var us := [Token(Skipped, x), Token(Code, [LF])];
    LexCovered(a, t, us);
    CommentRender(x);
    assert t[|x + [LF]|..] == s;
    EndsLine(a + (x + [LF]));
    LexAlike(a + (x + [LF]), [], s);
    if Lex([], s).Some? {
      var vs := Lex([], s).value;
      NullifyJoin(ts, us + vs);
      NullifyJoin(us, vs);
      assert Nullify(ts) + ((x + [LF]) + Nullify(vs)) == Nullify(ts) + (x + [LF]) + Nullify(vs);
    }
  }

  lemma CommentRender(x: Text)
    ensures var us := [Token(Skipped, x), Token(Code, [LF])];
            Render(us) == x + [LF] && Nullify(us) == x + [LF] && !HasParameter(us)
  {
    var us := [Token(Skipped, x), Token(Code, [LF])];
    assert us[1..] == [Token(Code, [LF])] && us[1..][1..] == [];
    assert Render(us[1..]) == [LF] && Nullify(us[1..]) == [LF];
  }

  lemma EndsLine(b: Text)
    requires b != [] && b[|b| - 1] == LF
    ensures Alike(b, [])
  {
  }
}
