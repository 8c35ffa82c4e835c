/**
 * The PostgreSQL lexer that the EXPLAIN fallback shares: line comments, nested
 * block comments, strings with and without backslash escapes, quoted
 * identifiers, dollar quotes and `$1` parameters.
 */
module PgLexer {
  import opened Bytes
  import opened Wrappers

  datatype Kind = Code | Skipped | Parameter

  datatype Token = Token(kind: Kind, text: Text)

  predicate IsIdentStart(b: Byte) {
    b == UNDERSCORE || IsLetter(b) || b >= 128
  }

  predicate IsIdentPart(b: Byte) {
    IsIdentStart(b) || IsDigit(b) || b == DOLLAR
  }

  predicate IsTagPart(b: Byte) {
    IsIdentStart(b) || IsDigit(b)
  }

  predicate IsE(b: Byte) {
    b == 101 || b == 69
  }

  predicate IsU(b: Byte) {
    b == 117 || b == 85
  }

  /** Whether a quote after this text opens a string with backslash escapes: after `E` or `U&` on its own. */
  predicate EscapePrefix(before: Text) {
    var n := |before|;
    if n > 0 && IsE(before[n - 1]) then n == 1 || !IsIdentPart(before[n - 2])
    else n > 1 && before[n - 1] == AMPERSAND && IsU(before[n - 2]) && (n == 2 || !IsIdentPart(before[n - 3]))
  }

  /** Length of the text before the first line feed. */
  function LineLength(s: Text): (n: nat)
    ensures n <= |s|
  {
    if s == [] || s[0] == LF then 0 else 1 + LineLength(s[1..])
  }

  /** Length of a comment body up to and including the end of `depth` nested comments. */
  function CommentLength(s: Text, depth: nat): (r: Option<nat>)
    requires depth > 0
    ensures r.Some? ==> 2 <= r.value <= |s|
  {
    if s == [] then None
    else if |s| > 1 && s[0] == SLASH && s[1] == STAR then Longer(2, CommentLength(s[2..], depth + 1))
    else if |s| > 1 && s[0] == STAR && s[1] == SLASH then
      if depth == 1 then Some(2) else Longer(2, CommentLength(s[2..], depth - 1))
    else Longer(1, CommentLength(s[1..], depth))
  }

  /** Length of a quoted body through its closing quote, or all of it if there is none. */
  function QuotedLength(s: Text, quote: Byte, escapes: bool): (n: nat)
    ensures n <= |s| && (s != [] ==> n > 0)
  {
    if s == [] then 0
    else if escapes && s[0] == BACKSLASH then
      if |s| == 1 then 1 else 2 + QuotedLength(s[2..], quote, escapes)
    else if s[0] == quote then
      if |s| > 1 && s[1] == quote then 2 + QuotedLength(s[2..], quote, escapes) else 1
    else 1 + QuotedLength(s[1..], quote, escapes)
  }

  function TagRun(s: Text): (n: nat)
    ensures n <= |s|
  {
    if s == [] || !IsTagPart(s[0]) then 0 else 1 + TagRun(s[1..])
  }

  /** Length of a dollar-quote tag `$name$`, name possibly empty. */
  function TagLength(s: Text): (r: Option<nat>)
    ensures r.Some? ==> 2 <= r.value <= |s|
  {
    if |s| < 2 || s[0] != DOLLAR then None
    else if s[1] == DOLLAR then Some(2)
    else if !IsIdentStart(s[1]) then None
    else
      var n := 1 + TagRun(s[1..]);
      if n < |s| && s[n] == DOLLAR then Some(n + 1) else None
  }

  /** Position of the first occurrence of a tag. */
  function IndexOf(s: Text, tag: Text): (r: Option<nat>)
    ensures r.Some? ==> r.value + |tag| <= |s|
  {
    if |s| < |tag| then None
    else if s[..|tag|] == tag then Some(0)
    else if s == [] then None
    else Longer(1, IndexOf(s[1..], tag))
  }

  /** The next token of `s`, or none if it opens a block comment or dollar quote that never closes. */
  function Next(before: Text, s: Text): (r: Option<(Kind, nat)>)
    requires s != []
    ensures r.Some? ==> 1 <= r.value.1 <= |s|
  {
    if |s| > 1 && s[0] == DASH && s[1] == DASH then Some((Skipped, 2 + LineLength(s[2..])))
    else if |s| > 1 && s[0] == SLASH && s[1] == STAR then
      var r := CommentLength(s[2..], 1);
      if r.None? then None else Some((Skipped, 2 + r.value))
    else if s[0] == QUOTE then Some((Skipped, 1 + QuotedLength(s[1..], QUOTE, EscapePrefix(before))))
    else if s[0] == DQUOTE then Some((Skipped, 1 + QuotedLength(s[1..], DQUOTE, false)))
    else if s[0] == DOLLAR && TagLength(s).Some? then
      var n := TagLength(s).value;
      var r := IndexOf(s[n..], s[..n]);
      if r.None? then None else Some((Skipped, n + r.value + n))
    else if s[0] == DOLLAR && |s| > 1 && IsDigit(s[1]) then Some((Parameter, 1 + DigitCount(s[1..])))
    else Some((Code, 1))
  }

  /** All tokens of `s` read after `before`, or none if something opened never closes. */
  function Lex(before: Text, s: Text): Option<seq<Token>>
    decreases |s|
  {
    if s == [] then Some([]) else
      match Next(before, s)
      case None => None
      case Some((kind, n)) =>
        var rest := Lex(before + s[..n], s[n..]);
        if rest.None? then None else Some([Token(kind, s[..n])] + rest.value)
  }

  function Render(ts: seq<Token>): Text {
    if ts == [] then [] else ts[0].text + Render(ts[1..])
  }

  const NULL: Text := Ascii("NULL")

  /** The tokens with every parameter written as NULL. */
  function Nullify(ts: seq<Token>): Text {
    if ts == [] then []
    else (if ts[0].kind.Parameter? then NULL else ts[0].text) + Nullify(ts[1..])
  }

  function Replaced(query: Text): Text {
    var ts := Lex([], query);
    if ts.None? then query else Nullify(ts.value)
  }

  /** Whether a parameter occurs in code before anything that never closes. */
  predicate ContainsParameter(before: Text, s: Text)
    decreases |s|
  {
    s != [] &&
    match Next(before, s)
    case None => false
    case Some((kind, n)) => kind.Parameter? || ContainsParameter(before + s[..n], s[n..])
  }

  // ---------- the loops ----------

  method SkipBlockComment(query: Text, start: nat) returns (next: nat, ok: bool)
    requires start + 2 <= |query|
    ensures ok == CommentLength(query[start + 2..], 1).Some?
    ensures next == if ok then start + 2 + CommentLength(query[start + 2..], 1).value else |query|
  {
    hide CommentLength;
    var depth := 1;
    var i := start + 2;
    while i < |query|
      invariant start + 2 <= i <= |query| && depth > 0
      invariant CommentLength(query[start + 2..], 1) == Longer(i - start - 2, CommentLength(query[i..], depth))
    {
      CommentStep(query, i, depth);
      if i + 1 < |query| && query[i] == SLASH && query[i + 1] == STAR {
        depth := depth + 1;
        i := i + 2;
      } else if i + 1 < |query| && query[i] == STAR && query[i + 1] == SLASH {
        depth := depth - 1;
        i := i + 2;
        if depth == 0 {
          return i, true;
        }
      } else {
        i := i + 1;
      }
    }
    CommentOpen(depth);
    assert query[i..] == [];
    return |query|, false;
  }

  lemma CommentOpen(depth: nat)
    requires depth > 0
    ensures CommentLength([], depth).None?
  {
  }

  lemma CommentStep(query: Text, i: nat, depth: nat)
    requires i < |query| && depth > 0
    ensures CommentLength(query[i..], depth) ==
            if i + 1 < |query| && query[i] == SLASH && query[i + 1] == STAR then
              Longer(2, CommentLength(query[i + 2..], depth + 1))
            else if i + 1 < |query| && query[i] == STAR && query[i + 1] == SLASH then
              if depth == 1 then Some(2) else Longer(2, CommentLength(query[i + 2..], depth - 1))
            else Longer(1, CommentLength(query[i + 1..], depth))
  {
    assert query[i..][1..] == query[i + 1..];
    assert i + 1 < |query| ==> query[i..][2..] == query[i + 2..];
  }

  method SkipQuoted(query: Text, start: nat, quote: Byte, escapes: bool) returns (next: nat)
    requires start < |query|
    ensures next == start + 1 + QuotedLength(query[start + 1..], quote, escapes)
  {
    var i := start + 1;
    while i < |query|
      invariant start + 1 <= i <= |query| + 1
      invariant QuotedLength(query[start + 1..], quote, escapes) ==
                if i <= |query| then i - start - 1 + QuotedLength(query[i..], quote, escapes) else |query| - start - 1
    {
      assert query[i..][1..] == query[i + 1..];
      assert i + 1 < |query| ==> query[i..][2..] == query[i + 2..];
      if escapes && query[i] == BACKSLASH {
        i := i + 2;
      } else if query[i] == quote {
        if i + 1 < |query| && query[i + 1] == quote {
          i := i + 2;
        } else {
          return i + 1;
        }
      } else {
        i := i + 1;
      }
    }
    return |query|;
  }

  method DollarQuoteTag(query: Text, start: nat) returns (length: nat, ok: bool)
    requires start <= |query|
    ensures ok == TagLength(query[start..]).Some?
    ensures ok ==> length == TagLength(query[start..]).value
  {
    if start + 1 >= |query| || query[start] != DOLLAR {
      return 0, false;
    }
    if query[start + 1] == DOLLAR {
      return 2, true;
    }
    if !IsIdentStart(query[start + 1]) {
      return 0, false;
    }
    var i := start + 2;
    assert query[start..][1..] == query[start + 1..];
    assert query[start + 1..][1..] == query[i..];
    while i < |query| && IsTagPart(query[i])
      invariant start + 2 <= i <= |query|
      invariant TagRun(query[start + 1..]) == i - start - 1 + TagRun(query[i..])
    {
      assert query[i..][1..] == query[i + 1..];
      i := i + 1;
    }
    if i >= |query| || query[i] != DOLLAR {
      return 0, false;
    }
    return i + 1 - start, true;
  }

  method SkipLine(query: Text, start: nat) returns (j: nat)
    requires start <= |query|
    ensures j == start + LineLength(query[start..])
  {
    j := start;
    while j < |query| && query[j] != LF
      invariant start <= j <= |query|
      invariant LineLength(query[start..]) == j - start + LineLength(query[j..])
    {
      assert query[j..][1..] == query[j + 1..];
      j := j + 1;
    }
  }

  method SkipDigits(query: Text, start: nat) returns (j: nat)
    requires start <= |query|
    ensures j == start + DigitCount(query[start..])
  {
    j := start;
    while j < |query| && IsDigit(query[j])
      invariant start <= j <= |query|
      invariant DigitCount(query[start..]) == j - start + DigitCount(query[j..])
    {
      assert query[j..][1..] == query[j + 1..];
      j := j + 1;
    }
  }

  /** The token a loop finds at `i`, by the agent's loops and tests. */
  method TokenAt(query: Text, i: nat) returns (r: Option<(Kind, nat)>)
    requires i < |query|
    ensures r == Next(query[..i], query[i..])
  {
    hide CommentLength, QuotedLength, LineLength, DigitCount, TagLength, IndexOf, EscapePrefix;
    ghost var s := query[i..];
    if i + 1 < |query| && query[i] == DASH && query[i + 1] == DASH {
      assert s[2..] == query[i + 2..];
      var j := SkipLine(query, i + 2);
      return Some((Skipped, j - i));
    }
    if i + 1 < |query| && query[i] == SLASH && query[i + 1] == STAR {
      assert s[2..] == query[i + 2..];
      var next, ok := SkipBlockComment(query, i);
      return if ok then Some((Skipped, next - i)) else None;
    }
    assert s[1..] == query[i + 1..];
    if query[i] == QUOTE {
      var next := SkipQuoted(query, i, QUOTE, EscapePrefix(query[..i]));
      return Some((Skipped, next - i));
    }
    if query[i] == DQUOTE {
      var next := SkipQuoted(query, i, DQUOTE, false);
      return Some((Skipped, next - i));
    }
    if query[i] == DOLLAR {
      var n, ok := DollarQuoteTag(query, i);
      if ok {
        assert query[i..i + n] == s[..n] && query[i + n..] == s[n..];
        var closing := IndexOf(query[i + n..], query[i..i + n]);
        return if closing.None? then None else Some((Skipped, n + closing.value + n));
      }
      if i + 1 < |query| && IsDigit(query[i + 1]) {
        var j := SkipDigits(query, i + 1);
        return Some((Parameter, j - i));
      }
    }
    return Some((Code, 1));
  }

  method ContainsUnquotedParameter(query: Text) returns (found: bool)
    ensures found == ContainsParameter([], query)
  {
    hide Next;
    var i := 0;
    while i < |query|
      invariant 0 <= i <= |query|
      invariant ContainsParameter([], query) == ContainsParameter(query[..i], query[i..])
    {
      var token := TokenAt(query, i);
      if token.None? {
        return false;
      }
      var (kind, n) := token.value;
      if kind == Parameter {
        return true;
      }
      assert query[..i] + query[i..][..n] == query[..i + n] && query[i..][n..] == query[i + n..];
      i := i + n;
    }
    return false;
  }

  /** The output so far: what was written, and what is still to be copied. */
  ghost predicate Pending(query: Text, written: Text, lastWritten: nat, i: nat) {
    && lastWritten <= i <= |query|
    && var all, rest := Lex([], query), Lex(query[..i], query[i..]);
    && all.Some? == rest.Some?
    && (all.Some? ==> Nullify(all.value) == written + query[lastWritten..i] + Nullify(rest.value))
  }

  method ReplaceParametersWithNull(query: Text) returns (out: Text)
    ensures out == Replaced(query)
  {
    hide Next, Lex, Nullify;
    var written: Text := [];
    var lastWritten := 0;
    var i := 0;
    PendingStart(query);
    while i < |query|
      invariant Pending(query, written, lastWritten, i)
      invariant lastWritten == 0 ==> written == []
    {
      var token := TokenAt(query, i);
      PendingStep(query, written, lastWritten, i, token);
      if token.None? {
        return query;
      }
      var (kind, n) := token.value;
      if kind == Parameter {
        written := written + query[lastWritten..i];
        written := written + NULL;
        lastWritten := i + n;
      }
      i := i + n;
    }
    PendingEnd(query, written, lastWritten);
    if lastWritten == 0 {
      return query;
    }
    return written + query[lastWritten..];
  }

  lemma PendingStart(query: Text)
    ensures Pending(query, [], 0, 0)
  {
    assert query[..0] == [] && query[0..] == query;
    assert forall ts :: [] + [] + Nullify(ts) == Nullify(ts);
  }

  lemma PendingStep(query: Text, written: Text, lastWritten: nat, i: nat, token: Option<(Kind, nat)>)
    requires i < |query| && Pending(query, written, lastWritten, i)
    requires token == Next(query[..i], query[i..])
    ensures token.None? ==> Lex([], query).None?
    ensures token.Some? && token.value.0.Parameter? ==>
              Pending(query, written + query[lastWritten..i] + NULL, i + token.value.1, i + token.value.1)
    ensures token.Some? && !token.value.0.Parameter? ==> Pending(query, written, lastWritten, i + token.value.1)
  {
    hide Next, Lex, Nullify;
    LexStep(query[..i], query[i..]);
    if token.Some? {
      var (kind, n) := token.value;
      var t := query[i..][..n];
      assert t == query[i..i + n] && query[..i] + t == query[..i + n] && query[i..][n..] == query[i + n..];
      var rest := Lex(query[..i + n], query[i + n..]);
      if rest.Some? {
        NullifyStep(Token(kind, t), rest.value);
        PendingText(query, written, lastWritten, i, n, Nullify(rest.value));
      }
    }
  }

  lemma PendingText(query: Text, written: Text, lastWritten: nat, i: nat, n: nat, tail: Text)
    requires lastWritten <= i && i + n <= |query|
    ensures written + query[lastWritten..i] + (NULL + tail) ==
            (written + query[lastWritten..i] + NULL) + query[i + n..i + n] + tail
    ensures written + query[lastWritten..i] + (query[i..i + n] + tail) == written + query[lastWritten..i + n] + tail
  {
    var done, t := written + query[lastWritten..i], query[i..i + n];
    assert done + (NULL + tail) == done + NULL + [] + tail;
    assert query[lastWritten..i + n] == query[lastWritten..i] + t;
    assert done + (t + tail) == written + (query[lastWritten..i] + t) + tail;
  }

  lemma LexStep(before: Text, s: Text)
    requires s != []
    ensures Next(before, s).None? ==> Lex(before, s).None?
    ensures Next(before, s).Some? ==>
              var n := Next(before, s).value.1;
              var rest := Lex(before + s[..n], s[n..]);
              Lex(before, s) ==
              if rest.None? then None else Some([Token(Next(before, s).value.0, s[..n])] + rest.value)
  {
  }

  lemma NullifyStep(t: Token, ts: seq<Token>)
    ensures Nullify([t] + ts) == (if t.kind.Parameter? then NULL else t.text) + Nullify(ts)
  {
    assert ([t] + ts)[1..] == ts;
  }

  lemma PendingEnd(query: Text, written: Text, lastWritten: nat)
    requires Pending(query, written, lastWritten, |query|)
    ensures written + query[lastWritten..] == Replaced(query)
    ensures written == [] && lastWritten == 0 ==> query == Replaced(query)
  {
    assert query[|query|..] == [];
    assert query[lastWritten..|query|] == query[lastWritten..];
  }
}
