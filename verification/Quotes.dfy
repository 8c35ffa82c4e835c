/** Quoted texts: quotes that stand for themselves are doubled, or escaped where backslashes escape. */
module Quotes {
  import opened Bytes

  /** The inside of a quoted text: quotes only in pairs, and where backslashes escape, only before another byte. */
  predicate Inside(s: Text, quote: Byte, escapes: bool)
    decreases |s|
  {
    || s == []
    || (s[0] != quote && !(escapes && s[0] == BACKSLASH) && Inside(s[1..], quote, escapes))
    || (|s| > 1 && s[0] == quote && !(escapes && s[0] == BACKSLASH) && s[1] == quote && Inside(s[2..], quote, escapes))
    || (|s| > 1 && escapes && s[0] == BACKSLASH && Inside(s[2..], quote, escapes))
  }

  /** A quoted text that is closed, and not by a quote that the next one doubles. */
  predicate Closed(x: Text, rest: Text, quote: Byte, escapes: bool) {
    && |x| >= 2 && x[0] == quote && x[|x| - 1] == quote && Inside(x[1..|x| - 1], quote, escapes)
    && (rest == [] || rest[0] != quote)
  }

  /** A quoted text that is never closed, and may end in a backslash that escapes nothing. */
  predicate Unclosed(x: Text, rest: Text, quote: Byte, escapes: bool) {
    && x != [] && x[0] == quote && rest == []
    && (|| Inside(x[1..], quote, escapes)
        || (escapes && |x| > 1 && x[|x| - 1] == BACKSLASH && Inside(x[1..|x| - 1], quote, escapes)))
  }

  predicate QuotedText(x: Text, rest: Text, quote: Byte, escapes: bool) {
    Closed(x, rest, quote, escapes) || Unclosed(x, rest, quote, escapes)
  }

  lemma InsideMore(s: Text, k: nat, quote: Byte, escapes: bool)
    requires 1 <= k <= 2 && k <= |s| && Inside(s[k..], quote, escapes)
    requires k == 1 ==> s[0] != quote && !(escapes && s[0] == BACKSLASH)
    requires k == 2 ==> if escapes && s[0] == BACKSLASH then true else s[0] == quote && s[1] == quote
    ensures Inside(s, quote, escapes)
  {
  }

  lemma NothingInside(quote: Byte, escapes: bool)
    ensures Inside([], quote, escapes)
  {
  }

  lemma InsideLess(s: Text, k: nat, quote: Byte, escapes: bool)
    requires 1 <= k <= 2 && k <= |s| && s != [] && Inside(s, quote, escapes) && quote != BACKSLASH
    requires k == 1 ==> s[0] != quote && !(escapes && s[0] == BACKSLASH)
    requires k == 2 ==> (s[0] == quote && s[1] == quote) || (escapes && s[0] == BACKSLASH)
    ensures Inside(s[k..], quote, escapes)
  {
  }

  lemma InsideOne(b: Byte, quote: Byte, escapes: bool)
    requires b == quote || (escapes && b == BACKSLASH)
    ensures !Inside([b], quote, escapes)
  {
  }

  lemma InsideQuote(s: Text, quote: Byte, escapes: bool)
    requires s != [] && s[0] == quote != BACKSLASH && Inside(s, quote, escapes)
    ensures |s| > 1 && s[1] == quote
  {
  }
}
