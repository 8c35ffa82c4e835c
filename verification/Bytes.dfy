/** Text as the agent handles it: a sequence of bytes, with ASCII white space. */
module Bytes {

  newtype Byte = n: int | 0 <= n < 256

  type Text = seq<Byte>

  const TAB: Byte := 9
  const LF: Byte := 10
  const CR: Byte := 13
  const SPACE: Byte := 32
  const BANG: Byte := 33
  const DQUOTE: Byte := 34
  const HASH: Byte := 35
  const DOLLAR: Byte := 36
  const AMPERSAND: Byte := 38
  const QUOTE: Byte := 39
  const LPAREN: Byte := 40
  const RPAREN: Byte := 41
  const STAR: Byte := 42
  const COMMA: Byte := 44
  const DASH: Byte := 45
  const DOT: Byte := 46
  const SLASH: Byte := 47
  const SEMICOLON: Byte := 59
  const EQUALS: Byte := 61
  const BACKSLASH: Byte := 92
  const UNDERSCORE: Byte := 95
  const BACKTICK: Byte := 96

  /** The bytes of a string of 8-bit characters. */
  function Ascii(s: string): (t: Text)
    requires forall i :: 0 <= i < |s| ==> s[i] as int < 256
    ensures |t| == |s|
  {
    seq(|s|, i requires 0 <= i < |s| => s[i] as int as Byte)
  }

  predicate IsSpace(b: Byte) {
    9 <= b <= 13 || b == SPACE
  }

  predicate IsUpper(b: Byte) {
    65 <= b <= 90
  }

  predicate IsLower(b: Byte) {
    97 <= b <= 122
  }

  predicate IsLetter(b: Byte) {
    IsUpper(b) || IsLower(b)
  }

  predicate IsDigit(b: Byte) {
    48 <= b <= 57
  }

  function Upper(b: Byte): Byte {
    if IsLower(b) then b - 32 else b
  }

  function UpperText(s: Text): (u: Text)
    ensures |u| == |s|
  {
    seq(|s|, i requires 0 <= i < |s| => Upper(s[i]))
  }

  predicate SameLetter(a: Byte, b: Byte) {
    a == b || (65 <= a <= 90 && b == a + 32) || (65 <= b <= 90 && a == b + 32)
  }

  /** The same word, in any case. */
  predicate SameWord(a: Text, b: Text) {
    |a| == |b| && forall i :: 0 <= i < |a| ==> SameLetter(a[i], b[i])
  }

  lemma SameUpper(a: Text, b: Text)
    ensures UpperText(a) == UpperText(b) <==> SameWord(a, b)
  {
    if UpperText(a) == UpperText(b) {
      forall i | 0 <= i < |a| ensures SameLetter(a[i], b[i]) {
        assert UpperText(a)[i] == UpperText(b)[i];
      }
    }
  }

  /** A regular-expression word character: letter, digit or underscore. */
  predicate IsWord(b: Byte) {
    IsLetter(b) || IsDigit(b) || b == UNDERSCORE
  }

  predicate AllSpace(s: Text) {
    forall i :: 0 <= i < |s| ==> IsSpace(s[i])
  }

  predicate AllDigits(t: Text) {
    forall i :: 0 <= i < |t| ==> IsDigit(t[i])
  }

  /** How many digits a text starts with. */
  function DigitCount(t: Text): (n: nat)
    ensures n <= |t| && AllDigits(t[..n])
    ensures n < |t| ==> !IsDigit(t[n])
  {
    if t != [] && IsDigit(t[0]) then
      assert forall i :: 1 <= i < |t| ==> t[i] == t[1..][i - 1];
      1 + DigitCount(t[1..])
    else 0
  }

  /** How many bytes of white space a text starts with. */
  function Leading(s: Text): (n: nat)
    ensures n <= |s| && AllSpace(s[..n])
    ensures n < |s| ==> !IsSpace(s[n])
  {
    if s != [] && IsSpace(s[0]) then
      assert forall i :: 1 <= i < |s| ==> s[i] == s[1..][i - 1];
      1 + Leading(s[1..])
    else 0
  }

  /** The length of a text without its trailing white space. */
  function Content(s: Text): (n: nat)
    ensures n <= |s| && AllSpace(s[n..])
    ensures n > 0 ==> !IsSpace(s[n - 1])
  {
    if s != [] && IsSpace(s[|s| - 1]) then
      var n := Content(s[..|s| - 1]);
      assert s[n..] == s[..|s| - 1][n..] + [s[|s| - 1]];
      n
    else |s|
  }

  function TrimLeft(s: Text): Text {
    s[Leading(s)..]
  }

  function TrimRight(s: Text): Text {
    s[..Content(s)]
  }

  function Trim(s: Text): Text {
    TrimRight(TrimLeft(s))
  }

  lemma ThreePieces(s: Text, n: nat, k: nat)
    requires n <= |s| && k <= |s| - n
    ensures s == s[..n] + s[n..][..k] + s[n..][k..]
    ensures k > 0 ==> s[n..][..k][0] == s[n] && s[n..][..k][k - 1] == s[n..][k - 1]
  {
  }

  /** Trimming splits a text into white space, the kept part, and white space. */
  lemma TrimParts(s: Text) returns (before: Text, after: Text)
    ensures s == before + Trim(s) + after
    ensures AllSpace(before) && AllSpace(after)
    ensures Trim(s) != [] ==> !IsSpace(Trim(s)[0]) && !IsSpace(Trim(s)[|Trim(s)| - 1])
  {
    hide Leading, Content, AllSpace;
    var n := Leading(s);
    var middle := s[n..];
    var k := Content(middle);
    before, after := s[..n], middle[k..];
    ThreePieces(s, n, k);
  }

  /** Leading white space is the longest run of it, trailing likewise. */
  lemma LeadingUnique(before: Text, core: Text)
    requires AllSpace(before)
    requires core != [] ==> !IsSpace(core[0])
    ensures Leading(before + core) == |before|
    ensures TrimLeft(before + core) == core
  {
    var s := before + core;
    var n := Leading(s);
    assert core != [] ==> s[|before|] == core[0];
  }

  lemma ContentUnique(core: Text, after: Text)
    requires AllSpace(after)
    requires core != [] ==> !IsSpace(core[|core| - 1])
    ensures Content(core + after) == |core|
    ensures TrimRight(core + after) == core
  {
    var s := core + after;
    var n := Content(s);
    assert core != [] ==> s[|core| - 1] == core[|core| - 1];
  }

  /** Trimming is determined by such a split. */
  lemma TrimUnique(before: Text, core: Text, after: Text)
    requires AllSpace(before) && AllSpace(after)
    requires core != [] ==> !IsSpace(core[0]) && !IsSpace(core[|core| - 1])
    ensures Trim(before + core + after) == core
  {
    if core == [] {
      assert before + core + after == (before + after) + [];
      LeadingUnique(before + after, []);
      ContentUnique([], []);
    } else {
      assert before + core + after == before + (core + after);
      LeadingUnique(before, core + after);
      ContentUnique(core, after);
    }
  }
}
