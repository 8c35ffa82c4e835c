/** Decimal numbers as text. */
module Decimals {
  import opened Bytes
  import opened Wrappers

  const MAX_UINT64: nat := 0xFFFF_FFFF_FFFF_FFFF

  function Digit(n: nat): Byte
    requires n < 10
  {
    (48 + n) as Byte
  }

  function Print(n: nat): (t: Text)
    ensures t != [] && forall i :: 0 <= i < |t| ==> IsDigit(t[i])
  {
    if n < 10 then [Digit(n)] else Print(n / 10) + [Digit(n % 10)]
  }

  function PrintInt(n: int): Text {
    if n < 0 then [DASH] + Print(-n) else Print(n)
  }

  function ValueOf(t: Text): nat
    requires AllDigits(t)
  {
    if t == [] then 0 else 10 * ValueOf(t[..|t| - 1]) + (t[|t| - 1] - 48) as nat
  }

  /** An unsigned 64-bit number in decimal digits. */
  function ParseUint(t: Text): Option<nat> {
    if t == [] || !AllDigits(t) || ValueOf(t) > MAX_UINT64 then None else Some(ValueOf(t))
  }

  /** Printing a number and reading it gives it back. */
  lemma {:induction false} ParsePrinted(n: nat)
    ensures ValueOf(Print(n)) == n
  {
    if n >= 10 {
      ParsePrinted(n / 10);
      assert Print(n)[..|Print(n)| - 1] == Print(n / 10);
    } else {
      assert [Digit(n)][..0] == [];
    }
  }

  // ---------- the integer part of a decimal ----------

  /** Digits without leading zeros, but for a last one. */
  function Stripped(t: Text): Text {
    if |t| > 1 && t[0] == 48 then Stripped(t[1..]) else t
  }

  /** The integer part of digits with an optional fraction. */
  function IntegerPart(t: Text): Option<Text> {
    var n := DigitCount(t);
    if n == 0 || !(n == |t| || (t[n] == DOT && AllDigits(t[n + 1..]))) then None else Some(Stripped(t[..n]))
  }

  /** Truncation toward zero of a decimal with an optional sign. */
  function TruncateDecimal(t: Text): Option<Text> {
    if t != [] && t[0] == DASH then
      var r := IntegerPart(t[1..]);
      if r.None? then None else Some([DASH] + r.value)
    else if t != [] && t[0] == 43 then IntegerPart(t[1..])
    else IntegerPart(t)
  }

  /** A truncation whose results truncate to themselves: printing and reading back loses nothing. */
  ghost predicate RoundTrips(truncate: Text -> Option<Text>) {
    forall t: Text :: truncate(t).Some? ==> truncate(truncate(t).value) == truncate(t)
  }

  lemma {:induction false} StrippedDigits(t: Text)
    requires t != [] && AllDigits(t)
    ensures Stripped(t) != [] && AllDigits(Stripped(t)) && Stripped(Stripped(t)) == Stripped(t)
  {
    if |t| > 1 && t[0] == 48 {
      StrippedDigits(t[1..]);
    }
  }

  lemma {:induction false} DigitsCount(t: Text)
    requires AllDigits(t)
    ensures DigitCount(t) == |t|
  {
    if t != [] {
      DigitsCount(t[1..]);
    }
  }

  lemma IntegerTwice(t: Text)
    requires IntegerPart(t).Some?
    ensures var r := IntegerPart(t).value; r != [] && IsDigit(r[0]) && IntegerPart(r) == Some(r)
  {
    hide Stripped;
    var d := t[..DigitCount(t)];
    StrippedDigits(d);
    var r := Stripped(d);
    DigitsCount(r);
    assert r[..|r|] == r;
  }

  /** Decimals as they are printed round-trip. */
  lemma DecimalsRoundTrip()
    ensures RoundTrips(TruncateDecimal)
  {
    hide IntegerPart;
    forall t: Text | TruncateDecimal(t).Some?
      ensures TruncateDecimal(TruncateDecimal(t).value) == TruncateDecimal(t)
    {
      var u := if t != [] && (t[0] == DASH || t[0] == 43) then t[1..] else t;
      IntegerTwice(u);
      var r := IntegerPart(u).value;
      assert ([DASH] + r)[1..] == r;
    }
  }
}
