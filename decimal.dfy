/**
 * Decimal text of integers: Python's str() of an int (used for the mood column
 * of the export and for the status code in an exception's text) and the
 * zero-padded fields of strftime('%Y%m%d').
 */
module Decimal {
  import opened Wrappers

  predicate IsDigit(c: char)
  {
    '0' <= c <= '9'
  }

  predicate AllDigits(s: string)
  {
    forall i :: 0 <= i < |s| ==> IsDigit(s[i])
  }

  function DigitChar(d: nat): (c: char)
    requires d < 10
    ensures IsDigit(c)
  {
    ('0' as int + d) as char
  }

  function DigitValue(c: char): (d: nat)
    requires IsDigit(c)
    ensures d < 10
  {
    c as int - '0' as int
  }

  /** The shortest decimal numeral of n: it starts with '0' only when n is zero. */
  function NatToDigits(n: nat): (r: string)
    ensures |r| > 0 && AllDigits(r)
    ensures r[0] == '0' <==> n == 0
    decreases n
  {
    if n < 10 then [DigitChar(n)] else NatToDigits(n / 10) + [DigitChar(n % 10)]
  }

  /** str(m): a minus sign exactly for negative m, then the digits of |m|. */
  function IntToDecimal(m: int): (r: string)
    ensures |r| > 0 && (r[0] == '-' <==> m < 0)
    ensures AllDigits(r[1..]) && (m >= 0 ==> AllDigits(r))
  {
    if m < 0 then "-" + NatToDigits(-m) else NatToDigits(m)
  }

  /** The value of a string of digits, most significant first. */
  function DigitsToNat(s: string): nat
    requires AllDigits(s)
    decreases |s|
  {
    if s == [] then 0 else DigitsToNat(s[..|s| - 1]) * 10 + DigitValue(s[|s| - 1])
  }

  /** Reads back an integer written as an optional minus sign and digits. */
  function DecimalToInt(s: string): Option<int>
  {
    if |s| > 1 && s[0] == '-' && AllDigits(s[1..]) then
      var v: int := DigitsToNat(s[1..]); Some(-v)
    else if |s| > 0 && AllDigits(s) then Some(DigitsToNat(s))
    else None
  }

  lemma {:induction false} NatToDigitsRoundTrip(n: nat)
    ensures DigitsToNat(NatToDigits(n)) == n
    decreases n
  {
    if n >= 10 {
      var q, d := n / 10, n % 10;
      assert n == q * 10 + d;
      NatToDigitsRoundTrip(q);
      var r := NatToDigits(n);
      assert r == NatToDigits(q) + [DigitChar(d)];
      assert r[..|r| - 1] == NatToDigits(q);
      assert DigitValue(r[|r| - 1]) == d;
    }
  }

  lemma IntToDecimalRoundTrip(m: int)
    ensures DecimalToInt(IntToDecimal(m)) == Some(m)
  {
    if m < 0 {
      NatToDigitsRoundTrip(-m);
      assert IntToDecimal(m)[1..] == NatToDigits(-m);
    } else {
      NatToDigitsRoundTrip(m);
    }
  }

  function Pow10(w: nat): (r: nat)
    ensures r > 0
  {
    if w == 0 then 1 else 10 * Pow10(w - 1)
  }

  /** The last w decimal digits of n, zero-padded on the left (strftime's %Y, %m, %d). */
  function PadDigits(n: nat, w: nat): (r: string)
    ensures |r| == w && AllDigits(r)
  {
    if w == 0 then [] else PadDigits(n / 10, w - 1) + [DigitChar(n % 10)]
  }

  lemma {:induction false} PadDigitsRoundTrip(n: nat, w: nat)
    requires n < Pow10(w)
    ensures DigitsToNat(PadDigits(n, w)) == n
  {
    if w > 0 {
      var q, d := n / 10, n % 10;
      assert n == q * 10 + d;
      assert q * 10 <= n < Pow10(w - 1) * 10;
      assert q < Pow10(w - 1);
      PadDigitsRoundTrip(q, w - 1);
      var r := PadDigits(n, w);
      assert r == PadDigits(q, w - 1) + [DigitChar(d)];
      assert r[..|r| - 1] == PadDigits(q, w - 1);
      assert DigitValue(r[|r| - 1]) == d;
    }
  }
}
