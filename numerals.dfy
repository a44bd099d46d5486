/** Decimal text for natural numbers: what `str(n)`, `f"{n:02d}"` and `int(s)`
    do for the ASCII digit strings the acquisition code handles. */
module Numerals {
  import opened Prelude

  predicate IsDigit(c: char) { '0' <= c <= '9' }

  predicate AllDigits(s: string) { forall i :: 0 <= i < |s| ==> IsDigit(s[i]) }

  function DigitChar(d: int): (c: char)
    requires 0 <= d < 10
    ensures IsDigit(c)
  {
    ('0' as int + d) as char
  }

  function DigitValue(c: char): (d: nat)
    requires IsDigit(c)
    ensures d < 10
  {
    c as int - '0' as int
  }

  /** The value of a string of decimal digits, most significant first. */
  function DigitsValue(s: string): nat
    requires AllDigits(s)
  {
    if s == [] then 0 else DigitsValue(s[..|s| - 1]) * 10 + DigitValue(s[|s| - 1])
  }

  /** `str(n)`: shortest decimal rendering, no leading zero. */
  function Decimal(n: nat): (s: string)
    ensures |s| >= 1 && AllDigits(s)
    ensures |s| > 1 ==> s[0] != '0'
  {
    if n < 10 then [DigitChar(n)] else Decimal(n / 10) + [DigitChar(n % 10)]
  }

  lemma {:induction false} DecimalRoundTrip(n: nat)
    ensures DigitsValue(Decimal(n)) == n
  {
    if n >= 10 {
      DecimalRoundTrip(n / 10);
      var s := Decimal(n);
      assert s[..|s| - 1] == Decimal(n / 10);
    }
  }

  /** `f"{n:02d}"`: at least two digits, padded with a leading zero; a minimum
      width, so larger numbers keep all their digits. */
  function ZeroPad2(n: nat): (s: string)
    ensures |s| >= 2 && AllDigits(s)
    ensures n >= 10 ==> s == Decimal(n)
  {
    if n < 10 then ['0'] + Decimal(n) else Decimal(n)
  }

  /** The padding does not change the value. */
  lemma ZeroPad2Value(n: nat)
    ensures DigitsValue(ZeroPad2(n)) == n
  {
    DecimalRoundTrip(n);
    if n < 10 {
      var s := ZeroPad2(n);
      assert s[..|s| - 1] == ['0'];
      assert DigitsValue(['0']) == 0;
    }
  }

  /** `int(s)` on text: an optional sign and at least one ASCII digit; any
      other text makes `int` raise, here `None`. */
  function ParseInt(s: string): (r: Option<int>)
    ensures r.Some? ==> s != []
  {
    if |s| >= 2 && (s[0] == '+' || s[0] == '-') && AllDigits(s[1..]) then
      var m: int := DigitsValue(s[1..]);
      Some(if s[0] == '-' then -m else m)
    else if s != [] && AllDigits(s) then Some(DigitsValue(s))
    else None
  }

  /** Reading back what `str(n)` wrote gives `n`, and with a minus sign `-n`. */
  lemma ParseIntDecimal(n: nat)
    ensures ParseInt(Decimal(n)) == Some(n)
    ensures ParseInt(['-'] + Decimal(n)) == Some(-(n as int))
  {
    DecimalRoundTrip(n);
    assert (['-'] + Decimal(n))[1..] == Decimal(n);
  }
}
