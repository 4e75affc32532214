/** The two places where the components turn numbers into text and back:
    a template literal `${n}` for an integer token id, and `parseFloat(x.toFixed(2))`,
    which is what the significance tests read after a percentage has been formatted. */
module Decimal {

  predicate IsDigit(c: char) {
    '0' <= c <= '9'
  }

  function DigitChar(d: nat): (c: char)
    requires d < 10
    ensures IsDigit(c) && c as int - '0' as int == d
  {
    ('0' as int + d) as char
  }

  /** Decimal digits of `n`, most significant first, without leading zeros. */
  function NatToString(n: nat): (s: string)
    ensures |s| > 0
    ensures forall i :: 0 <= i < |s| ==> IsDigit(s[i])
    ensures s[0] == '0' ==> n == 0
  {
    if n < 10 then [DigitChar(n)] else NatToString(n / 10) + [DigitChar(n % 10)]
  }

  /** How JavaScript writes an integer-valued number below 1e21 in absolute value: a minus sign
      for negatives, then the digits. */
  function IntToString(n: int): (s: string)
    ensures |s| > 0
  {
    if n < 0 then "-" + NatToString(-n) else NatToString(n)
  }

  /** Reads back a string of decimal digits. */
  function ParseNat(s: string): nat
    requires forall i :: 0 <= i < |s| ==> IsDigit(s[i])
  {
    if s == [] then 0
    else
      assert IsDigit(s[|s| - 1]);
      ParseNat(s[..|s| - 1]) * 10 + (s[|s| - 1] as int - '0' as int)
  }

  function ParseInt(s: string): int
    requires |s| > 0
    requires s[0] == '-' ==> forall i :: 1 <= i < |s| ==> IsDigit(s[i])
    requires s[0] != '-' ==> forall i :: 0 <= i < |s| ==> IsDigit(s[i])
  {
    if s[0] == '-' then 0 - ParseNat(s[1..]) as int else ParseNat(s)
  }

  lemma {:induction false} ParseNatToString(n: nat)
    ensures ParseNat(NatToString(n)) == n
  {
    if n >= 10 {
      var s := NatToString(n);
      assert s[..|s| - 1] == NatToString(n / 10);
      ParseNatToString(n / 10);
    }
  }

  /** The text of an integer determines the integer. */
  lemma IntToStringRoundTrip(n: int)
    ensures var s := IntToString(n);
      (s[0] == '-' ==> forall i :: 1 <= i < |s| ==> IsDigit(s[i])) &&
      (s[0] != '-' ==> forall i :: 0 <= i < |s| ==> IsDigit(s[i])) &&
      ParseInt(s) == n
  {
    if n < 0 {
      assert IntToString(n)[1..] == NatToString(-n);
      ParseNatToString(-n);
    } else {
      ParseNatToString(n);
    }
  }

  lemma IntToStringInjective(m: int, n: int)
    ensures IntToString(m) == IntToString(n) ==> m == n
  {
    IntToStringRoundTrip(m);
    IntToStringRoundTrip(n);
  }

  /** The number of hundredths that `x.toFixed(2)` writes: the nearest integer to `100 * x`,
      ties rounded away from zero, as `toFixed` does. Values are exact reals here, not doubles. */
  function Cents(x: real): (n: int)
    ensures x * 100.0 - 0.5 <= n as real <= x * 100.0 + 0.5
    ensures x >= 0.0 ==> n >= 0 && x * 100.0 - 0.5 < n as real
    ensures x <= 0.0 ==> n <= 0 && n as real < x * 100.0 + 0.5
  {
    if x >= 0.0 then (x * 100.0 + 0.5).Floor else -(-x * 100.0 + 0.5).Floor
  }

  /** `parseFloat(x.toFixed(2))`: the value a formatted percentage has when it is read back. */
  function RoundToCents(x: real): (r: real)
    ensures -0.005 <= r - x <= 0.005
  {
    Cents(x) as real / 100.0
  }

  /** The emphasis test of both price tables: `Math.abs(shown) > 1`, strict. */
  predicate IsSignificant(shown: real) {
    shown > 1.0 || shown < -1.0
  }

  /** A value is emphasised after formatting exactly when it is at least 1.005 away from zero. */
  lemma SignificantAfterRounding(x: real)
    ensures IsSignificant(RoundToCents(x)) <==> x >= 1.005 || x <= -1.005
  {
    var n := Cents(x);
    assert IsSignificant(RoundToCents(x)) <==> n >= 101 || n <= -101;
  }

  /** The boundary: a deviation shown as 1.00 is not emphasised, one shown as 1.01 is. */
  lemma SignificanceBoundary()
    ensures !IsSignificant(RoundToCents(1.0))
    ensures IsSignificant(RoundToCents(1.01))
    ensures !IsSignificant(RoundToCents(-1.0))
    ensures IsSignificant(RoundToCents(-1.01))
  {
    SignificantAfterRounding(1.0);
    SignificantAfterRounding(1.01);
    SignificantAfterRounding(-1.0);
    SignificantAfterRounding(-1.01);
  }
}
