/**
 * Decimal text of integers as Python writes it: `str(n)` / `f"{n}"` for the
 * "Unknown_<id>" label and the display index, and the format spec `03`
 * (zero-padded to at least three characters) for page numbers.
 * Each printer comes with a parser that inverts it.
 */
module Decimal {
  import opened Wrappers

  predicate IsDigit(c: char) {
    '0' <= c <= '9'
  }

  predicate AllDigits(s: string) {
    forall k :: 0 <= k < |s| ==> IsDigit(s[k])
  }

  function DigitChar(d: nat): (c: char)
    requires d < 10
    ensures IsDigit(c)
  {
    ('0' as int + d) as char
  }

  function DigitValue(c: char): (d: nat)
    requires IsDigit(c)
    ensures d < 10
  {
    c as int - '0' as int
  }

  /** Decimal digits of a natural number, most significant first, no leading zeros. */
  function NatToDecimal(n: nat): (s: string)
    ensures 1 <= |s|
    ensures AllDigits(s)
    ensures s[0] == '0' ==> n == 0
    decreases n
  {
    if n < 10 then [DigitChar(n)] else NatToDecimal(n / 10) + [DigitChar(n % 10)]
  }

  /** Python's `str(i)` for an `int`: a leading '-' for negative values. */
  function IntToDecimal(i: int): (s: string)
    ensures 1 <= |s|
  {
    if i < 0 then "-" + NatToDecimal(-i) else NatToDecimal(i)
  }

  function Zeros(k: nat): (z: string)
    ensures |z| == k && forall j :: 0 <= j < k ==> z[j] == '0'
  {
    if k == 0 then [] else Zeros(k - 1) + ['0']
  }

  /**
   * Python's `f"{n:0w}"` for a non-negative `n`: the decimal digits, left-padded
   * with '0' up to `width` characters, never truncated.
   */
  function ZeroPad(n: nat, width: nat): (s: string)
  {
    var digits := NatToDecimal(n);
    if |digits| < width then Zeros(width - |digits|) + digits else digits
  }

  /** Value of a string of decimal digits (the empty string reads as 0). */
  function ParseNat(s: string): nat
    requires AllDigits(s)
  {
    if |s| == 0 then 0 else ParseNat(s[..|s| - 1]) * 10 + DigitValue(s[|s| - 1])
  }

  /** Python's `int(s)` restricted to an optional '-' followed by decimal digits. */
  function ParseInt(s: string): Option<int>
  {
    if 2 <= |s| && s[0] == '-' && AllDigits(s[1..]) then Some(-(ParseNat(s[1..]) as int))
    else if 1 <= |s| && AllDigits(s) then Some(ParseNat(s))
    else None
  }

  lemma {:induction false} ParseNatToDecimal(n: nat)
    ensures ParseNat(NatToDecimal(n)) == n
    decreases n
  {
    var s := NatToDecimal(n);
    if n >= 10 {
      ParseNatToDecimal(n / 10);
      assert s[..|s| - 1] == NatToDecimal(n / 10);
    }
  }

  /** Decimal printing of an `int` is undone by parsing: the printed form names its value. */
  lemma IntToDecimalRoundTrip(i: int)
    ensures ParseInt(IntToDecimal(i)) == Some(i)
  {
    var s := IntToDecimal(i);
    if i < 0 {
      ParseNatToDecimal(-i);
      assert s[1..] == NatToDecimal(-i);
    } else {
      ParseNatToDecimal(i);
      assert s[0] != '-';
    }
  }

  lemma IntToDecimalInjective(i: int, j: int)
    requires IntToDecimal(i) == IntToDecimal(j)
    ensures i == j
  {
    IntToDecimalRoundTrip(i);
    IntToDecimalRoundTrip(j);
  }

  /** Leading zeros do not change the value of a digit string. */
  lemma {:induction false} ParseNatLeadingZeros(k: nat, s: string)
    requires AllDigits(s)
    ensures AllDigits(Zeros(k) + s) && ParseNat(Zeros(k) + s) == ParseNat(s)
    decreases |s|
  {
    var t := Zeros(k) + s;
    if |s| == 0 {
      assert t == Zeros(k);
      ParseNatZeros(k);
    } else {
      ParseNatLeadingZeros(k, s[..|s| - 1]);
      assert t[..|t| - 1] == Zeros(k) + s[..|s| - 1];
    }
  }

  lemma {:induction false} ParseNatZeros(k: nat)
    ensures AllDigits(Zeros(k)) && ParseNat(Zeros(k)) == 0
  {
    var z := Zeros(k);
    assert AllDigits(z);
    if k > 0 {
      ParseNatZeros(k - 1);
      assert z == Zeros(k - 1) + ['0'];
      assert z[..k - 1] == Zeros(k - 1);
      assert DigitValue(z[k - 1]) == 0;
    }
  }

  /**
   * The padded form is all digits, at least `width` long, exactly `width` long
   * when the number fits, and it still reads back as `n`.
   */
  lemma ZeroPadSpec(n: nat, width: nat)
    ensures AllDigits(ZeroPad(n, width))
    ensures |ZeroPad(n, width)| >= width && |ZeroPad(n, width)| >= |NatToDecimal(n)|
    ensures |NatToDecimal(n)| <= width ==> |ZeroPad(n, width)| == width
    ensures width <= |NatToDecimal(n)| ==> ZeroPad(n, width) == NatToDecimal(n)
    ensures ParseNat(ZeroPad(n, width)) == n
  {
    var digits := NatToDecimal(n);
    ParseNatToDecimal(n);
    if |digits| < width {
      ParseNatLeadingZeros(width - |digits|, digits);
    }
  }

  /** Distinct numbers never share a padded form. */
  lemma ZeroPadInjective(m: nat, n: nat, width: nat)
    requires ZeroPad(m, width) == ZeroPad(n, width)
    ensures m == n
  {
    ZeroPadSpec(m, width);
    ZeroPadSpec(n, width);
  }
}
