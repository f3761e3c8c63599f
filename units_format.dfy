/**
 * formatUnits6 of the staking page: renders a balance held in 6-decimal
 * base units as "whole.frac", and "-" while the balance is not loaded yet.
 * Balances come from uint64 views, so values are naturals.
 */
module UnitsFormat {
  import opened Wrappers

  /** Base units per whole token. */
  const SCALE: nat := 1_000_000
  /** Digits after the point. */
  const FRACTION_DIGITS: nat := 6

  predicate IsDigit(c: char) {
    '0' <= c <= '9'
  }

  predicate AllDigits(s: string) {
    forall i :: 0 <= i < |s| ==> IsDigit(s[i])
  }

  function DigitChar(d: nat): (c: char)
    requires d < 10
    ensures IsDigit(c)
  {
    ('0' as int + d) as char
  }

  function DigitValue(c: char): (d: nat)
    requires IsDigit(c)
    ensures d < 10
  {
    c as int - '0' as int
  }

  function Pow10(k: nat): (r: nat)
    ensures r >= 1
  {
    if k == 0 then 1 else 10 * Pow10(k - 1)
  }

  // ---------------------------------------------------------------------------
  // The string operations formatUnits6 is made of

  /** BigInt's toString(): decimal digits, no leading zero except for 0 itself. */
  function DecimalString(n: nat): (s: string)
    ensures |s| >= 1 && AllDigits(s)
    ensures s[0] == '0' <==> n == 0
    ensures n == 0 ==> s == "0"
    decreases n
  {
    if n < 10 then [DigitChar(n)] else DecimalString(n / 10) + [DigitChar(n % 10)]
  }

  /** The value of a string of decimal digits (the empty string reads 0). */
  function ParseDecimal(s: string): nat
    requires AllDigits(s)
  {
    if s == [] then 0 else ParseDecimal(s[..|s| - 1]) * 10 + DigitValue(s[|s| - 1])
  }

  function Repeat(c: char, k: nat): (s: string)
    ensures |s| == k
    ensures forall i :: 0 <= i < k ==> s[i] == c
  {
    if k == 0 then [] else [c] + Repeat(c, k - 1)
  }

  /** String.prototype.padStart: fill on the left up to `width` characters. */
  function PadStart(s: string, width: nat, fill: char): (r: string)
    ensures |r| == if |s| >= width then |s| else width
    ensures r[|r| - |s|..] == s
    ensures forall i :: 0 <= i < |r| - |s| ==> r[i] == fill
  {
    if |s| >= width then s else Repeat(fill, width - |s|) + s
  }

  /** String.prototype.slice(0, end) for a non-negative end: the longest prefix of at most `end` characters. */
  function SliceTo(s: string, end: nat): (r: string)
    ensures |r| == if end <= |s| then end else |s|
    ensures r == s[..|r|]
  {
    if end <= |s| then s[..end] else s
  }

  /**
   * `(value % 1_000_000n).toString().padStart(6, '0').slice(0, 6)`: always
   * exactly six digits reading value % 10^6, so slice(0, 6) drops nothing.
   */
  function Fraction(value: nat): (r: string)
    ensures |r| == FRACTION_DIGITS && AllDigits(r)
    ensures ParseDecimal(r) == value % SCALE
  {
    var padded := PadStart(DecimalString(value % SCALE), FRACTION_DIGITS, '0');
    PaddedRemainder(value);
    assert padded[..FRACTION_DIGITS] == padded;
    SliceTo(padded, FRACTION_DIGITS)
  }

  /** `${whole}.${frac}` with whole = value / 1_000_000n. */
  function FormatUnits6(value: Option<nat>): (r: string)
    ensures value.None? ==> r == "-"
    ensures value.Some? ==> |r| >= 8 && r[|r| - 7] == '.'
    ensures value.Some? ==> forall i :: 0 <= i < |r| && i != |r| - 7 ==> IsDigit(r[i])
    ensures value.Some? ==> ParseDecimal(r[..|r| - 7]) == value.value / SCALE
    ensures value.Some? ==> ParseDecimal(r[|r| - 6..]) == value.value % SCALE
    ensures value.Some? && r[0] == '0' ==> r[..|r| - 7] == "0"
  {
    match value
    case None => "-"
    case Some(v) =>
      var whole, frac := DecimalString(v / SCALE), Fraction(v);
      ParseDecimalString(v / SCALE);
      JoinParts(whole, frac);
      whole + "." + frac
  }

  // ---------------------------------------------------------------------------
  // Properties

  /** `${whole}.${frac}` keeps its two digit strings apart around one '.'. */
  lemma JoinParts(whole: string, frac: string)
    requires AllDigits(whole) && AllDigits(frac) && |frac| == FRACTION_DIGITS
    ensures var r := whole + "." + frac;
      && r[..|r| - 7] == whole && r[|r| - 6..] == frac && r[|r| - 7] == '.'
      && forall i :: 0 <= i < |r| && i != |r| - 7 ==> IsDigit(r[i])
  {
    var r := whole + "." + frac;
    assert r[..|r| - 7] == whole;
    assert r[|r| - 6..] == frac;
    forall i | 0 <= i < |r| && i != |r| - 7
      ensures IsDigit(r[i])
    {
      if i < |whole| {
        assert r[i] == whole[i];
      } else {
        assert r[i] == frac[i - |whole| - 1];
      }
    }
  }

  /** Reading back the decimal rendering of a number gives the number. */
  lemma {:induction false} ParseDecimalString(n: nat)
    ensures ParseDecimal(DecimalString(n)) == n
    decreases n
  {
    var s := DecimalString(n);
    if n >= 10 {
      assert s[..|s| - 1] == DecimalString(n / 10);
      ParseDecimalString(n / 10);
    }
  }

  /** A number below 10^k has at most k decimal digits. */
  lemma {:induction false} DecimalStringLength(n: nat, k: nat)
    requires 1 <= k
    requires n < Pow10(k)
    ensures |DecimalString(n)| <= k
    decreases n
  {
    if n >= 10 {
      assert k >= 2;
      DecimalStringLength(n / 10, k - 1);
    }
  }

  /** Leading zeros do not change the value of a digit string. */
  lemma {:induction false} ParseWithLeadingZeros(k: nat, s: string)
    requires AllDigits(s)
    ensures AllDigits(Repeat('0', k) + s)
    ensures ParseDecimal(Repeat('0', k) + s) == ParseDecimal(s)
    decreases |s|
  {
    var z := Repeat('0', k);
    if s == [] {
      assert z + s == z;
      ZerosReadZero(k);
    } else {
      var t := z + s;
      assert t[..|t| - 1] == z + s[..|s| - 1];
      ParseWithLeadingZeros(k, s[..|s| - 1]);
    }
  }

  lemma {:induction false} ZerosReadZero(k: nat)
    ensures AllDigits(Repeat('0', k))
    ensures ParseDecimal(Repeat('0', k)) == 0
    decreases k
  {
    if k > 0 {
      var z := Repeat('0', k);
      assert z[..k - 1] == Repeat('0', k - 1);
      ZerosReadZero(k - 1);
    }
  }

  /**
   * The remainder has at most six digits, so padding it to six gives exactly
   * six digits that still read as value % 10^6.
   */
  lemma PaddedRemainder(value: nat)
    ensures var padded := PadStart(DecimalString(value % SCALE), FRACTION_DIGITS, '0');
      |padded| == FRACTION_DIGITS && AllDigits(padded) && ParseDecimal(padded) == value % SCALE
  {
    var d := DecimalString(value % SCALE);
    assert Pow10(6) == SCALE;
    DecimalStringLength(value % SCALE, 6);
    var padded := PadStart(d, FRACTION_DIGITS, '0');
    assert padded == Repeat('0', FRACTION_DIGITS - |d|) + d;
    ParseWithLeadingZeros(FRACTION_DIGITS - |d|, d);
    ParseDecimalString(value % SCALE);
  }

  /** The inverse of FormatUnits6: "-" is the absent value, "whole.frac" a number. */
  function ParseUnits6(s: string): Option<nat> {
    if |s| >= 8 && s[|s| - 7] == '.' && AllDigits(s[..|s| - 7]) && AllDigits(s[|s| - 6..])
    then Some(ParseDecimal(s[..|s| - 7]) * SCALE + ParseDecimal(s[|s| - 6..]))
    else None
  }

  /** Parsing the rendering recovers the value, absent or not. */
  lemma FormatRoundTrip(value: Option<nat>)
    ensures ParseUnits6(FormatUnits6(value)) == value
  {
    if value.Some? {
      var r := FormatUnits6(value);
      assert AllDigits(r[..|r| - 7]);
      assert AllDigits(r[|r| - 6..]);
    }
  }

  /** Two different balances never render alike. */
  lemma FormatInjective(a: Option<nat>, b: Option<nat>)
    requires FormatUnits6(a) == FormatUnits6(b)
    ensures a == b
  {
    FormatRoundTrip(a);
    FormatRoundTrip(b);
  }
}
