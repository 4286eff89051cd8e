/**
 * Decimal numerals as Python's f-strings print them: `f"{n}"` and the
 * zero-padded `f"{n:0Wd}"`, together with a parser that reads them back.
 */
module Numerals {
  import opened Wrappers

  predicate IsDigit(c: char) {
    '0' <= c <= '9'
  }

  predicate AllDigits(s: string) {
    forall k :: 0 <= k < |s| ==> IsDigit(s[k])
  }

  function DigitChar(d: nat): (c: char)
    requires d < 10
    ensures IsDigit(c) && c as int - '0' as int == d
  {
    ('0' as int + d) as char
  }

  function DigitValue(c: char): nat
    requires IsDigit(c)
  {
    c as int - '0' as int
  }

  /** `str(n)` for a non-negative integer: its shortest decimal numeral. */
  function Decimal(n: nat): (r: string)
    ensures 1 <= |r| && AllDigits(r)
    ensures |r| > 1 ==> r[0] != '0'
  {
    if n < 10 then [DigitChar(n)]
    else
      var r := Decimal(n / 10) + [DigitChar(n % 10)];
      assert r[0] == Decimal(n / 10)[0];
      r
  }

  /** The value of a string of decimal digits; leading zeros are allowed. */
  function DigitsValue(s: string): nat
    requires AllDigits(s)
  {
    if s == [] then 0 else 10 * DigitsValue(s[..|s| - 1]) + DigitValue(s[|s| - 1])
  }

  /** `int(s)` restricted to plain unsigned decimal numerals. */
  function ParseNat(s: string): Option<nat>
  {
    if s != [] && AllDigits(s) then Some(DigitsValue(s)) else None
  }

  /** `int(s)` restricted to an optional minus sign followed by decimal digits. */
  function ParseInt(s: string): Option<int>
  {
    if s != [] && s[0] == '-' then
      match ParseNat(s[1..])
      case Some(n) => Some(0 - n)
      case None => None
    else
      match ParseNat(s)
      case Some(n) => Some(n)
      case None => None
  }

  function Zeros(k: nat): (r: string)
    ensures |r| == k && forall i :: 0 <= i < k ==> r[i] == '0'
  {
    if k == 0 then [] else Zeros(k - 1) + ['0']
  }

  /** Left-pad a digit string with zeros up to `width` characters. */
  function ZeroFill(digits: string, width: int): string
  {
    if |digits| >= width then digits else Zeros(width - |digits|) + digits
  }

  /**
   * Python's `format(n, "0{width}d")`: zero padding goes between the sign and
   * the digits, and the sign counts towards the width.
   */
  function FormatPadded(n: int, width: nat): (r: string)
    ensures |r| >= width && |r| >= 1
    ensures n >= 0 ==> |r| == if |Decimal(n)| < width then width else |Decimal(n)|
    ensures n < 0 ==> |r| == if |Decimal(-n)| + 1 < width then width else |Decimal(-n)| + 1
    ensures n >= 0 ==> AllDigits(r)
    ensures n < 0 ==> r[0] == '-' && AllDigits(r[1..])
  {
    if n < 0 then "-" + ZeroFill(Decimal(-n), width - 1)
    else ZeroFill(Decimal(n), width)
  }

  function Pow10(k: nat): (p: nat)
    ensures p >= 1
  {
    if k == 0 then 1 else 10 * Pow10(k - 1)
  }

  /** Reading back the numeral of `n` gives `n`. */
  lemma {:induction false} DecimalRoundTrip(n: nat)
    ensures DigitsValue(Decimal(n)) == n
  {
    if n >= 10 {
      var d := Decimal(n);
      assert d[..|d| - 1] == Decimal(n / 10);
      DecimalRoundTrip(n / 10);
    }
  }

  /** Leading zeros do not change the value of a numeral. */
  lemma {:induction false} LeadingZerosValue(k: nat, s: string)
    requires AllDigits(s)
    ensures AllDigits(Zeros(k) + s) && DigitsValue(Zeros(k) + s) == DigitsValue(s)
    decreases k + |s|
  {
    var t := Zeros(k) + s;
    ZerosThenDigits(k, s);
    if s == [] {
      assert t == Zeros(k);
      if k > 0 {
        assert t[..|t| - 1] == Zeros(k - 1) + [];
        LeadingZerosValue(k - 1, []);
      }
    } else {
      assert t[..|t| - 1] == Zeros(k) + s[..|s| - 1];
      assert t[|t| - 1] == s[|s| - 1];
      LeadingZerosValue(k, s[..|s| - 1]);
    }
  }

  lemma ZerosThenDigits(k: nat, s: string)
    requires AllDigits(s)
    ensures AllDigits(Zeros(k) + s)
  {
    var t := Zeros(k) + s;
    forall i | 0 <= i < |t| ensures IsDigit(t[i]) {
      if i >= k { assert t[i] == s[i - k]; }
    }
  }

  /** The numeral of `n` has at most `k` digits when `n < 10^k`. */
  lemma {:induction false} DecimalLength(n: nat, k: nat)
    requires 1 <= k && n < Pow10(k)
    ensures |Decimal(n)| <= k
  {
    if n >= 10 {
      DecimalLength(n / 10, k - 1);
    }
  }

  /** Reading back a zero-filled numeral gives its value. */
  lemma ZeroFillValue(d: string, width: int)
    requires d != [] && AllDigits(d)
    ensures ParseNat(ZeroFill(d, width)) == Some(DigitsValue(d))
  {
    if |d| < width {
      LeadingZerosValue(width - |d|, d);
    }
  }

  /** `int(format(n, "0{width}d")) == n` for every integer `n`. */
  lemma FormatPaddedRoundTrip(n: int, width: nat)
    ensures ParseInt(FormatPadded(n, width)) == Some(n)
  {
    if n < 0 {
      var z := ZeroFill(Decimal(-n), width - 1);
      DecimalRoundTrip(-n);
      ZeroFillValue(Decimal(-n), width - 1);
      assert FormatPadded(n, width) == ['-'] + z;
      ReadSigned(z, -n);
    } else {
      FormatNatRoundTrip(n, width);
      ReadUnsigned(FormatPadded(n, width), n);
    }
  }

  /** A minus sign before a numeral of `m` reads as `-m`. */
  lemma ReadSigned(z: string, m: nat)
    requires ParseNat(z) == Some(m)
    ensures ParseInt(['-'] + z) == Some(0 - m)
  {
    assert (['-'] + z)[1..] == z;
  }

  /** A numeral that opens with a digit reads as an integer the way it reads as a natural. */
  lemma ReadUnsigned(s: string, m: nat)
    requires s != [] && IsDigit(s[0]) && ParseNat(s) == Some(m)
    ensures ParseInt(s) == Some(m)
  {
  }

  /** A padded numeral never contains a character other than a digit or a minus sign. */
  lemma FormatPaddedAlphabet(n: int, width: nat, c: char)
    requires c != '-' && !IsDigit(c)
    ensures c !in FormatPadded(n, width)
  {
  }

  /** `int(format(n, "0{width}d")) == n` for a non-negative `n`, read as an unsigned numeral. */
  lemma FormatNatRoundTrip(n: nat, width: nat)
    ensures ParseNat(FormatPadded(n, width)) == Some(n)
  {
    DecimalRoundTrip(n);
    ZeroFillValue(Decimal(n), width);
  }

  /** A value below `10^w` prints in exactly `w` characters under `0{w}d`. */
  lemma PaddedWidth(n: nat, w: nat)
    requires 1 <= w && n < Pow10(w)
    ensures |FormatPadded(n, w)| == w
  {
    DecimalLength(n, w);
  }
}
