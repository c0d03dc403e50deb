/**
 * Decimal digit strings: what moment's formatting tokens print for a number and what
 * its numeric parse tokens read back.
 */
module Text {

  predicate IsDigit(c: char) {
    '0' <= c <= '9'
  }

  predicate AllDigits(s: string) {
    forall i :: 0 <= i < |s| ==> IsDigit(s[i])
  }

  function CharValue(c: char): (v: int)
    requires IsDigit(c)
    ensures 0 <= v < 10
  {
    c as int - '0' as int
  }

  function DigitChar(d: int): (c: char)
    requires 0 <= d < 10
    ensures IsDigit(c) && CharValue(c) == d
  {
    (d + '0' as int) as char
  }

  function Pow10(k: nat): (p: nat)
    ensures p >= 1
  {
    if k == 0 then 1 else 10 * Pow10(k - 1)
  }

  /** The number a digit string denotes (leading zeros allowed), as moment's toInt reads it. */
  function DigitsValue(s: string): (v: nat)
    requires AllDigits(s)
    ensures v < Pow10(|s|)
  {
    if s == [] then 0 else DigitsValue(s[..|s| - 1]) * 10 + CharValue(s[|s| - 1])
  }

  /** A two-digit field is read as tens and units. */
  lemma TwoDigitsValue(s: string)
    requires |s| == 2 && AllDigits(s)
    ensures DigitsValue(s) == CharValue(s[0]) * 10 + CharValue(s[1])
  {
    assert s[..1][..0] == [];
  }

  /** A four-digit field is read positionally. */
  lemma FourDigitsValue(s: string)
    requires |s| == 4 && AllDigits(s)
    ensures DigitsValue(s) == CharValue(s[0]) * 1000 + CharValue(s[1]) * 100 + CharValue(s[2]) * 10 + CharValue(s[3])
  {
    assert s[..3][..2] == s[..2];
    TwoDigitsValue(s[..2]);
  }

  /** The shortest decimal rendering of n: reads back as n and has no leading zero. */
  function NatToString(n: nat): (s: string)
    ensures AllDigits(s) && DigitsValue(s) == n
    ensures |s| >= 1 && n < Pow10(|s|)
    ensures |s| == 1 || Pow10(|s| - 1) <= n
  {
    if n < 10 then [DigitChar(n)]
    else
      var s := NatToString(n / 10) + [DigitChar(n % 10)];
      assert s[..|s| - 1] == NatToString(n / 10);
      s
  }

  lemma {:induction false} Pow10Monotone(j: nat, k: nat)
    requires j <= k
    ensures Pow10(j) <= Pow10(k)
  {
    if j < k {
      Pow10Monotone(j, k - 1);
    }
  }

  /** A number below 10^k is rendered with at most k digits. */
  lemma {:induction false} NatToStringLength(n: nat, k: nat)
    requires 1 <= k && n < Pow10(k)
    ensures |NatToString(n)| <= k
  {
    var s := NatToString(n);
    if |s| > k {
      Pow10Monotone(k, |s| - 1);
    }
  }

  function Zeros(k: nat): (s: string)
    ensures |s| == k && AllDigits(s)
    ensures forall i :: 0 <= i < k ==> s[i] == '0'
  {
    seq(k, _ => '0')
  }

  /** Leading zeros do not change the value of a digit string. */
  lemma {:induction false} LeadingZeroValue(s: string)
    requires AllDigits(s)
    ensures AllDigits(['0'] + s) && DigitsValue(['0'] + s) == DigitsValue(s)
  {
    if s != [] {
      var t := ['0'] + s;
      assert t[..|t| - 1] == ['0'] + s[..|s| - 1];
      LeadingZeroValue(s[..|s| - 1]);
    }
  }

  lemma {:induction false} ZerosValue(k: nat, s: string)
    requires AllDigits(s)
    ensures AllDigits(Zeros(k) + s) && DigitsValue(Zeros(k) + s) == DigitsValue(s)
  {
    if k == 0 {
      assert Zeros(k) + s == s;
    } else {
      assert Zeros(k) + s == ['0'] + (Zeros(k - 1) + s);
      ZerosValue(k - 1, s);
      LeadingZeroValue(Zeros(k - 1) + s);
    }
  }

  /** moment's zeroFill for a non-negative number: left-pad with zeros to `width` digits. */
  function ZeroFill(n: nat, width: nat): (s: string)
    ensures AllDigits(s) && DigitsValue(s) == n
    ensures |s| >= width && |s| >= 1
    ensures n < Pow10(width) && width >= 1 ==> |s| == width
  {
    var d := NatToString(n);
    var s := Zeros(if width > |d| then width - |d| else 0) + d;
    ZerosValue(if width > |d| then width - |d| else 0, d);
    assert n < Pow10(width) && width >= 1 ==> |d| <= width by {
      if n < Pow10(width) && width >= 1 {
        NatToStringLength(n, width);
      }
    }
    s
  }

  /**
   * The greedy match of a run of at most `max` digits starting at `from` (moment's
   * \d\d? style tokens): the run is all digits and cannot be extended.
   */
  function DigitRun(s: string, from: nat, max: nat): (r: nat)
    requires from <= |s|
    ensures r <= max && from + r <= |s|
    ensures forall i :: from <= i < from + r ==> IsDigit(s[i])
    ensures r < max && from + r < |s| ==> !IsDigit(s[from + r])
    decreases max
  {
    if max == 0 || from == |s| || !IsDigit(s[from]) then 0
    else 1 + DigitRun(s, from + 1, max - 1)
  }

  /** A run of one or two digits followed by a non-digit is exactly what DigitRun matches. */
  lemma DigitRunStopsAt(s: string, from: nat, field: string)
    requires 1 <= |field| <= 2 && AllDigits(field)
    requires from + |field| < |s| && s[from..from + |field|] == field
    requires !IsDigit(s[from + |field|])
    ensures DigitRun(s, from, 2) == |field|
  {
  }
}
