/** Human-readable record identifiers: a prefix followed by the counter value
    written in decimal and left-padded with '0' to at least three digits, as
    JavaScript's `seq.toString().padStart(3, '0')` does. */
module Identifiers {

  /** Minimum number of digits after the prefix. */
  const MIN_DIGITS: nat := 3

  predicate IsDigit(c: char) {
    '0' <= c <= '9'
  }

  predicate AllDigits(s: string) {
    forall i :: 0 <= i < |s| ==> IsDigit(s[i])
  }

  function Digit(d: nat): (c: char)
    requires d < 10
    ensures IsDigit(c)
  {
    ('0' as int + d) as char
  }

  function DigitValue(c: char): (d: nat)
    requires IsDigit(c)
    ensures d < 10 && Digit(d) == c
  {
    c as int - '0' as int
  }

  /** `n.toString()` for a non-negative integer: the shortest decimal numeral. */
  function NatToDecimal(n: nat): (s: string)
    ensures |s| >= 1 && AllDigits(s)
    ensures s[0] == '0' ==> n == 0
    decreases n
  {
    if n < 10 then [Digit(n)] else NatToDecimal(n / 10) + [Digit(n % 10)]
  }

  /** The number a string of decimal digits denotes (leading zeros allowed);
      the inverse that the identifier round trip is stated against. */
  function DecimalValue(s: string): nat
    requires AllDigits(s)
  {
    if s == [] then 0 else DecimalValue(s[..|s| - 1]) * 10 + DigitValue(s[|s| - 1])
  }

  /** `s.padStart(width, fill)`: `fill` is prepended until `s` is `width` long;
      a string that is already long enough is returned whole. */
  function PadStart(s: string, width: nat, fill: char): (r: string)
    ensures |r| == if |s| >= width then |s| else width
    ensures r[|r| - |s|..] == s
    ensures forall i :: 0 <= i < |r| - |s| ==> r[i] == fill
  {
    if |s| >= width then s else seq(width - |s|, _ => fill) + s
  }

  /** The identifier for sequence value `n` under `prefix` (`"NTC"`, `"CMP"`). */
  function FormatId(prefix: string, n: nat): (id: string)
    ensures |id| >= |prefix| + MIN_DIGITS
    ensures id[..|prefix|] == prefix
    ensures AllDigits(id[|prefix|..])
  {
    prefix + PadStart(NatToDecimal(n), MIN_DIGITS, '0')
  }

  lemma {:induction false} DecimalRoundTrip(n: nat)
    ensures DecimalValue(NatToDecimal(n)) == n
    decreases n
  {
    var s := NatToDecimal(n);
    if n < 10 {
      assert s[..|s| - 1] == [];
    } else {
      assert s[..|s| - 1] == NatToDecimal(n / 10);
      DecimalRoundTrip(n / 10);
    }
  }

  /** Leading zeros do not change the value of a numeral. */
  lemma {:induction false} LeadingZeros(z: string, s: string)
    requires forall i :: 0 <= i < |z| ==> z[i] == '0'
    requires AllDigits(s)
    ensures AllDigits(z + s)
    ensures DecimalValue(z + s) == DecimalValue(s)
    decreases |z| + |s|
  {
    assert AllDigits(z + s) by {
      forall i | 0 <= i < |z + s| ensures IsDigit((z + s)[i]) {
        if i < |z| { assert (z + s)[i] == z[i]; } else { assert (z + s)[i] == s[i - |z|]; }
      }
    }
    if s == [] {
      assert z + s == z;
      if z != [] {
        LeadingZeros(z[..|z| - 1], []);
        assert z[..|z| - 1] + [] == z[..|z| - 1];
      }
    } else {
      var t := s[..|s| - 1];
      assert (z + s)[..|z + s| - 1] == z + t;
      assert (z + s)[|z + s| - 1] == s[|s| - 1];
      LeadingZeros(z, t);
    }
  }

  /** The digits of an identifier read back as the sequence value it was made from. */
  lemma FormatIdRoundTrip(prefix: string, n: nat)
    ensures DecimalValue(FormatId(prefix, n)[|prefix|..]) == n
  {
    var s := NatToDecimal(n);
    var r := PadStart(s, MIN_DIGITS, '0');
    var z := r[..|r| - |s|];
    assert r == z + s;
    assert FormatId(prefix, n)[|prefix|..] == r;
    LeadingZeros(z, s);
    DecimalRoundTrip(n);
  }

  /** Distinct sequence values give distinct identifiers. */
  lemma FormatIdInjective(prefix: string, m: nat, n: nat)
    requires FormatId(prefix, m) == FormatId(prefix, n)
    ensures m == n
  {
    FormatIdRoundTrip(prefix, m);
    FormatIdRoundTrip(prefix, n);
  }

  /** A value above every value issued so far gives an identifier none of
      them has. */
  lemma FormatIdFresh(prefix: string, issued: set<nat>, value: nat)
    requires forall n :: n in issued ==> n < value
    ensures forall n :: n in issued ==> FormatId(prefix, n) != FormatId(prefix, value)
  {
    forall n | n in issued ensures FormatId(prefix, n) != FormatId(prefix, value) {
      if FormatId(prefix, n) == FormatId(prefix, value) {
        FormatIdInjective(prefix, n, value);
      }
    }
  }

  /** From 100 on the numeral already has three digits: nothing is padded and
      nothing is ever truncated. */
  lemma WideValuesUnpadded(prefix: string, n: nat)
    requires n >= 100
    ensures FormatId(prefix, n) == prefix + NatToDecimal(n)
  {
    var tens := n / 10;
    assert tens >= 10;
    assert |NatToDecimal(tens)| == |NatToDecimal(tens / 10)| + 1;
    assert |NatToDecimal(n)| == |NatToDecimal(tens)| + 1;
  }

  /** Short values are padded to three digits. */
  lemma PaddedExamples()
    ensures FormatId("CMP", 3) == "CMP003"
    ensures FormatId("NTC", 12) == "NTC012"
  {
    assert NatToDecimal(3) == "3";
    assert NatToDecimal(12) == "12";
  }

  /** A four-digit value is kept whole. */
  lemma WideExample()
    ensures FormatId("CMP", 1542) == "CMP1542"
  {
    WideValuesUnpadded("CMP", 1542);
    assert NatToDecimal(15) == "15";
    assert NatToDecimal(154) == NatToDecimal(15) + "4";
    assert NatToDecimal(1542) == NatToDecimal(154) + "2";
  }
}
