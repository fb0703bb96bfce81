/** Decimal rendering of naturals as JavaScript's Number.prototype.toString
    does it for non-negative integers, left padding as String.prototype.padStart
    does it with a one-character filler, and ValueOf, the reading of a digit
    string back into a number, against which both are proved. */
module Digits {
  import opened Arith

  predicate IsDigit(c: char) {
    '0' <= c <= '9'
  }

  predicate AllDigits(s: string) {
    forall i :: 0 <= i < |s| ==> IsDigit(s[i])
  }

  /** A string toString can produce: digits, and no leading zero unless the
      string is "0" itself. */
  predicate Canonical(s: string) {
    |s| >= 1 && AllDigits(s) && (s[0] == '0' ==> |s| == 1)
  }

  function Max(a: nat, b: nat): nat {
    if a < b then b else a
  }

  function DigitValue(c: char): (k: nat)
    requires IsDigit(c)
    ensures k < 10
  {
    c as int - '0' as int
  }

  function DigitChar(k: nat): (c: char)
    requires k < 10
    ensures IsDigit(c) && DigitValue(c) == k
  {
    ('0' as int + k) as char
  }

  /** The number of decimal digits of n (one for zero). */
  function NumDigits(n: nat): (k: nat)
    ensures k >= 1
  {
    if n < 10 then 1 else 1 + NumDigits(n / 10)
  }

  /** NumDigits(n) is the k with 10^(k-1) <= n < 10^k. */
  lemma {:induction false} NumDigitsBounds(n: nat)
    ensures n < Pow10(NumDigits(n))
    ensures n > 0 ==> Pow10(NumDigits(n) - 1) <= n
  {
    if n >= 10 {
      NumDigitsBounds(n / 10);
    }
  }

  /** n.toString() for a non-negative integer n. */
  function NatToString(n: nat): (s: string)
    ensures |s| == NumDigits(n)
    ensures Canonical(s)
    ensures s[0] == '0' <==> n == 0
  {
    if n < 10 then [DigitChar(n)] else NatToString(n / 10) + [DigitChar(n % 10)]
  }

  /** The number a digit string denotes, most significant digit first. */
  function ValueOf(s: string): nat
    requires AllDigits(s)
  {
    if s == [] then 0 else ValueOf(s[..|s| - 1]) * 10 + DigitValue(s[|s| - 1])
  }

  /** A string of k digits denotes a number below 10^k. */
  lemma {:induction false} ValueOfBound(s: string)
    requires AllDigits(s)
    ensures ValueOf(s) < Pow10(|s|)
  {
    if s != [] {
      ValueOfBound(s[..|s| - 1]);
    }
  }

  /** s.padStart(width, fill) for a one-character filler: when s is shorter
      than width it is prefixed with fill up to width characters, otherwise it
      is returned unchanged (never truncated). */
  function PadStart(s: string, width: nat, fill: char): (r: string)
    ensures |r| == Max(width, |s|)
  {
    if |s| >= width then s else seq(width - |s|, _ => fill) + s
  }

  /** padStart keeps s as the suffix and puts only the filler before it. */
  lemma PadStartShape(s: string, width: nat, fill: char)
    ensures var r := PadStart(s, width, fill);
      && r[|r| - |s|..] == s
      && forall i :: 0 <= i < |r| - |s| ==> r[i] == fill
  {
  }

  function Zeros(k: nat): (z: string)
    ensures |z| == k && AllDigits(z)
  {
    seq(k, _ => '0')
  }

  /** Reading back a rendered number gives the number. */
  lemma {:induction false} ValueOfNatToString(n: nat)
    ensures ValueOf(NatToString(n)) == n
  {
    if n >= 10 {
      var s := NatToString(n);
      assert s[..|s| - 1] == NatToString(n / 10);
      ValueOfNatToString(n / 10);
    }
  }

  /** A digit string that does not start with '0' is at least 10^(|s|-1). */
  lemma {:induction false} LeadingDigitBound(s: string)
    requires AllDigits(s) && |s| >= 1 && s[0] != '0'
    ensures ValueOf(s) >= Pow10(|s| - 1)
  {
    if |s| > 1 {
      var s' := s[..|s| - 1];
      assert s'[0] == s[0];
      LeadingDigitBound(s');
    }
  }

  /** Rendering the value of a canonical string gives the string back: the
      other half of the round trip. */
  lemma {:induction false} NatToStringOfValue(s: string)
    requires Canonical(s)
    ensures NatToString(ValueOf(s)) == s
  {
    var v := ValueOf(s);
    var c := s[|s| - 1];
    var s' := s[..|s| - 1];
    if |s| == 1 {
      assert s' == [];
      assert s == [c];
    } else {
      assert s'[0] == s[0] != '0';
      LeadingDigitBound(s');
      DivModUnique(v, 10, ValueOf(s'), DigitValue(c));
      NatToStringOfValue(s');
      assert s == s' + [c];
    }
  }

  /** A block of zeros denotes zero. */
  lemma {:induction false} ZerosValue(k: nat)
    ensures ValueOf(Zeros(k)) == 0
  {
    if k > 0 {
      assert Zeros(k)[..k - 1] == Zeros(k - 1);
      ZerosValue(k - 1);
    }
  }

  /** Leading zeros do not change the value of a digit string. */
  lemma {:induction false} LeadingZerosValue(k: nat, s: string)
    requires AllDigits(s)
    ensures AllDigits(Zeros(k) + s)
    ensures ValueOf(Zeros(k) + s) == ValueOf(s)
  {
    var t := Zeros(k) + s;
    if s == [] {
      assert t == Zeros(k);
      ZerosValue(k);
    } else {
      assert t[..|t| - 1] == Zeros(k) + s[..|s| - 1];
      LeadingZerosValue(k, s[..|s| - 1]);
    }
  }

  /** The first k characters of a digit string denote its value with the last
      |s| - k digits dropped. */
  lemma {:induction false} PrefixValue(s: string, k: nat)
    requires AllDigits(s) && k <= |s|
    ensures ValueOf(s[..k]) == ValueOf(s) / Pow10(|s| - k)
    decreases |s| - k
  {
    if k == |s| {
      assert s[..k] == s;
    } else {
      var s' := s[..|s| - 1];
      assert s[..k] == s'[..k];
      PrefixValue(s', k);
      DivModUnique(ValueOf(s), 10, ValueOf(s'), DigitValue(s[|s| - 1]));
      DivDiv(ValueOf(s), 10, Pow10(|s'| - k));
    }
  }
}
