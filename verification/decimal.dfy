/** Decimal rendering and reading of natural numbers: JavaScript's
    `Number.prototype.toString()` (used in template literals), `padStart(2, '0')`
    and the leading-digit prefix that `parseInt` reads. */
module Decimal {
  import opened Wrappers

  predicate IsDigit(c: char) {
    '0' <= c <= '9'
  }

  predicate AllDigits(s: string) {
    forall i :: 0 <= i < |s| ==> IsDigit(s[i])
  }

  function Pow10(k: nat): (r: nat)
    ensures r >= 1
  {
    if k == 0 then 1 else 10 * Pow10(k - 1)
  }

  function DigitChar(d: nat): (c: char)
    requires d < 10
    ensures IsDigit(c)
  {
    ('0' as int + d) as char
  }

  function DigitValue(c: char): (d: nat)
    requires IsDigit(c)
    ensures d < 10
  {
    c as int - '0' as int
  }

  /** The value of a digit string, most significant digit first; leading
      zeros are allowed and the empty string reads as 0. */
  function Value(s: string): nat
    requires AllDigits(s)
  {
    if s == [] then 0 else 10 * Value(s[..|s| - 1]) + DigitValue(s[|s| - 1])
  }

  /** `n.toString()` for a natural number: its shortest decimal spelling. */
  function NatToString(n: nat): (r: string)
    ensures |r| >= 1 && AllDigits(r)
    ensures |r| > 1 ==> r[0] != '0'
  {
    if n < 10 then [DigitChar(n)] else NatToString(n / 10) + [DigitChar(n % 10)]
  }

  /** Reading back what `NatToString` wrote gives the number. */
  lemma {:induction false} ValueOfNatToString(n: nat)
    ensures Value(NatToString(n)) == n
  {
    if n >= 10 {
      var r := NatToString(n);
      assert r[..|r| - 1] == NatToString(n / 10);
      ValueOfNatToString(n / 10);
    }
  }

  /** `NatToString` is one-to-one. */
  lemma NatToStringInjective(m: nat, n: nat)
    requires NatToString(m) == NatToString(n)
    ensures m == n
  {
    ValueOfNatToString(m);
    ValueOfNatToString(n);
  }

  /** The spelling of `n` has at most `k` digits exactly when `n < 10^k`. */
  lemma {:induction false} NatToStringLength(n: nat, k: nat)
    requires k >= 1
    ensures |NatToString(n)| <= k <==> n < Pow10(k)
  {
    if n >= 10 && k >= 2 {
      NatToStringLength(n / 10, k - 1);
    } else if n >= 10 {
      assert |NatToString(n)| >= 2;
    }
  }

  /** A digit string without a leading zero is at least `10^(length - 1)`. */
  lemma {:induction false} ValueLowerBound(s: string)
    requires |s| >= 1 && AllDigits(s) && s[0] != '0'
    ensures Value(s) >= Pow10(|s| - 1)
  {
    if |s| > 1 {
      ValueLowerBound(s[..|s| - 1]);
    }
  }

  /** Spelling the value of a digit string without a leading zero gives the
      string back: `NatToString` is onto such strings. */
  lemma {:induction false} NatToStringOfValue(s: string)
    requires |s| >= 1 && AllDigits(s) && (|s| > 1 ==> s[0] != '0')
    ensures NatToString(Value(s)) == s
  {
    var v := Value(s);
    if |s| == 1 {
      assert s[..0] == [] && Value(s[..0]) == 0;
      assert v == 10 * Value(s[..0]) + DigitValue(s[0]);
      assert DigitChar(v) == s[0];
    } else {
      var p := s[..|s| - 1];
      ValueLowerBound(s);
      assert Pow10(|s| - 1) >= 10 by {
        assert Pow10(1) == 10;
        Pow10Monotone(1, |s| - 1);
      }
      assert v / 10 == Value(p) && v % 10 == DigitValue(s[|s| - 1]);
      NatToStringOfValue(p);
      assert s == p + [s[|s| - 1]];
    }
  }

  lemma {:induction false} Pow10Monotone(j: nat, k: nat)
    requires j <= k
    ensures Pow10(j) <= Pow10(k)
  {
    if j < k {
      Pow10Monotone(j, k - 1);
    }
  }

  /** A leading zero does not change a digit string's value. */
  lemma {:induction false} ValueLeadingZero(s: string)
    requires AllDigits(s)
    ensures AllDigits("0" + s) && Value("0" + s) == Value(s)
  {
    if s != [] {
      assert ("0" + s)[..|"0" + s| - 1] == "0" + s[..|s| - 1];
      ValueLeadingZero(s[..|s| - 1]);
    }
  }

  /** `k` copies of `c`. */
  function Repeat(c: char, k: nat): (r: string)
    ensures |r| == k && forall i :: 0 <= i < k ==> r[i] == c
  {
    if k == 0 then [] else [c] + Repeat(c, k - 1)
  }

  /** `s.padStart(width, fill)`: `fill` characters in front of `s` until it is
      `width` long; a string already that long is returned whole. */
  function PadStart(s: string, width: nat, fill: char): (r: string)
    ensures |r| == if |s| < width then width else |s|
    ensures r[|r| - |s|..] == s
    ensures forall i :: 0 <= i < |r| - |s| ==> r[i] == fill
  {
    if |s| >= width then s else Repeat(fill, width - |s|) + s
  }

  /** A zero-padded spelling reads back as the number. */
  lemma PaddedValue(n: nat, width: nat)
    ensures AllDigits(PadStart(NatToString(n), width, '0'))
    ensures Value(PadStart(NatToString(n), width, '0')) == n
  {
    var s := NatToString(n);
    var r := PadStart(s, width, '0');
    ValueOfNatToString(n);
    if |s| < width {
      PaddedZerosValue(width - |s|, s);
    }
  }

  lemma {:induction false} PaddedZerosValue(k: nat, s: string)
    requires AllDigits(s)
    ensures AllDigits(Repeat('0', k) + s)
    ensures Value(Repeat('0', k) + s) == Value(s)
  {
    if k > 0 {
      PaddedZerosValue(k - 1, s);
      var z := Repeat('0', k - 1) + s;
      assert Repeat('0', k) + s == "0" + z;
      ValueLeadingZero(z);
    } else {
      assert Repeat('0', k) + s == s;
    }
  }

  /** The longest prefix of `s` made of decimal digits. */
  function LeadingDigits(s: string): (r: string)
    ensures |r| <= |s| && r == s[..|r|] && AllDigits(r)
    ensures |r| == |s| || !IsDigit(s[|r|])
  {
    if s == [] || !IsDigit(s[0]) then []
    else
      var t := LeadingDigits(s[1..]);
      assert s[..|t| + 1] == [s[0]] + s[1..][..|t|];
      [s[0]] + t
  }

  /** `parseInt(s)` restricted to its decimal-digit prefix: `None` plays the part
      of `NaN` when `s` does not start with a digit. */
  function ParseLeadingInt(s: string): (r: Option<nat>)
    ensures r.None? <==> s == [] || !IsDigit(s[0])
  {
    var d := LeadingDigits(s);
    if d == [] then None else Some(Value(d))
  }

  /** A single digit is below ten; two or more digits without a leading
      zero are at least ten. */
  lemma LeadingValueBounds(d: string)
    requires AllDigits(d)
    ensures |d| == 1 ==> Value(d) < 10
    ensures |d| >= 2 && d[0] != '0' ==> Value(d) >= 10
  {
    if |d| == 1 {
      assert d[..0] == [];
    }
    if |d| >= 2 && d[0] != '0' {
      ValueLowerBound(d);
      Pow10Monotone(1, |d| - 1);
    }
  }

  /** Reading any run of digits followed by a non-digit gives the value of
      the digits, leading zeros included: "05" reads as 5 and "010" as 10. */
  lemma ParseLeadingIntOfDigits(d: string, rest: string)
    requires |d| >= 1 && AllDigits(d)
    requires rest == [] || !IsDigit(rest[0])
    ensures ParseLeadingInt(d + rest) == Some(Value(d))
  {
    LeadingDigitsOfDigits(d, rest);
  }

  /** Reading a number spelled by `NatToString` and followed by a non-digit
      (a unit such as " Mbps") gives the number back. */
  lemma ParseLeadingIntOfNat(n: nat, rest: string)
    requires rest == [] || !IsDigit(rest[0])
    ensures ParseLeadingInt(NatToString(n) + rest) == Some(n)
  {
    var a := NatToString(n);
    var s := a + rest;
    LeadingDigitsOfDigits(a, rest);
    ValueOfNatToString(n);
  }

  lemma {:induction false} LeadingDigitsOfDigits(a: string, rest: string)
    requires AllDigits(a)
    requires rest == [] || !IsDigit(rest[0])
    ensures LeadingDigits(a + rest) == a
  {
    if a == [] {
      assert a + rest == rest;
    } else {
      assert (a + rest)[1..] == a[1..] + rest;
      LeadingDigitsOfDigits(a[1..], rest);
    }
  }
}
