/** Decimal rendering of non-negative integers, as JavaScript's `String(n)`
    produces it for a safe integer, and left-padding with zeros, as
    `String.prototype.padStart(2, "0")` does. */
module Digits {
  import opened Wrappers

  predicate IsDigit(c: char) {
    '0' <= c <= '9'
  }

  predicate AllDigits(s: string) {
    forall i :: 0 <= i < |s| ==> IsDigit(s[i])
  }

  /** A canonical numeral: non-empty, only digits, no superfluous leading zero. */
  predicate IsCanonical(s: string) {
    && |s| >= 1
    && AllDigits(s)
    && (|s| > 1 ==> s[0] != '0')
  }

  function DigitChar(d: nat): (c: char)
    requires d < 10
    ensures IsDigit(c)
    ensures DigitValue(c) == d
  {
    ('0' as int + d) as char
  }

  function DigitValue(c: char): (d: nat)
    requires IsDigit(c)
    ensures d < 10
  {
    c as int - '0' as int
  }

  /** `String(n)` for a non-negative integer `n`. */
  function NatToString(n: nat): (s: string)
    ensures IsCanonical(s)
    ensures n < 10 <==> |s| == 1
    ensures 10 <= n < 100 <==> |s| == 2
  {
    if n < 10 then [DigitChar(n)]
    else
      var prefix := NatToString(n / 10);
      assert n / 10 >= 1;
      prefix + [DigitChar(n % 10)]
  }

  /** The value of a string of decimal digits; leading zeros are allowed. */
  function DigitsValue(s: string): nat
    requires AllDigits(s)
  {
    if |s| == 0 then 0
    else 10 * DigitsValue(s[..|s| - 1]) + DigitValue(s[|s| - 1])
  }

  /** Reads a non-empty string of digits back as a number. */
  function ParseNat(s: string): (r: Option<nat>)
    ensures r.Some? <==> |s| >= 1 && AllDigits(s)
  {
    if |s| >= 1 && AllDigits(s) then Some(DigitsValue(s)) else None
  }

  /** Reading back a rendered number gives the number. */
  lemma {:induction false} NatToStringRoundTrip(n: nat)
    ensures ParseNat(NatToString(n)) == Some(n)
  {
    var s := NatToString(n);
    if n < 10 {
      assert s[..|s| - 1] == [];
    } else {
      NatToStringRoundTrip(n / 10);
      assert s[..|s| - 1] == NatToString(n / 10);
      assert DigitsValue(s) == 10 * (n / 10) + n % 10;
    }
  }

  /** A canonical numeral of more than one digit has a value of at least ten. */
  lemma {:induction false} CanonicalValueLowerBound(s: string)
    requires IsCanonical(s)
    ensures |s| > 1 ==> DigitsValue(s) >= 10
    ensures s[0] != '0' ==> DigitsValue(s) >= 1
  {
    if |s| > 1 {
      var p := s[..|s| - 1];
      assert IsCanonical(p) && p[0] == s[0];
      CanonicalValueLowerBound(p);
    }
  }

  /** Rendering the value of a canonical numeral gives the numeral back:
      `NatToString` and `ParseNat` are inverse bijections between the
      naturals and the canonical numerals. */
  lemma {:induction false} CanonicalRoundTrip(s: string)
    requires IsCanonical(s)
    ensures NatToString(DigitsValue(s)) == s
  {
    if |s| > 1 {
      var p := s[..|s| - 1];
      assert IsCanonical(p) && p[0] == s[0];
      CanonicalRoundTrip(p);
      CanonicalValueLowerBound(p);
      CanonicalValueLowerBound(s);
      var n := DigitsValue(s);
      assert n / 10 == DigitsValue(p) && n % 10 == DigitValue(s[|s| - 1]);
      assert s == p + [s[|s| - 1]];
    }
  }

  /** `s.padStart(2, "0")`: zeros are added on the left until the string has
      two characters; a longer string is left as it is. */
  function PadStart2(s: string): (r: string)
    ensures |r| == if |s| >= 2 then |s| else 2
    ensures r[|r| - |s|..] == s
    ensures forall i :: 0 <= i < |r| - |s| ==> r[i] == '0'
  {
    if |s| >= 2 then s
    else if |s| == 1 then "0" + s
    else "00"
  }

  /** `pad2(n)`: `String(n).padStart(2, "0")`. */
  function Pad2(n: nat): (r: string)
    ensures n <= 99 ==> |r| == 2 && AllDigits(r) && DigitsValue(r) == n
    ensures n >= 100 ==> r == NatToString(n)
  {
    var r := PadStart2(NatToString(n));
    NatToStringRoundTrip(n);
    if n < 10 then
      assert r[..1] == "0";
      r
    else r
  }

  /** Every two-digit string is the padded rendering of its value, so `Pad2`
      is a bijection from 0..99 onto the two-digit strings. */
  lemma Pad2Inverse(m: string)
    requires |m| == 2 && AllDigits(m)
    ensures DigitsValue(m) <= 99
    ensures Pad2(DigitsValue(m)) == m
  {
    var v := DigitsValue(m);
    var p := m[..|m| - 1];
    assert p == [m[0]] && p[..|p| - 1] == [];
    assert DigitsValue(p) == DigitValue(m[0]);
    assert v == 10 * DigitValue(m[0]) + DigitValue(m[1]);
    if m[0] == '0' {
      assert Pad2(v) == "0" + [DigitChar(v)];
    } else {
      CanonicalRoundTrip(m);
    }
  }
}
