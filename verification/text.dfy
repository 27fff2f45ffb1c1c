/**
 * The PHP string primitives the controllers build identifiers with:
 * integer-to-string conversion, str_pad with STR_PAD_LEFT, substr,
 * intval, and substring search (the plain-containment reading of LIKE '%s%').
 */
module Text {

  predicate IsDigit(c: char) {
    '0' <= c <= '9'
  }

  predicate AllDigits(s: string) {
    forall i :: 0 <= i < |s| ==> IsDigit(s[i])
  }

  predicate AllZeros(s: string) {
    forall i :: 0 <= i < |s| ==> s[i] == '0'
  }

  function DigitChar(d: nat): (c: char)
    requires d < 10
    ensures IsDigit(c) && c as int - '0' as int == d
  {
    ('0' as int + d) as char
  }

  function DigitValue(c: char): nat
    requires IsDigit(c)
  {
    c as int - '0' as int
  }

  /** Decimal representation of a natural number, without leading zeros. */
  function Digits(n: nat): (s: string)
    ensures 1 <= |s| && AllDigits(s)
    ensures n < 10 <==> |s| == 1
  {
    if n < 10 then [DigitChar(n)] else Digits(n / 10) + [DigitChar(n % 10)]
  }

  /** The number a digit string denotes; the empty string denotes 0. */
  function Value(s: string): nat
    requires AllDigits(s)
  {
    if s == [] then 0 else Value(s[..|s| - 1]) * 10 + DigitValue(s[|s| - 1])
  }

  /** Reading back a printed number gives the number. */
  lemma {:induction false} ValueOfDigits(n: nat)
    ensures Value(Digits(n)) == n
  {
    if n >= 10 {
      var s := Digits(n);
      assert s[..|s| - 1] == Digits(n / 10);
      ValueOfDigits(n / 10);
    }
  }

  lemma {:induction false} ValueOfZeros(z: string)
    requires AllZeros(z)
    ensures AllDigits(z) && Value(z) == 0
  {
    if z != [] {
      ValueOfZeros(z[..|z| - 1]);
    }
  }

  /** Leading zeros do not change the value of a digit string. */
  lemma {:induction false} ValueIgnoresLeadingZeros(z: string, s: string)
    requires AllZeros(z) && AllDigits(s)
    ensures AllDigits(z + s) && Value(z + s) == Value(s)
  {
    var t := z + s;
    assert AllDigits(t) by {
      forall i | 0 <= i < |t| ensures IsDigit(t[i]) {
        if i < |z| { assert t[i] == z[i]; } else { assert t[i] == s[i - |z|]; }
      }
    }
    if s == [] {
      assert t == z;
      ValueOfZeros(z);
    } else {
      assert t[..|t| - 1] == z + s[..|s| - 1];
      ValueIgnoresLeadingZeros(z, s[..|s| - 1]);
    }
  }

  /** PHP's string conversion of an integer: a minus sign, then the digits of the magnitude. */
  function IntToString(i: int): (s: string)
    ensures i >= 0 ==> s == Digits(i)
    ensures i < 0 ==> |s| >= 2 && s[0] == '-' && s[1..] == Digits(-i)
  {
    if i < 0 then "-" + Digits(-i) else Digits(i)
  }

  /** str_pad($s, $width, $c, STR_PAD_LEFT): fill on the left up to `width` characters. */
  function PadLeft(s: string, width: nat, c: char): (r: string)
    ensures |r| == if |s| < width then width else |s|
  {
    if |s| < width then seq(width - |s|, _ => c) + s else s
  }

  /** The padded string ends with the original one and everything before it is the fill character. */
  lemma PadLeftShape(s: string, width: nat, c: char)
    ensures var r := PadLeft(s, width, c);
      && r[|r| - |s|..] == s
      && forall i :: 0 <= i < |r| - |s| ==> r[i] == c
  {
  }

  /** A number zero-padded on the left is still all digits and still denotes that number. */
  lemma {:induction false} PaddedDigits(n: nat, width: nat)
    ensures AllDigits(PadLeft(Digits(n), width, '0'))
    ensures Value(PadLeft(Digits(n), width, '0')) == n
  {
    var d := Digits(n);
    var r := PadLeft(d, width, '0');
    PadLeftShape(d, width, '0');
    var z := r[..|r| - |d|];
    assert AllZeros(z) by {
      forall i | 0 <= i < |z| ensures z[i] == '0' {
        assert z[i] == r[i];
      }
    }
    assert r == z + r[|r| - |d|..];
    ValueIgnoresLeadingZeros(z, d);
    ValueOfDigits(n);
  }

  /** substr($s, $k) for $k >= 0: the empty string when `s` is shorter than `k`. */
  function SubstrFrom(s: string, k: nat): (r: string)
    ensures k <= |s| ==> s == s[..k] + r
    ensures |s| < k ==> r == ""
  {
    if k <= |s| then s[k..] else ""
  }

  /** The longest prefix of `s` made of decimal digits. */
  function LeadingDigits(s: string): (r: string)
    ensures AllDigits(r) && |r| <= |s| && r == s[..|r|]
    ensures |r| < |s| ==> !IsDigit(s[|r|])
  {
    if s == [] || !IsDigit(s[0]) then [] else [s[0]] + LeadingDigits(s[1..])
  }

  lemma {:induction false} LeadingDigitsOfDigits(s: string, rest: string)
    requires AllDigits(s)
    requires rest == [] || !IsDigit(rest[0])
    ensures LeadingDigits(s + rest) == s
  {
    if s != [] {
      assert (s + rest)[1..] == s[1..] + rest;
      LeadingDigitsOfDigits(s[1..], rest);
    } else {
      assert s + rest == rest;
    }
  }

  predicate IsSpace(c: char) {
    c == ' ' || c == '\t' || c == '\n' || c == '\r' || c == '\U{B}' || c == '\U{C}'
  }

  function TrimLeadingSpace(s: string): (r: string)
    ensures |r| <= |s| && (r == [] || !IsSpace(r[0]))
  {
    if s != [] && IsSpace(s[0]) then TrimLeadingSpace(s[1..]) else s
  }

  /**
   * intval() of a string: leading white space, an optional sign, then the
   * longest run of digits; 0 when there is none.
   */
  function IntVal(s: string): int {
    var t := TrimLeadingSpace(s);
    if t != [] && t[0] == '-' then 0 - Value(LeadingDigits(t[1..]))
    else if t != [] && t[0] == '+' then Value(LeadingDigits(t[1..]))
    else Value(LeadingDigits(t))
  }

  /** intval() of a zero-padded printed number is that number. */
  lemma {:induction false} IntValOfPadded(n: nat, width: nat)
    ensures IntVal(PadLeft(Digits(n), width, '0')) == n
  {
    var p := PadLeft(Digits(n), width, '0');
    PaddedDigits(n, width);
    assert TrimLeadingSpace(p) == p;
    LeadingDigitsOfDigits(p, []);
    assert p + [] == p;
  }

  /** Plain substring containment: `needle` occurs somewhere in `hay`. */
  predicate Contains(hay: string, needle: string) {
    exists i :: 0 <= i <= |hay| - |needle| && OccursAt(hay, needle, i)
  }

  predicate OccursAt(hay: string, needle: string, i: int) {
    0 <= i <= |hay| - |needle| && hay[i..i + |needle|] == needle
  }
}
