/** Decimal text: the number-to-string conversions the game performs with template
    literals, `join('')` and `padStart`, plus the two string primitives it relies on
    (ASCII lower-casing for key names and JavaScript's lexicographic `<=` on strings). */
module Text {
  import opened Random

  predicate IsDigit(c: char) {
    '0' <= c <= '9'
  }

  predicate AllDigits(s: string) {
    forall i :: 0 <= i < |s| ==> IsDigit(s[i])
  }

  function DigitValue(c: char): (d: nat)
    requires IsDigit(c)
    ensures d < 10
  {
    c as int - '0' as int
  }

  function DigitChar(d: nat): (c: char)
    requires d < 10
    ensures IsDigit(c)
    ensures DigitValue(c) == d
  {
    ('0' as int + d) as char
  }

  /** The decimal rendering of a natural number, as `${n}` / `n.toString()` produce it. */
  function NatToString(n: nat): (s: string)
    ensures |s| >= 1
    ensures AllDigits(s)
    ensures |s| > 1 ==> s[0] != '0'
    decreases n
  {
    if n < 10 then [DigitChar(n)] else NatToString(n / 10) + [DigitChar(n % 10)]
  }

  /** The value of a string of decimal digits (leading zeros allowed). */
  function ParseNat(s: string): nat
    requires AllDigits(s)
    decreases |s|
  {
    if |s| == 0 then 0 else ParseNat(s[..|s| - 1]) * 10 + DigitValue(s[|s| - 1])
  }

  /** Parsing the decimal rendering gives the number back. */
  lemma {:induction false} ParseNatToString(n: nat)
    ensures ParseNat(NatToString(n)) == n
    decreases n
  {
    if n >= 10 {
      var s := NatToString(n);
      assert s[..|s| - 1] == NatToString(n / 10);
      ParseNatToString(n / 10);
    }
  }

  /** Distinct numbers have distinct renderings. */
  lemma NatToStringInjective(a: nat, b: nat)
    ensures NatToString(a) == NatToString(b) ==> a == b
  {
    ParseNatToString(a);
    ParseNatToString(b);
  }

  /** Leading zeros do not change the parsed value. */
  lemma {:induction false} ParseNatLeadingZero(s: string)
    requires AllDigits(s)
    ensures ParseNat(['0'] + s) == ParseNat(s)
    decreases |s|
  {
    if |s| > 0 {
      var t := ['0'] + s;
      assert t[..|t| - 1] == ['0'] + s[..|s| - 1];
      ParseNatLeadingZero(s[..|s| - 1]);
    }
  }

  /** `s.padStart(2, '0')`: prefix zeros until the string is two characters long. */
  function PadStart2(s: string): (r: string)
    ensures |r| == if |s| >= 2 then |s| else 2
    ensures r[|r| - |s|..] == s
    ensures forall i :: 0 <= i < |r| - |s| ==> r[i] == '0'
  {
    if |s| >= 2 then s else if |s| == 1 then ['0'] + s else "00"
  }

  /** Padding with zeros keeps the parsed value. */
  lemma ParsePadStart2(s: string)
    requires AllDigits(s)
    ensures AllDigits(PadStart2(s))
    ensures ParseNat(PadStart2(s)) == ParseNat(s)
  {
    if |s| == 1 {
      ParseNatLeadingZero(s);
    } else if |s| == 0 {
      ParseNatLeadingZero("0");
      ParseNatLeadingZero("");
    }
  }

  /** One random digit as `Math.floor(Math.random() * 10)` draws it from `u` in [0, 1). */
  function DrawDigit(u: real): (d: nat)
    requires Unit(u)
    ensures d < 10
    ensures d as real <= u * 10.0 < d as real + 1.0
  {
    (u * 10.0).Floor
  }

  predicate UnitDraws(us: seq<real>) {
    forall i :: 0 <= i < |us| ==> Unit(us[i])
  }

  /** `Array.from({ length: n }, () => Math.floor(Math.random() * 10)).join('')`
      with the n draws passed in. */
  function DigitString(us: seq<real>): (s: string)
    requires UnitDraws(us)
    ensures |s| == |us|
    ensures AllDigits(s)
    ensures forall i :: 0 <= i < |us| ==> DigitValue(s[i]) == DrawDigit(us[i])
  {
    if |us| == 0 then [] else [DigitChar(DrawDigit(us[0]))] + DigitString(us[1..])
  }

  /** Every digit string of length n can be drawn: the draws d/10 produce it. */
  lemma {:induction false} DigitStringOnto(s: string)
    requires AllDigits(s)
    ensures UnitDraws(DrawsFor(s))
    ensures DigitString(DrawsFor(s)) == s
    decreases |s|
  {
    if |s| > 0 {
      var us := DrawsFor(s);
      assert us[1..] == DrawsFor(s[1..]);
      DigitStringOnto(s[1..]);
      assert DrawDigit(us[0]) == DigitValue(s[0]);
    }
  }

  function DrawsFor(s: string): (us: seq<real>)
    requires AllDigits(s)
    ensures |us| == |s|
    ensures forall i :: 0 <= i < |s| ==> us[i] == DigitValue(s[i]) as real / 10.0
  {
    if |s| == 0 then [] else [DigitValue(s[0]) as real / 10.0] + DrawsFor(s[1..])
  }

  function LowerChar(c: char): (r: char)
    ensures 'A' <= c <= 'Z' ==> r as int == c as int + 32
    ensures !('A' <= c <= 'Z') ==> r == c
  {
    if 'A' <= c <= 'Z' then (c as int + 32) as char else c
  }

  /** `toLowerCase()` restricted to ASCII letters: every character outside A-Z
      is left unchanged, which `toLowerCase()` does not always do. */
  function LowerAscii(s: string): (r: string)
    ensures |r| == |s|
    ensures forall i :: 0 <= i < |s| ==> r[i] == LowerChar(s[i])
  {
    if |s| == 0 then [] else [LowerChar(s[0])] + LowerAscii(s[1..])
  }

  /** JavaScript's `a <= b` on strings: lexicographic by character. */
  predicate LexLe(a: string, b: string)
    decreases |a|
  {
    |a| == 0 || (|b| > 0 && (a[0] < b[0] || (a[0] == b[0] && LexLe(a[1..], b[1..]))))
  }

  /** `key >= '0' && key <= '9'` */
  predicate InDigitRange(key: string) {
    LexLe("0", key) && LexLe(key, "9")
  }

  /** A key in the digit range starts with a digit; for a one-character key the
      range test is exactly "is a decimal digit". */
  lemma DigitRangeShape(key: string)
    ensures InDigitRange(key) ==> |key| >= 1 && IsDigit(key[0])
    ensures |key| == 1 ==> (InDigitRange(key) <==> IsDigit(key[0]))
  {
    if |key| == 1 {
      assert LexLe("0"[1..], key[1..]);
      assert LexLe(key[1..], "9"[1..]);
    }
  }
}
