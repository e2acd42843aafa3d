/**
 Numbers as the printf conversions %d and %x write them, and the value of a digit string.
 */
module Numerals {
  import opened Prelude

  type Base = b: nat | b == 10 || b == 16 witness 10

  function Digit(n: nat): char
    requires n < 16
  {
    if n < 10 then ('0' as int + n) as char else ('a' as int + (n - 10)) as char
  }

  /** The value of a digit of the given base; upper and lower case letters both count. */
  function DigitValue(base: Base, c: char): Option<nat> {
    if '0' <= c <= '9' then Some(c as int - '0' as int)
    else if base == 16 && 'a' <= c <= 'f' then Some(c as int - 'a' as int + 10)
    else if base == 16 && 'A' <= c <= 'F' then Some(c as int - 'A' as int + 10)
    else None
  }

  predicate AllDigits(base: Base, s: string) {
    forall i :: 0 <= i < |s| ==> DigitValue(base, s[i]).Some?
  }

  /** The shortest numeral for `n`. */
  function Numeral(base: Base, n: nat): (s: string)
    ensures |s| > 0
  {
    if n < base then [Digit(n)] else Numeral(base, n / base) + [Digit(n % base)]
  }

  function Value(base: Base, s: string): nat
    requires AllDigits(base, s)
  {
    if s == "" then 0
    else base * Value(base, s[..|s| - 1]) + DigitValue(base, s[|s| - 1]).value
  }

  /** How many digits `s` starts with. */
  function DigitRun(base: Base, s: string): (n: nat)
    ensures n <= |s| && AllDigits(base, s[..n])
    ensures n < |s| ==> DigitValue(base, s[n]).None?
  {
    if s == "" || DigitValue(base, s[0]).None? then 0
    else
      var n := 1 + DigitRun(base, s[1..]);
      assert forall i :: 1 <= i < n ==> s[..n][i] == s[1..][..n - 1][i - 1];
      n
  }

  lemma {:induction false} DigitRunOf(base: Base, d: string, rest: string)
    requires AllDigits(base, d)
    requires rest != "" ==> DigitValue(base, rest[0]).None?
    ensures DigitRun(base, d + rest) == |d|
  {
    if d == "" {
      assert d + rest == rest;
    } else {
      assert (d + rest)[0] == d[0] && (d + rest)[1..] == d[1..] + rest;
      DigitRunOf(base, d[1..], rest);
    }
  }

  /** Reading a numeral back gives the number. */
  lemma {:induction false} NumeralValue(base: Base, n: nat)
    ensures AllDigits(base, Numeral(base, n)) && Value(base, Numeral(base, n)) == n
  {
    if n < base {
      assert Numeral(base, n)[..0] == "";
    } else {
      NumeralValue(base, n / base);
      var s := Numeral(base, n);
      assert s[..|s| - 1] == Numeral(base, n / base);
    }
  }

  lemma {:induction false} LeadingZeros(base: Base, k: nat, s: string)
    requires AllDigits(base, s)
    ensures AllDigits(base, Repeat('0', k) + s) && Value(base, Repeat('0', k) + s) == Value(base, s)
    decreases |s|, k
  {
    var t := Repeat('0', k) + s;
    if s != "" {
      assert t[..|t| - 1] == Repeat('0', k) + s[..|s| - 1];
      LeadingZeros(base, k, s[..|s| - 1]);
    } else if k > 0 {
      assert t[..|t| - 1] == Repeat('0', k - 1) + s;
      LeadingZeros(base, k - 1, s);
    }
  }

  /** The conversion %w.wx: at least `w` hexadecimal digits. */
  function PaddedHex(n: nat, w: nat): string {
    var h := Numeral(16, n);
    if |h| < w then Repeat('0', w - |h|) + h else h
  }

  lemma PaddedHexValue(n: nat, w: nat)
    ensures AllDigits(16, PaddedHex(n, w)) && Value(16, PaddedHex(n, w)) == n
  {
    var h := Numeral(16, n);
    NumeralValue(16, n);
    if |h| < w {
      LeadingZeros(16, w - |h|, h);
    }
  }

  lemma HexLengths(n: nat)
    ensures |Numeral(16, n)| <= 2 <==> n <= 0xFF
    ensures |Numeral(16, n)| <= 4 <==> n <= 0xFFFF
  {
    var a := n / 16;
    var b := a / 16;
    var c := b / 16;
    var d := c / 16;
    assert n >= 16 ==> |Numeral(16, n)| == 1 + |Numeral(16, a)|;
    assert a >= 16 ==> |Numeral(16, a)| == 1 + |Numeral(16, b)|;
    assert b >= 16 ==> |Numeral(16, b)| == 1 + |Numeral(16, c)|;
    assert c >= 16 ==> |Numeral(16, c)| == 1 + |Numeral(16, d)|;
  }

  /** The digits the conversions write; letters are in lower case. */
  predicate Printed(base: Base, c: char) {
    '0' <= c <= '9' || (base == 16 && 'a' <= c <= 'f')
  }

  lemma {:induction false} NumeralPlain(base: Base, n: nat)
    ensures forall i :: 0 <= i < |Numeral(base, n)| ==> Printed(base, Numeral(base, n)[i])
  {
    if n >= base {
      NumeralPlain(base, n / base);
    }
  }

  // ----- a number has one numeral

  /** Not empty, digits as they are printed, and no zero in front. */
  predicate Shortest(base: Base, d: string) {
    d != "" && (d[0] == '0' ==> |d| == 1) && forall i :: 0 <= i < |d| ==> Printed(base, d[i])
  }

  lemma {:induction false} NumeralShortest(base: Base, n: nat)
    ensures Shortest(base, Numeral(base, n)) && (Numeral(base, n)[0] == '0' ==> n == 0)
  {
    NumeralPlain(base, n);
    if n >= base {
      NumeralShortest(base, n / base);
      var t := Numeral(base, n / base);
      assert n / base > 0 && Numeral(base, n) == t + [Digit(n % base)];
      assert Numeral(base, n)[0] == t[0];
    }
  }

  lemma LastDigit(base: Base, d: string)
    requires d != "" && Shortest(base, [d[|d| - 1]])
    ensures var v := DigitValue(base, d[|d| - 1]); v.Some? && v.value < base && Digit(v.value) == d[|d| - 1]
  {
    assert Printed(base, [d[|d| - 1]][0]);
  }

  /** A numeral without a zero in front is the numeral of its value. */
  lemma {:induction false} ShortestIsNumeral(base: Base, d: string)
    requires Shortest(base, d)
    ensures AllDigits(base, d) && Numeral(base, Value(base, d)) == d
    ensures d[0] != '0' ==> Value(base, d) > 0
  {
    var k := |d| - 1;
    assert Printed(base, [d[k]][0]);
    LastDigit(base, d);
    var x := DigitValue(base, d[k]).value;
    assert d == d[..k] + [d[k]];
    if k == 0 {
      assert Value(base, d[..0]) == 0;
      assert Value(base, d) == x;
    } else {
      ShortestIsNumeral(base, d[..k]);
      var v := Value(base, d[..k]);
      assert Value(base, d) == base * v + x;
      DigitsApart(base, v, x);
    }
  }

  lemma DigitsApart(base: Base, v: nat, x: nat)
    requires x < base && v > 0
    ensures var n := base * v + x; n >= base && n / base == v && n % base == x
  {
  }
}
