/**
 * Decimal and hexadecimal numerals: the digit strings Rust's address parser
 * reads (`read_number`) and the ones `Display`/`{:x}` write.
 */
module Numerals {

  /** The two radices the core uses. */
  type Base = b: nat | b == 10 || b == 16 witness 10

  predicate IsDecDigit(c: char) { '0' <= c <= '9' }

  /** `char::to_digit(16)` accepts either case. */
  predicate IsHexDigit(c: char) { IsDecDigit(c) || 'a' <= c <= 'f' || 'A' <= c <= 'F' }

  predicate IsDigitIn(c: char, base: Base) { if base == 10 then IsDecDigit(c) else IsHexDigit(c) }

  predicate AllDigits(s: string, base: Base) { forall i :: 0 <= i < |s| ==> IsDigitIn(s[i], base) }

  function DigitValue(c: char): (d: nat)
    requires IsHexDigit(c)
    ensures d < 16
    ensures IsDecDigit(c) <==> d < 10
  {
    if IsDecDigit(c) then c as int - '0' as int
    else if 'a' <= c <= 'f' then c as int - 'a' as int + 10
    else c as int - 'A' as int + 10
  }

  /** The lower-case digit Rust's formatters print. */
  function DigitChar(d: nat): (c: char)
    requires d < 16
    ensures IsHexDigit(c) && DigitValue(c) == d
    ensures IsDecDigit(c) <==> d < 10
    ensures c != ':' && c != '.' && c != '"' && c != '\\'
  {
    if d < 10 then ('0' as int + d) as char else ('a' as int + d - 10) as char
  }

  function Pow(b: nat, k: nat): (p: nat)
    ensures b >= 1 ==> p >= 1
  {
    if k == 0 then 1 else b * Pow(b, k - 1)
  }

  /** The value of a digit string, most significant digit first. */
  function Value(s: string, base: Base): nat
    requires AllDigits(s, base)
  {
    if s == [] then 0 else Value(s[..|s| - 1], base) * base + DigitValue(s[|s| - 1])
  }

  /** The shortest numeral of `n`: no leading zero, lower-case hex digits. */
  function Show(n: nat, base: Base): (s: string)
    ensures |s| >= 1 && AllDigits(s, base)
    ensures s[0] == '0' <==> n == 0
    ensures |s| > 1 ==> n >= base
    ensures forall i :: 0 <= i < |s| ==> s[i] != ':' && s[i] != '.' && s[i] != '"' && s[i] != '\\'
    decreases n
  {
    if n < base then [DigitChar(n)] else Show(n / base, base) + [DigitChar(n % base)]
  }

  /** A numeral with k digits stays below base^k. */
  lemma {:induction false} ValueBound(s: string, base: Base)
    requires AllDigits(s, base)
    ensures Value(s, base) < Pow(base, |s|)
  {
    if s != [] {
      var init := s[..|s| - 1];
      ValueBound(init, base);
      var v, p := Value(init, base), Pow(base, |init|);
      assert v <= p - 1;
      assert v * base <= (p - 1) * base;
      assert Value(s, base) <= (p - 1) * base + (base - 1);
    }
  }

  /** Reading back a printed numeral gives the number: Show and Value are inverse. */
  lemma {:induction false} ValueShow(n: nat, base: Base)
    ensures Value(Show(n, base), base) == n
    decreases n
  {
    if n >= base {
      var s := Show(n, base);
      ValueShow(n / base, base);
      assert s[..|s| - 1] == Show(n / base, base);
    }
  }

  /** A byte value prints in at most three decimal digits. */
  lemma ShowOctetLength(n: nat)
    requires n < 0x100
    ensures |Show(n, 10)| <= 3
  {
    if n >= 10 {
      assert n / 10 < 26;
      if n / 10 >= 10 {
        assert |Show(n / 10 / 10, 10)| == 1;
      }
    }
  }

  /** A 16-bit value prints in at most four hexadecimal digits. */
  lemma ShowSegmentLength(n: nat)
    requires n < 0x1_0000
    ensures |Show(n, 16)| <= 4
  {
    var a := n / 16;
    var b := a / 16;
    var c := b / 16;
    assert c < 16;
    assert |Show(b, 16)| <= 2 by { if b >= 16 { assert |Show(c, 16)| == 1; } }
    assert |Show(a, 16)| <= 3 by { if a >= 16 { assert |Show(b, 16)| <= 2; } }
  }
}
