/** Decimal and hexadecimal text, as Python prints and reads it. */
module Numerals {
  // ---------------------------------------------------------------- decimal

  predicate IsDigit(c: char) {
    '0' <= c <= '9'
  }

  /** `str.isdecimal` on ASCII text. */
  predicate IsDecimal(s: string) {
    s != "" && forall i :: 0 <= i < |s| ==> IsDigit(s[i])
  }

  function Dec(n: nat): (s: string)
    ensures IsDecimal(s)
  {
    var last := [('0' as int + n % 10) as char];
    if n < 10 then last else Dec(n / 10) + last
  }

  function Value(s: string): nat
    requires forall i :: 0 <= i < |s| ==> IsDigit(s[i])
  {
    if s == "" then 0
    else
      assert IsDigit(s[|s| - 1]);
      Value(s[..|s| - 1]) * 10 + (s[|s| - 1] as int - '0' as int)
  }

  lemma {:induction false} ValueOfDec(n: nat)
    ensures Value(Dec(n)) == n
  {
    var s := Dec(n);
    if n >= 10 {
      ValueOfDec(n / 10);
      assert s[..|s| - 1] == Dec(n / 10);
    } else {
      assert s[..|s| - 1] == "";
    }
  }

  function Pow10(n: nat): (p: nat)
    ensures p >= 1
  {
    if n == 0 then 1 else 10 * Pow10(n - 1)
  }

  // ------------------------------------------------------------ hexadecimal

  predicate IsHexDigit(c: char) {
    '0' <= c <= '9' || 'a' <= c <= 'f'
  }

  predicate IsHex(s: string) {
    |s| % 2 == 0 && forall i :: 0 <= i < |s| ==> IsHexDigit(s[i])
  }

  predicate IsBytes(s: string) {
    forall i :: 0 <= i < |s| ==> s[i] as int < 256
  }

  function HexDigit(v: nat): (c: char)
    requires v < 16
    ensures IsHexDigit(c) && HexValue(c) == v
  {
    if v < 10 then ('0' as int + v) as char else ('a' as int + v - 10) as char
  }

  function HexValue(c: char): (v: nat)
    requires IsHexDigit(c)
    ensures v < 16
  {
    if c <= '9' then c as int - '0' as int else c as int - 'a' as int + 10
  }

  /** `bytes.hex` */
  function Hex(b: string): (h: string)
    requires IsBytes(b)
    ensures |h| == 2 * |b| && IsHex(h)
  {
    if b == "" then "" else [HexDigit(b[0] as int / 16), HexDigit(b[0] as int % 16)] + Hex(b[1..])
  }

  /** `bytes.fromhex` on lower-case digits */
  function Unhex(h: string): (b: string)
    requires IsHex(h)
    ensures 2 * |b| == |h| && IsBytes(b)
  {
    if h == "" then "" else [(HexValue(h[0]) * 16 + HexValue(h[1])) as char] + Unhex(h[2..])
  }

  lemma {:induction false} HexAfterUnhex(h: string)
    requires IsHex(h)
    ensures Hex(Unhex(h)) == h
  {
    if h != "" {
      HexAfterUnhex(h[2..]);
      assert Unhex(h)[1..] == Unhex(h[2..]);
      DigitOfValue(h[0]);
      DigitOfValue(h[1]);
      var v := HexValue(h[0]) * 16 + HexValue(h[1]);
      assert v / 16 == HexValue(h[0]) && v % 16 == HexValue(h[1]);
      assert h == [h[0], h[1]] + h[2..];
    }
  }

  lemma DigitOfValue(c: char)
    requires IsHexDigit(c)
    ensures HexDigit(HexValue(c)) == c
  {
  }

  lemma {:induction false} UnhexAfterHex(b: string)
    requires IsBytes(b)
    ensures Unhex(Hex(b)) == b
  {
    if b != "" {
      UnhexAfterHex(b[1..]);
      var h := Hex(b);
      assert h[2..] == Hex(b[1..]);
      assert h[0] == HexDigit(b[0] as int / 16) && h[1] == HexDigit(b[0] as int % 16);
      assert b == [b[0]] + b[1..];
    }
  }

  /** Most significant digit first, in ASCII. */
  lemma DecimalDigits(n: nat)
    ensures Dec(n) == (if n < 10 then "" else Dec(n / 10)) + [(48 + n % 10) as char]
  {
  }

  /** Two lower-case digits for a byte, in ASCII. */
  lemma HexadecimalDigits(b: string)
    requires IsBytes(b) && b != ""
    ensures var high, low := b[0] as int / 16, b[0] as int % 16;
            Hex(b) == [(if high < 10 then 48 + high else 87 + high) as char, (if low < 10 then 48 + low else 87 + low) as char] + Hex(b[1..])
  {
  }
}
