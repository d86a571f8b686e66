/**
 One-time codes computed three times: by the identity service (internal/identity/service.go), by the web
 client (web/src/auth/totp.ts) and by the tool server (internal/mcpserver/tools.go).  Sections 5.3 of RFC
 4226 and 4.2 of RFC 6238.  A digest is what HMAC-SHA-1 returned for the counter.
 */
module TotpCodes {
  import opened Numerals

  predicate IsDigest(d: seq<nat>) {
    |d| == 20 && forall i :: 0 <= i < 20 ==> d[i] < 256
  }

  /** Dynamic truncation starts at the low half of the last byte. */
  function Offset(d: seq<nat>): nat
    requires IsDigest(d)
  {
    d[19] % 16
  }

  /** `binary.BigEndian.Uint32` */
  function Word(d: seq<nat>, o: nat): (w: nat)
    requires IsDigest(d) && o <= 16
    ensures w < 0x1_0000_0000
  {
    d[o] * 0x100_0000 + d[o + 1] * 0x1_0000 + d[o + 2] * 0x100 + d[o + 3]
  }

  /** The identity service: four bytes as one word, the top bit masked off. */
  function ServiceValue(d: seq<nat>): nat
    requires IsDigest(d)
  {
    Word(d, Offset(d)) % 0x8000_0000
  }

  /** The web client and the tool server: the top bit masked off the first byte, then the four put together. */
  function ClientValue(d: seq<nat>): nat
    requires IsDigest(d)
  {
    var o := Offset(d);
    d[o] % 0x80 * 0x100_0000 + d[o + 1] * 0x1_0000 + d[o + 2] * 0x100 + d[o + 3]
  }

  function Fill(n: nat): string {
    seq(n, i => '0')
  }

  /** `fmt.Sprintf("%06d")` and `padStart`: zeros on the left up to a width. */
  function Padded(s: string, width: nat): string {
    if |s| >= width then s else Fill(width - |s|) + s
  }

  /** `totpCode` of the identity service. */
  function ServiceCode(d: seq<nat>): string
    requires IsDigest(d)
  {
    Padded(Dec(ServiceValue(d) % 1_000_000), 6)
  }

  /** `generateTOTPCode` of the web client. */
  function ClientCode(d: seq<nat>, digits: nat): string
    requires IsDigest(d)
  {
    Padded(Dec(ClientValue(d) % Pow10(digits)), digits)
  }

  // ------------------------------------------------------------ equal numbers

  lemma MaskedFirstByte(b: nat, rest: nat)
    requires b < 256 && rest < 0x100_0000
    ensures (b * 0x100_0000 + rest) % 0x8000_0000 == b % 0x80 * 0x100_0000 + rest
  {
    var q, r := b / 0x80, b % 0x80;
    assert b * 0x100_0000 + rest == q * 0x8000_0000 + (r * 0x100_0000 + rest);
  }

  lemma SameValue(d: seq<nat>)
    requires IsDigest(d)
    ensures ServiceValue(d) == ClientValue(d)
  {
    var o := Offset(d);
    MaskedFirstByte(d[o], d[o + 1] * 0x1_0000 + d[o + 2] * 0x100 + d[o + 3]);
  }

  // ------------------------------------------------------------- equal digits

  lemma {:induction false} DigitsFit(n: nat, width: nat)
    requires n < Pow10(width) && width > 0
    ensures |Dec(n)| <= width
  {
    if n >= 10 {
      DigitsFit(n / 10, width - 1);
    }
  }

  /** A padded code has its width and spells its number, so different numbers below 10^width differ. */
  lemma PaddedSpells(n: nat, width: nat)
    requires n < Pow10(width) && width > 0
    ensures |Padded(Dec(n), width)| == width
    ensures forall i :: 0 <= i < width ==> IsDigit(Padded(Dec(n), width)[i])
    ensures (forall i :: 0 <= i < width ==> IsDigit(Padded(Dec(n), width)[i])) ==> Value(Padded(Dec(n), width)) == n
  {
    DigitsFit(n, width);
    var s := Dec(n);
    assert forall i :: 0 <= i < |s| ==> IsDigit(s[i]);
    ValueOfDec(n);
    ZerosAreNothing(width - |s|, s);
  }

  lemma {:induction false} ZerosAreNothing(n: nat, s: string)
    requires forall i :: 0 <= i < |s| ==> IsDigit(s[i])
    ensures forall i :: 0 <= i < |Fill(n) + s| ==> IsDigit((Fill(n) + s)[i])
    ensures Value(Fill(n) + s) == Value(s)
    decreases |s| + n
  {
    var t := Fill(n) + s;
    if s != [] {
      var init := s[..|s| - 1];
      ZerosAreNothing(n, init);
      assert t[..|t| - 1] == Fill(n) + init;
    } else if n > 0 {
      ZerosAreNothing(n - 1, s);
      assert t[..|t| - 1] == Fill(n - 1) + s;
    }
  }

  // ---------------------------------------------------------- the tool server

  /** `generateTOTP` of the tool server: it fills a buffer with zeros and copies the digits over its end. */
  method GenerateTotp(d: seq<nat>, digits: nat) returns (code: array<char>)
    requires IsDigest(d) && (digits == 6 || digits == 8)
    ensures fresh(code) && code[..] == ClientCode(d, digits)
  {
    var text := Truncate(d, digits);
    hide IsDigest, ClientCode, Dec;
    code := new char[digits];
    for i := 0 to digits
      invariant forall k :: 0 <= k < i ==> code[k] == '0'
    {
      code[i] := '0';
    }
    var front := digits - |text|;
    FillIs(code[..front]);
    PaddedIs(text, digits);
    hide *;
    CopyToEnd(code, text);
    assert code[..] == code[..front] + code[front..];
  }

  lemma FillIs(s: string)
    requires forall i :: 0 <= i < |s| ==> s[i] == '0'
    ensures s == Fill(|s|)
  {
  }

  lemma PaddedIs(text: string, width: nat)
    requires |text| <= width
    ensures Padded(text, width) == Fill(width - |text|) + text
  {
    assert Fill(0) + text == text;
  }

  method CopyToEnd(code: array<char>, text: string)
    requires |text| <= code.Length
    modifies code
    ensures code[..code.Length - |text|] == old(code[..code.Length - |text|])
    ensures code[code.Length - |text|..] == text
  {
    var start := code.Length - |text|;
    for i := 0 to |text|
      invariant forall k :: 0 <= k < start ==> code[k] == old(code[k])
      invariant forall k :: start <= k < start + i ==> code[k] == text[k - start]
    {
      code[start + i] := text[i];
    }
  }

  /** The decimal digits of the truncated value. */
  method Truncate(d: seq<nat>, digits: nat) returns (text: string)
    requires IsDigest(d) && (digits == 6 || digits == 8)
    ensures |text| <= digits && ClientCode(d, digits) == Padded(text, digits)
  {
    var o := d[19] % 16;
    var value := d[o] % 0x80 * 0x100_0000 + d[o + 1] * 0x1_0000 + d[o + 2] * 0x100 + d[o + 3];
    var modulus := 1_000_000;
    if digits == 8 {
      modulus := 100_000_000;
    }
    Moduli();
    text := Dec(value % modulus);
    DigitsFit(value % modulus, digits);
    hide Dec, Pow10, Padded;
  }

  lemma Moduli()
    ensures Pow10(6) == 1_000_000 && Pow10(8) == 100_000_000
  {
    assert Pow10(4) == 10_000;
  }

  /**
   For every digest the three codes are the same six characters, and they spell the truncated value modulo a
   million.
   */
  lemma ThreeCodesAgree(d: seq<nat>)
    requires IsDigest(d)
    ensures ServiceCode(d) == ClientCode(d, 6)
    ensures |ServiceCode(d)| == 6 && (forall i :: 0 <= i < 6 ==> IsDigit(ServiceCode(d)[i]))
         && Value(ServiceCode(d)) == Word(d, Offset(d)) % 0x8000_0000 % 1_000_000
  {
    SameValue(d);
    Moduli();
    PaddedSpells(ServiceValue(d) % 1_000_000, 6);
  }

  // ---------------------------------------------------------------- counters

  /** The web client counts periods in milliseconds, the servers in whole seconds; the counters agree. */
  lemma CountersAgree(milliseconds: nat)
    ensures milliseconds / 30_000 == milliseconds / 1000 / 30
  {
    var q, r := milliseconds / 30_000, milliseconds % 30_000;
    assert milliseconds / 1000 == q * 30 + r / 1000;
  }

  /**
   The window of `verifyTOTPCode` moves the clock by whole periods; its candidates are the counters around
   the current one that are not negative, which are those of the identity service.
   */
  lemma WindowsAgree(milliseconds: nat, offset: int)
    requires -1 <= offset <= 1
    ensures milliseconds + offset * 30_000 >= 0 <==> milliseconds / 1000 / 30 + offset >= 0
    ensures milliseconds + offset * 30_000 >= 0 ==>
              (milliseconds + offset * 30_000) / 30_000 == milliseconds / 1000 / 30 + offset
  {
    CountersAgree(milliseconds);
  }

  function Example(): seq<nat> {
    [0x1f, 0x86, 0x98, 0x69, 0x0e, 0x02, 0xca, 0x16, 0x61, 0x85, 0x50, 0xef, 0x7f, 0x19, 0xda, 0x8e, 0x94, 0x5b, 0x55, 0x5a]
  }

  lemma ExampleBytes()
    ensures IsDigest(Example()) && Example()[19] == 0x5a
    ensures Example()[10] == 0x50 && Example()[11] == 0xef && Example()[12] == 0x7f && Example()[13] == 0x19
  {
  }

  /** The worked example of section 5.4 of RFC 4226. */
  lemma {:induction false} Rfc4226Example()
    ensures IsDigest(Example()) && ServiceValue(Example()) == 0x50ef7f19 && ServiceCode(Example()) == "872921"
  {
    ExampleBytes();
    hide Dec, Example, IsDigest;
    PrintsExample();
  }

  lemma PrintsExample()
    ensures Dec(872_921) == "872921"
  {
    DecimalDigits(8);
    DecimalDigits(87);
    DecimalDigits(872);
    DecimalDigits(8_729);
    DecimalDigits(87_292);
    DecimalDigits(872_921);
    hide Dec;
    assert Dec(872_921) == ['8', '7', '2', '9', '2', '1'];
  }
}
