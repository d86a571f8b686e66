/**
 The loops of `generateTOTPSeed` (web/src/auth/SetupPage.tsx) and `decodeBase32` (web/src/auth/totp.ts).
 JavaScript's shifts work on 32-bit words, so the encoder's accumulator wraps around; it is modelled as
 the unsigned value of the word.
 */
module Base32Loops {
  import opened Wrappers
  import opened Arithmetic
  import opened Base32

  const ALPHABET := "ABCDEFGHIJKLMNOPQRSTUVWXYZ234567"

  function Text(groups: seq<nat>): string
    requires AreGroups(groups)
  {
    seq(|groups|, i requires 0 <= i < |groups| => ALPHABET[groups[i]])
  }

  /** `alphabet.indexOf` */
  function IndexOf(c: char): (i: int)
    ensures -1 <= i < 32 && (i >= 0 ==> ALPHABET[i] == c)
  {
    if 'A' <= c <= 'Z' then c as int - 'A' as int else if '2' <= c <= '7' then c as int - '2' as int + 26 else -1
  }

  lemma IndexOfLetter(g: nat)
    requires g < 32
    ensures IndexOf(ALPHABET[g]) == g
  {
  }

  predicate IsBase32(s: string) {
    s != "" && forall i :: 0 <= i < |s| ==> IndexOf(s[i]) >= 0
  }

  function Values(s: string): (groups: seq<nat>)
    requires forall i :: 0 <= i < |s| ==> IndexOf(s[i]) >= 0
    ensures AreGroups(groups)
  {
    seq(|s|, i requires 0 <= i < |s| => IndexOf(s[i]))
  }

  // ------------------------------------------------------- machine arithmetic

  lemma Powers()
    ensures Pow2(0) == 1 && Pow2(1) == 2 && Pow2(2) == 4 && Pow2(3) == 8 && Pow2(4) == 16 && Pow2(5) == 32 && Pow2(6) == 64
    ensures Pow2(7) == 128 && Pow2(8) == 256 && Pow2(9) == 512 && Pow2(10) == 1024 && Pow2(11) == 2048 && Pow2(12) == 4096
  {
    assert Pow2(4) == 16;
    assert Pow2(8) == 256;
  }

  lemma Wrap(value: nat)
    ensures value * 256 % WORD == 256 * (value % 0x100_0000)
  {
    var q, r := value / 0x100_0000, value % 0x100_0000;
    assert value * 256 == q * WORD + 256 * r;
  }

  lemma ModOfMod(value: nat, bits: nat)
    requires bits <= 4
    ensures value % 0x100_0000 % Pow2(bits) == value % Pow2(bits)
  {
    Powers();
    var q, x := value / 0x100_0000, value % 0x100_0000;
    if bits == 1 {
      Division(q * 0x80_0000 + x / 2, 2, x % 2);
    } else if bits == 2 {
      Division(q * 0x40_0000 + x / 4, 4, x % 4);
    } else if bits == 3 {
      Division(q * 0x20_0000 + x / 8, 8, x % 8);
    } else if bits == 4 {
      Division(q * 0x10_0000 + x / 16, 16, x % 16);
    }
  }

  lemma ByteBelow(x: nat, bits: nat, byte: nat)
    requires bits <= 4 && byte < 256
    ensures (256 * x + byte) % Pow2(bits + 8) == 256 * (x % Pow2(bits)) + byte
  {
    Powers();
    hide Pow2;
    if bits == 0 {
      Division(x, 256, byte);
    } else if bits == 1 {
      Division(x / 2, 512, 256 * (x % 2) + byte);
    } else if bits == 2 {
      Division(x / 4, 1024, 256 * (x % 4) + byte);
    } else if bits == 3 {
      Division(x / 8, 2048, 256 * (x % 8) + byte);
    } else {
      Division(x / 16, 4096, 256 * (x % 16) + byte);
    }
  }

  /** Shifting a byte in: only the low bits count, so the wrap-around is harmless. */
  lemma ShiftIn(value: nat, bits: nat, byte: nat, pending: nat)
    requires bits <= 4 && byte < 256 && value < WORD && value % Pow2(bits) == pending
    ensures (value * 256 % WORD + byte) % Pow2(bits + 8) == pending * 256 + byte
    ensures value * 256 % WORD + byte < WORD
  {
    Wrap(value);
    ModOfMod(value, bits);
    hide Pow2;
    ByteBelow(value % 0x100_0000, bits, byte);
  }

  /** Taking the top five pending bits. */
  lemma TakeFive(value: nat, bits: nat, top: nat, low: nat)
    requires 5 <= bits <= 12 && top < 32 && low < Pow2(bits - 5) && value % Pow2(bits) == top * Pow2(bits - 5) + low
    ensures value / Pow2(bits - 5) % 32 == top && value % Pow2(bits - 5) == low
  {
    var m := Pow2(bits - 5);
    assert Pow2(bits) == 32 * m by {
      assert Pow2(bits) == 2 * Pow2(bits - 1) && Pow2(bits - 1) == 2 * Pow2(bits - 2) && Pow2(bits - 2) == 2 * Pow2(bits - 3);
      assert Pow2(bits - 3) == 2 * Pow2(bits - 4) && Pow2(bits - 4) == 2 * Pow2(bits - 5);
    }
    hide Pow2;
    var q := Euclid(value, Pow2(bits));
    TakeTop(value, q, m, top, low);
  }

  lemma TakeTop(n: nat, q: nat, m: nat, top: nat, low: nat)
    requires top < 32 && low < m && n == q * (32 * m) + (top * m + low)
    ensures n / m % 32 == top && n % m == low
  {
    Regroup(q, m, top, low);
    Division(q * 32 + top, m, low);
    Division(q, 32, top);
  }

  lemma Regroup(q: nat, m: nat, top: nat, low: nat)
    ensures q * (32 * m) + (top * m + low) == (q * 32 + top) * m + low
  {
    assert q * (32 * m) == q * 32 * m;
  }

  /** Filling the last group up with zeros. */
  lemma FillUp(value: nat, bits: nat, pending: nat)
    requires 1 <= bits <= 4 && value % Pow2(bits) == pending
    ensures value * Pow2(5 - bits) % WORD % 32 == pending * Pow2(5 - bits)
  {
    Powers();
    hide Pow2;
    WrapKeepsFive(value * Pow2(5 - bits));
    if bits == 1 {
      ScaleUp(value, 2, 16, pending);
    } else if bits == 2 {
      ScaleUp(value, 4, 8, pending);
    } else if bits == 3 {
      ScaleUp(value, 8, 4, pending);
    } else {
      ScaleUp(value, 16, 2, pending);
    }
  }

  lemma ScaleUp(value: nat, q: nat, p: nat, pending: nat)
    requires (q, p) in {(2, 16), (4, 8), (8, 4), (16, 2)} && value % q == pending
    ensures value * p % 32 == pending * p
  {
    Division(value / q, 32, pending * p);
  }

  lemma WrapKeepsFive(v: nat)
    ensures v % WORD % 32 == v % 32
  {
    var q, x := v / WORD, v % WORD;
    Division(q * 0x800_0000 + x / 32, 32, x % 32);
  }

  // ---------------------------------------------------------------- encoding

  lemma LastByte(bytes: seq<nat>, i: nat)
    requires i < |bytes|
    ensures BitsOf(bytes[..i + 1]) == BitsOf(bytes[..i]) + Spell(bytes[i], 8)
  {
    assert bytes[..i + 1][..i] == bytes[..i];
  }

  /** The pending bits after a byte is shifted in. */
  lemma PendingByte(value: nat, pending: Bits, byte: nat)
    requires |pending| <= 4 && byte < 256 && value < WORD && value % Pow2(|pending|) == Num(pending)
    ensures var value' := value * 256 % WORD + byte;
            value' < WORD && value' % Pow2(|pending| + 8) == Num(pending + Spell(byte, 8))
  {
    Powers();
    ShiftIn(value, |pending|, byte, Num(pending));
    NumOfSum(pending, Spell(byte, 8));
    NumOfSpell(byte, 8);
  }

  /** The letter taken from the pending bits, and the bits that stay pending. */
  lemma NextLetter(value: nat, pending: Bits)
    requires 5 <= |pending| <= 12 && value % Pow2(|pending|) == Num(pending)
    ensures value / Pow2(|pending| - 5) % 32 == Num(pending[..5])
    ensures value % Pow2(|pending| - 5) == Num(pending[5..])
  {
    assert pending == pending[..5] + pending[5..];
    NumOfSum(pending[..5], pending[5..]);
    Powers();
    hide Num;
    TakeFive(value, |pending|, Num(pending[..5]), Num(pending[5..]));
  }

  /** One group moves from the pending bits to the letters. */
  lemma OneMoreGroup(done: Bits, pending: Bits)
    requires |done| % 5 == 0 && |pending| >= 5
    ensures Groups(done + pending[..5]) == Groups(done) + [Num(pending[..5])]
    ensures done + pending[..5] + pending[5..] == done + pending && |done + pending[..5]| % 5 == 0
    ensures Num(pending[..5]) < 32
  {
    Powers();
    GroupsTogether(done, pending[..5]);
    GroupsStep(pending[..5]);
    assert pending[..5][..5] == pending[..5] && pending[..5][5..] == [];
    assert [Num(pending[..5])] + Groups([]) == [Num(pending[..5])];
    hide Groups, Num;
  }

  lemma LastGroupFilled(done: Bits, pending: Bits)
    requires |done| % 5 == 0 && |pending| < 5
    ensures Groups(done + pending) == Groups(done) + Groups(pending)
    ensures pending == [] ==> Groups(pending) == []
    ensures pending != [] ==> Groups(pending) == [Num(pending) * Pow2(5 - |pending|)]
  {
    GroupsTogether(done, pending);
    if pending != [] {
      var pad := Zeros(5 - |pending|);
      NumOfSum(pending, pad);
      NumOfZeros(5 - |pending|);
    }
  }

  lemma {:induction false} NumOfZeros(n: nat)
    ensures Num(Zeros(n)) == 0
  {
    if n > 0 {
      assert Zeros(n)[..n - 1] == Zeros(n - 1);
      NumOfZeros(n - 1);
    }
  }

  /** `generateTOTPSeed`, on any bytes. */
  method GenerateSeed(bytes: seq<nat>) returns (result: string)
    requires AreBytes(bytes)
    ensures AreGroups(Encoded(bytes)) && result == Text(Encoded(bytes))
  {
    hide Pow2, Num, Groups, BitsOf, Spell, Zeros;
    var bits, value: nat := 0, 0;
    result := "";
    ghost var groups: seq<nat>, done: Bits, pending: Bits := [], [], [];
    Nothing();
    assert bytes[..0] == [];
    for i := 0 to |bytes|
      invariant bits == |pending| <= 4 && value < WORD && value % Pow2(bits) == Num(pending)
      invariant done + pending == BitsOf(bytes[..i]) && |done| % 5 == 0
      invariant groups == Groups(done) && AreGroups(groups) && result == Text(groups)
    {
      PendingByte(value, pending, bytes[i]);
      LastByte(bytes, i);
      assert done + (pending + Spell(bytes[i], 8)) == done + pending + Spell(bytes[i], 8);
      value := value * 256 % WORD + bytes[i];
      bits := bits + 8;
      pending := pending + Spell(bytes[i], 8);
      while bits >= 5
        invariant bits == |pending| <= 12 && value < WORD && value % Pow2(bits) == Num(pending)
        invariant done + pending == BitsOf(bytes[..i + 1]) && |done| % 5 == 0
        invariant groups == Groups(done) && AreGroups(groups) && result == Text(groups)
      {
        NextLetter(value, pending);
        OneMoreGroup(done, pending);
        result := result + [ALPHABET[value / Pow2(bits - 5) % 32]];
        bits := bits - 5;
        groups, done, pending := groups + [Num(pending[..5])], done + pending[..5], pending[5..];
      }
    }
    assert bytes[..|bytes|] == bytes;
    LastGroupFilled(done, pending);
    GroupsSpellBits(BitsOf(bytes));
    if bits > 0 {
      FillUp(value, bits, Num(pending));
      result := result + [ALPHABET[value * Pow2(5 - bits) % WORD % 32]];
    }
  }

  lemma Nothing()
    ensures Num([]) == 0 && Pow2(0) == 1 && Groups([]) == [] && BitsOf([]) == []
  {
  }

  // ---------------------------------------------------------------- decoding

  /** The decoder on text: the empty string and foreign characters are refused. */
  function DecodeText(s: string): Option<seq<nat>> {
    if IsBase32(s) then Decoded(Values(s)) else None
  }

  /** The pending bits after a letter is shifted in; nothing wraps, the buffer is masked each time. */
  lemma PendingLetter(buffer: nat, pending: Bits, g: nat)
    requires |pending| < 8 && g < 32 && buffer == Num(pending)
    ensures buffer * 32 + g == Num(pending + Spell(g, 5))
  {
    Powers();
    NumOfSum(pending, Spell(g, 5));
    NumOfSpell(g, 5);
  }

  /** The byte taken from the pending bits, and the bits that stay pending. */
  lemma NextByte(buffer: nat, pending: Bits)
    requires 8 <= |pending| <= 12 && buffer == Num(pending)
    ensures buffer / Pow2(|pending| - 8) % 256 == Num(pending[..8]) && buffer % Pow2(|pending| - 8) == Num(pending[8..])
  {
    Powers();
    hide Num, Pow2;
    var top, low := pending[..8], pending[8..];
    assert pending == top + low;
    NumOfSum(top, low);
    Division(Num(top), Pow2(|low|), Num(low));
  }

  lemma OneByte(b: Bits)
    requires |b| == 8
    ensures Bytes(b) == [Num(b)]
  {
    hide Num;
    assert b[..8] == b && b[8..] == [];
  }

  lemma OneMoreByte(done: Bits, pending: Bits)
    requires |done| % 8 == 0 && |pending| >= 8
    ensures Bytes(done + pending[..8]) == Bytes(done) + [Num(pending[..8])]
    ensures done + pending[..8] + pending[8..] == done + pending && |done + pending[..8]| % 8 == 0
  {
    hide Bytes, Num;
    var head := pending[..8];
    BytesTogether(done, head);
    OneByte(head);
    assert head + pending[8..] == pending;
    assert done + head + pending[8..] == done + (head + pending[8..]);
  }

  lemma LastLetter(groups: seq<nat>, i: nat)
    requires i < |groups|
    ensures BitsOfGroups(groups[..i + 1]) == BitsOfGroups(groups[..i]) + Spell(groups[i], 5)
  {
    assert groups[..i + 1][..i] == groups[..i];
  }

  lemma {:induction false} ZeroSpellsZeros(b: Bits)
    ensures Num(b) == 0 <==> b == Zeros(|b|)
  {
    if b != [] {
      ZeroSpellsZeros(b[..|b| - 1]);
      assert b == b[..|b| - 1] + [b[|b| - 1]];
      assert Zeros(|b|) == Zeros(|b| - 1) + [false];
    }
  }

  /** `decodeBase32`, on text already trimmed, in upper case and without padding. */
  method DecodeBase32(normalized: string) returns (output: Option<seq<nat>>)
    ensures output == DecodeText(normalized)
  {
    hide Pow2, Num, Bytes, BitsOfGroups, Spell, Zeros;
    if !IsBase32(normalized) {
      return None;
    }
    ghost var groups := Values(normalized);
    var bytes: seq<nat> := [];
    var buffer, bits: nat := 0, 0;
    ghost var done: Bits, pending: Bits := [], [];
    NothingDecoded();
    assert groups[..0] == [];
    for i := 0 to |normalized|
      invariant bits == |pending| < 8 && buffer == Num(pending)
      invariant done + pending == BitsOfGroups(groups[..i]) && |done| % 8 == 0 && bytes == Bytes(done)
    {
      var g := IndexOf(normalized[i]);
      PendingLetter(buffer, pending, g);
      LastLetter(groups, i);
      assert done + (pending + Spell(g, 5)) == done + pending + Spell(g, 5);
      buffer := buffer * 32 + g;
      bits := bits + 5;
      pending := pending + Spell(g, 5);
      if bits >= 8 {
        bits := bits - 8;
        NextByte(buffer, pending);
        OneMoreByte(done, pending);
        bytes := bytes + [buffer / Pow2(bits) % 256];
        buffer := if bits == 0 then 0 else buffer % Pow2(bits);
        done, pending := done + pending[..8], pending[8..];
      }
    }
    assert groups[..|normalized|] == groups;
    ZeroSpellsZeros(pending);
    RestIsPending(groups, done, pending);
    if bits > 0 && buffer != 0 {
      return None;
    }
    return Some(bytes);
  }

  lemma NothingDecoded()
    ensures Num([]) == 0 && Bytes([]) == [] && BitsOfGroups([]) == []
  {
  }

  /** What is pending at the end decides whether the text is accepted. */
  lemma RestIsPending(groups: seq<nat>, done: Bits, pending: Bits)
    requires groups != [] && BitsOfGroups(groups) == done + pending && |done| % 8 == 0 && |pending| < 8
    ensures Decoded(groups) == if pending == Zeros(|pending|) then Some(Bytes(done)) else None
  {
    WholePlusRest(|done|, |pending|);
    hide Bytes, BitsOfGroups;
    assert (done + pending)[|done|..] == pending;
    if pending == Zeros(|pending|) {
      DecodedBits(groups, done, |pending|);
    }
  }

  /**
   Any nonempty byte string survives: the text the encoder writes, wrap-around and all, decodes to the bytes
   it was made from.
   */
  lemma SeedComesBack(bytes: seq<nat>)
    requires AreBytes(bytes) && bytes != []
    ensures AreGroups(Encoded(bytes)) && DecodeText(Text(Encoded(bytes))) == Some(bytes)
  {
    GroupsSpellBits(BitsOf(bytes));
    DecodeAfterEncode(bytes);
    var groups := Encoded(bytes);
    hide Groups, Encoded, Decoded;
    TextIsRead(groups);
  }

  lemma TextIsRead(groups: seq<nat>)
    requires AreGroups(groups)
    ensures forall i :: 0 <= i < |groups| ==> IndexOf(Text(groups)[i]) == groups[i]
    ensures groups != [] ==> IsBase32(Text(groups)) && Values(Text(groups)) == groups
  {
    forall i | 0 <= i < |groups|
      ensures IndexOf(Text(groups)[i]) == groups[i]
    {
      IndexOfLetter(groups[i]);
    }
    if groups != [] {
      assert Values(Text(groups)) == groups;
    }
  }

  // ------------------------------------------ text no encoder would have written

  lemma {:induction false} BitsOfZeros(n: nat)
    ensures BitsOfGroups(seq(n, i => 0)) == Zeros(5 * n)
  {
    if n > 0 {
      var groups := seq(n, i => 0);
      assert groups[..n - 1] == seq(n - 1, i => 0);
      BitsOfZeros(n - 1);
      assert Spell(0, 5) == Zeros(5) by {
        assert Spell(0, 2) == [false, false];
        assert Spell(0, 4) == [false, false, false, false];
      }
    }
  }

  /**
   `n` times "A" is accepted for every positive `n`; for 1, 3 and 6 letters, and whole groups of eight more,
   encoding what was decoded does not give it back.
   */
  lemma ForeignLengthsAreAccepted(n: nat)
    requires n > 0
    ensures var groups := seq(n, i => 0);
            && AreGroups(groups) && Decoded(groups).Some? && DecodeText(Text(groups)) == Decoded(groups)
            && (n % 8 in {1, 3, 6} ==> Encoded(Decoded(groups).value) != groups)
  {
    var groups := seq(n, i => 0);
    var rest := 5 * n % 8;
    BitsOfZeros(n);
    assert Zeros(5 * n) == Zeros(5 * n - rest) + Zeros(rest);
    DecodedBits(groups, Zeros(5 * n - rest), rest);
    TextIsRead(groups);
    EncodeAfterDecode(groups);
    hide Decoded, Encoded;
  }

  /** "A" decodes to nothing at all, which is encoded as the empty text. */
  lemma OneLetterIsAccepted()
    ensures DecodeText("A") == Some([]) && Text(Encoded([])) == ""
  {
    BitsOfZeros(1);
    assert Text(seq(1, i => 0)) == "A";
    ForeignLengthsAreAccepted(1);
    assert Zeros(5)[5 - 5..] == Zeros(5);
  }

  // ------------------------------------------------------------- the standard

  /** The alphabet of section 6 of RFC 4648. */
  lemma AlphabetIs(i: nat)
    requires i < 32
    ensures ALPHABET[i] as int == if i < 26 then 'A' as int + i else '2' as int + (i - 26)
  {
  }
}
