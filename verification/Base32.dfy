/**
 Base32 as the web client writes and reads it (web/src/auth/SetupPage.tsx, web/src/auth/totp.ts; section 6
 of RFC 4648): two loops over a bit buffer, and the bit strings they stand for.
 */
module Base32 {
  import opened Wrappers
  import Arithmetic

  type Bits = seq<bool>

  const WORD: int := 0x1_0000_0000

  function Pow2(n: nat): (p: nat)
    ensures p >= 1
  {
    if n == 0 then 1 else 2 * Pow2(n - 1)
  }

  /** The number that bits spell, first bit first. */
  function Num(b: Bits): (n: nat)
    ensures n < Pow2(|b|)
  {
    if b == [] then 0 else 2 * Num(b[..|b| - 1]) + (if b[|b| - 1] then 1 else 0)
  }

  /** `n` bits of a number. */
  function Spell(v: nat, n: nat): (b: Bits)
    ensures |b| == n
  {
    if n == 0 then [] else Spell(v / 2, n - 1) + [v % 2 == 1]
  }

  lemma {:induction false} NumOfSpell(v: nat, n: nat)
    requires v < Pow2(n)
    ensures Num(Spell(v, n)) == v
  {
    if n > 0 {
      NumOfSpell(v / 2, n - 1);
      assert Spell(v, n)[..n - 1] == Spell(v / 2, n - 1);
    }
  }

  lemma {:induction false} SpellOfNum(b: Bits)
    ensures Spell(Num(b), |b|) == b
  {
    if b != [] {
      SpellOfNum(b[..|b| - 1]);
      assert b == b[..|b| - 1] + [b[|b| - 1]];
    }
  }

  lemma NumNext(b: Bits, x: bool)
    ensures Num(b + [x]) == 2 * Num(b) + (if x then 1 else 0)
  {
    assert (b + [x])[..|b|] == b;
  }

  lemma {:induction false} NumOfSum(a: Bits, b: Bits)
    ensures Num(a + b) == Num(a) * Pow2(|b|) + Num(b)
  {
    hide Num;
    if b == [] {
      assert a + b == a;
      NumOfNothing();
    } else {
      var c, x := b[..|b| - 1], b[|b| - 1];
      assert b == c + [x] && a + b == (a + c) + [x];
      NumOfSum(a, c);
      NumNext(a + c, x);
      NumNext(c, x);
      Twice(Num(a), Pow2(|c|));
    }
  }

  lemma NumOfNothing()
    ensures Num([]) == 0
  {
  }

  lemma Twice(n: int, p: int)
    ensures 2 * (n * p) == n * (2 * p)
  {
  }

  /** All bits of a byte string. */
  function BitsOf(bytes: seq<nat>): (b: Bits)
    ensures |b| == 8 * |bytes|
  {
    if bytes == [] then [] else BitsOf(bytes[..|bytes| - 1]) + Spell(bytes[|bytes| - 1], 8)
  }

  /** The 5-bit groups of a bit string, as numbers; a short last group is filled up with zeros. */
  function Groups(b: Bits): seq<nat> {
    if b == [] then []
    else if |b| < 5 then [Num(b + Zeros(5 - |b|))]
    else [Num(b[..5])] + Groups(b[5..])
  }

  function Zeros(n: nat): Bits {
    seq(n, i => false)
  }

  function BitsOfGroups(groups: seq<nat>): (b: Bits)
    ensures |b| == 5 * |groups|
  {
    if groups == [] then [] else BitsOfGroups(groups[..|groups| - 1]) + Spell(groups[|groups| - 1], 5)
  }

  // ---------------------------------------------------------------- regrouping

  lemma SumSlices(a: Bits, b: Bits, n: nat)
    requires n <= |a|
    ensures (a + b)[..n] == a[..n] && (a + b)[n..] == a[n..] + b
  {
  }

  lemma GroupsStep(b: Bits)
    requires |b| >= 5
    ensures Groups(b) == [Num(b[..5])] + Groups(b[5..]) && |b[5..]| % 5 == |b| % 5
  {
    hide Num;
    OneLess(|b|, 5);
  }

  lemma OneLess(n: nat, m: nat)
    requires 0 < m <= n
    ensures (n - m) % m == n % m
  {
    Arithmetic.Multiples(1, n - m, m);
    assert 1 * m + (n - m) == n;
  }

  lemma {:induction false} GroupsTogether(a: Bits, b: Bits)
    requires |a| % 5 == 0
    ensures Groups(a + b) == Groups(a) + Groups(b)
  {
    if a == [] {
      assert a + b == b;
    } else {
      GroupsStep(a);
      GroupsStep(a + b);
      SumSlices(a, b, 5);
      hide Groups, Num;
      GroupsTogether(a[5..], b);
    }
  }

  lemma {:induction false} BitsOfGroupsTogether(a: seq<nat>, b: seq<nat>)
    ensures BitsOfGroups(a + b) == BitsOfGroups(a) + BitsOfGroups(b)
  {
    if b == [] {
      assert a + b == a;
    } else {
      var c := b[..|b| - 1];
      assert (a + b)[..|a + b| - 1] == a + c;
      BitsOfGroupsTogether(a, c);
    }
  }

  /** How many zeros fill up the last group. */
  function Gap(n: nat): nat {
    (5 - n % 5) % 5
  }

  lemma GapStep(n: nat)
    requires n >= 5
    ensures Gap(n - 5) == Gap(n)
  {
    OneLess(n, 5);
  }

  /** Five-bit groups spell the bits they were cut from, filled up with zeros. */
  lemma {:induction false} GroupsSpellBits(b: Bits)
    ensures BitsOfGroups(Groups(b)) == b + Zeros(Gap(|b|))
    ensures AreGroups(Groups(b))
  {
    if 0 < |b| < 5 {
      var f := b + Zeros(5 - |b|);
      assert Groups(b) == [Num(f)];
      OneGroup(f);
    } else if |b| >= 5 {
      GroupsStep(b);
      GapStep(|b|);
      hide BitsOfGroups, Num, Groups, Zeros, Gap;
      var head, tail := b[..5], b[5..];
      assert b == head + tail;
      GroupsSpellBits(tail);
      OneGroup(head);
      BitsOfGroupsTogether([Num(head)], Groups(tail));
      Regrouped(b, head, tail, Zeros(Gap(|b|)));
    }
  }

  lemma Regrouped(b: Bits, head: Bits, tail: Bits, pad: Bits)
    requires b == head + tail
    ensures head + (tail + pad) == b + pad
  {
  }

  lemma OneGroup(b: Bits)
    requires |b| == 5
    ensures BitsOfGroups([Num(b)]) == b && Num(b) < 32
  {
    assert Pow2(5) == 32;
    SpellOfNum(b);
    assert BitsOfGroups([Num(b)]) == BitsOfGroups([]) + Spell(Num(b), 5);
  }

  /** The whole bytes of a bit string. */
  function Bytes(b: Bits): seq<nat> {
    if |b| < 8 then [] else [Num(b[..8])] + Bytes(b[8..])
  }

  lemma BytesStep(b: Bits)
    requires |b| >= 8
    ensures Bytes(b) == [Num(b[..8])] + Bytes(b[8..]) && |b[8..]| % 8 == |b| % 8
  {
    hide Num;
    OneLess(|b|, 8);
  }

  lemma {:induction false} BytesTogether(a: Bits, b: Bits)
    requires |a| % 8 == 0
    ensures Bytes(a + b) == Bytes(a) + Bytes(b)
  {
    if a == [] {
      assert a + b == b;
    } else {
      BytesStep(a);
      BytesStep(a + b);
      SumSlices(a, b, 8);
      hide Bytes, Num;
      BytesTogether(a[8..], b);
    }
  }

  predicate AreGroups(groups: seq<nat>) {
    forall i :: 0 <= i < |groups| ==> groups[i] < 32
  }

  predicate AreBytes(bytes: seq<nat>) {
    forall i :: 0 <= i < |bytes| ==> bytes[i] < 256
  }

  lemma {:induction false} BytesOfBits(bytes: seq<nat>)
    requires AreBytes(bytes)
    ensures Bytes(BitsOf(bytes)) == bytes
  {
    if bytes != [] {
      var init, last := bytes[..|bytes| - 1], bytes[|bytes| - 1];
      BytesOfBits(init);
      BytesTogether(BitsOf(init), Spell(last, 8));
      assert Pow2(8) == 256;
      NumOfSpell(last, 8);
      assert Spell(last, 8)[..8] == Spell(last, 8) && Spell(last, 8)[8..] == [];
      assert bytes == init + [last];
    }
  }

  lemma {:induction false} BitsOfBytes(b: Bits)
    requires |b| % 8 == 0
    ensures BitsOf(Bytes(b)) == b && AreBytes(Bytes(b))
  {
    if b != [] {
      BytesStep(b);
      var head, tail := b[..8], b[8..];
      BitsOfBytes(tail);
      WholeByte(head);
      BitsOfTogether([Num(head)], Bytes(tail));
      hide Bytes, BitsOf, Num;
      assert b == head + tail;
    }
  }

  lemma WholeByte(b: Bits)
    requires |b| == 8
    ensures BitsOf([Num(b)]) == b && Num(b) < 256
  {
    assert Pow2(8) == 256;
    SpellOfNum(b);
    assert BitsOf([Num(b)]) == BitsOf([]) + Spell(Num(b), 8);
  }

  lemma {:induction false} BitsOfTogether(a: seq<nat>, b: seq<nat>)
    ensures BitsOf(a + b) == BitsOf(a) + BitsOf(b)
  {
    if b == [] {
      assert a + b == a;
    } else {
      var c := b[..|b| - 1];
      assert (a + b)[..|a + b| - 1] == a + c;
      BitsOfTogether(a, c);
    }
  }

  // ------------------------------------------------------- the two algorithms

  /** What the encoder writes, as group numbers. */
  function Encoded(bytes: seq<nat>): seq<nat> {
    Groups(BitsOf(bytes))
  }

  /** What the decoder makes of group numbers: whole bytes, unless the bits left over are not all zero. */
  function Decoded(groups: seq<nat>): Option<seq<nat>> {
    var b := BitsOfGroups(groups);
    if groups == [] || b[|b| - |b| % 8..] != Zeros(|b| % 8) then None else Some(Bytes(b))
  }

  lemma WholePlusRest(w: nat, r: nat)
    requires w % 8 == 0 && r < 8
    ensures (w + r) % 8 == r
  {
  }

  /** Whole bytes and up to seven zero bits decode to the bytes. */
  lemma DecodedBits(groups: seq<nat>, whole: Bits, rest: nat)
    requires groups != [] && BitsOfGroups(groups) == whole + Zeros(rest) && |whole| % 8 == 0 && rest < 8
    ensures Decoded(groups) == Some(Bytes(whole))
  {
    WholePlusRest(|whole|, rest);
    BytesTogether(whole, Zeros(rest));
    FewBits(rest);
    hide Bytes, BitsOfGroups, Zeros;
    assert (whole + Zeros(rest))[|whole|..] == Zeros(rest);
    assert Bytes(whole) + [] == Bytes(whole);
  }

  lemma FewBits(n: nat)
    requires n < 8
    ensures Bytes(Zeros(n)) == []
  {
  }

  /** Decoding an encoding gives back any nonempty byte string. */
  lemma {:induction false} DecodeAfterEncode(bytes: seq<nat>)
    requires AreBytes(bytes)
    ensures Decoded(Encoded(bytes)) == if bytes == [] then None else Some(bytes)
  {
    if bytes == [] {
      assert Encoded(bytes) == [];
    } else {
      var all := BitsOf(bytes);
      GroupsSpellBits(all);
      GroupsStep(all);
      BytesOfBits(bytes);
      hide BitsOf, Num, Groups, BitsOfGroups, Bytes, Zeros, Decoded;
      EightTimes(|bytes|);
      DecodedBits(Groups(all), all, (5 - |all| % 5) % 5);
    }
  }

  lemma EightTimes(n: nat)
    ensures 8 * n % 8 == 0
  {
  }

  /**
   The decoder accepts more than the encoder writes: encoding what it decoded gives the text back exactly
   when the text's length modulo 8 is none of 1, 3 and 6, the lengths no encoding has.
   */
  lemma {:induction false} EncodeAfterDecode(groups: seq<nat>)
    requires Decoded(groups).Some? && AreGroups(groups)
    ensures Encoded(Decoded(groups).value) == groups <==> |groups| % 8 !in {1, 3, 6}
  {
    var whole, rest := DecodedParts(groups);
    WholeIsEncoded(whole);
    hide Decoded, Encoded, BitsOfGroups, Groups, Bytes, Gap, Zeros, AreGroups;
    RestIsPad(|groups|, rest, Gap(|whole|));
    if rest == Gap(|whole|) {
      GroupsAreSpelled(Groups(whole), groups);
    } else {
      SizesDiffer(Groups(whole), groups, whole, Gap(|whole|), rest);
    }
  }

  /** The whole bytes of accepted text, and how many zero bits are left over. */
  lemma DecodedParts(groups: seq<nat>) returns (whole: Bits, rest: nat)
    requires Decoded(groups).Some?
    ensures BitsOfGroups(groups) == whole + Zeros(rest) && |whole| % 8 == 0 && |whole| == 5 * |groups| - rest
    ensures rest == 5 * |groups| % 8 && Decoded(groups) == Some(Bytes(whole))
  {
    var b := BitsOfGroups(groups);
    rest := |b| % 8;
    whole := b[..|b| - rest];
    WholeBytes(|b|);
    hide BitsOfGroups, Num, Bytes;
    assert b == whole + Zeros(rest);
    hide Zeros;
    DecodedBits(groups, whole, rest);
  }

  lemma WholeIsEncoded(whole: Bits)
    requires |whole| % 8 == 0
    ensures Encoded(Bytes(whole)) == Groups(whole)
    ensures BitsOfGroups(Groups(whole)) == whole + Zeros(Gap(|whole|)) && AreGroups(Groups(whole))
  {
    BitsOfBytes(whole);
    GroupsSpellBits(whole);
  }

  lemma WholeBytes(n: nat)
    ensures (n - n % 8) % 8 == 0
  {
  }

  lemma SizesDiffer(a: seq<nat>, b: seq<nat>, whole: Bits, pad: nat, rest: nat)
    requires BitsOfGroups(a) == whole + Zeros(pad) && BitsOfGroups(b) == whole + Zeros(rest) && pad != rest
    ensures a != b
  {
    assert |whole + Zeros(pad)| != |whole + Zeros(rest)|;
  }

  lemma RestIsPad(n: nat, rest: nat, pad: nat)
    requires rest == 5 * n % 8 && rest <= 5 * n && pad == Gap(5 * n - rest)
    ensures rest == pad <==> n % 8 !in {1, 3, 6}
  {
    PadIsRest(n, rest);
    RestOfEight(n, rest);
    hide Gap;
  }

  /** What is left of `n` groups of five depends on `n` modulo eight alone. */
  lemma RestOfEight(n: nat, rest: nat)
    requires rest == 5 * n % 8
    ensures rest == 5 * (n % 8) % 8
  {
    var q := n / 8;
    assert 5 * n == 5 * q * 8 + 5 * (n % 8);
    Arithmetic.Multiples(5 * q, 5 * (n % 8), 8);
  }

  lemma PadIsRest(n: nat, rest: nat)
    requires rest < 8 && rest <= 5 * n
    ensures Gap(5 * n - rest) == rest % 5
  {
    if n >= 2 {
      Arithmetic.Multiples(n - 2, 10 - rest, 5);
      assert (n - 2) * 5 + (10 - rest) == 5 * n - rest;
    }
  }

  lemma {:induction false} GroupsAreSpelled(a: seq<nat>, b: seq<nat>)
    requires BitsOfGroups(a) == BitsOfGroups(b) && AreGroups(a) && AreGroups(b)
    ensures a == b
  {
    if a != [] {
      LastGroup(a);
      LastGroup(b);
      hide BitsOfGroups, Spell;
      GroupsAreSpelled(a[..|a| - 1], b[..|b| - 1]);
      assert a == a[..|a| - 1] + [a[|a| - 1]] && b == b[..|b| - 1] + [b[|b| - 1]];
    }
  }

  lemma LastGroup(a: seq<nat>)
    requires a != [] && AreGroups(a)
    ensures var all := BitsOfGroups(a);
            all[..|all| - 5] == BitsOfGroups(a[..|a| - 1]) && Num(all[|all| - 5..]) == a[|a| - 1]
  {
    assert Pow2(5) == 32;
    NumOfSpell(a[|a| - 1], 5);
  }
}
