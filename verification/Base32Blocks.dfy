/** Base32 block by block: five bytes are eight letters (section 6 of RFC 4648). */
module Base32Blocks {
  import opened Arithmetic
  import opened Base32

  /** The first bits of a number are its quotient, the last its remainder. */
  lemma {:induction false} SpelledParts(v: nat, n: nat, m: nat)
    requires m <= n && v < Pow2(n)
    ensures Num(Spell(v, n)[..n - m]) == Quotient(v, Pow2(m)) && Num(Spell(v, n)[n - m..]) == Remainder(v, Pow2(m))
  {
    var b := Spell(v, n);
    NumOfSpell(v, n);
    NumOfSum(b[..n - m], b[n - m..]);
    assert b == b[..n - m] + b[n - m..];
    hide Num, Spell;
    Division(Num(b[..n - m]), Pow2(m), Num(b[n - m..]));
  }

  lemma SmallPowers()
    ensures Pow2(0) == 1 && Pow2(1) == 2 && Pow2(2) == 4 && Pow2(3) == 8 && Pow2(4) == 16 && Pow2(5) == 32 && Pow2(6) == 64
    ensures Pow2(7) == 128 && Pow2(8) == 256
  {
  }

  /** Five bits out of a byte. */
  lemma {:induction false} FiveBits(v: nat, k: nat)
    requires v < 256 && k <= 3
    ensures Num(Spell(v, 8)[k..k + 5]) == Remainder(Quotient(v, Pow2(3 - k)), 32)
  {
    SmallPowers();
    var b := Spell(v, 8);
    SpelledParts(v, 8, 3 - k);
    var top := b[..k + 5];
    SpellOfNum(top);
    SpelledParts(Num(top), k + 5, 5);
    assert top[k..] == b[k..k + 5];
  }

  lemma {:induction false} TwoParts(a: nat, k: nat, b: nat, m: nat)
    requires a < 256 && b < 256 && k <= 8 && m <= 8
    ensures Num(Spell(a, 8)[8 - k..] + Spell(b, 8)[..m]) == Remainder(a, Pow2(k)) * Pow2(m) + Quotient(b, Pow2(8 - m))
  {
    assert Pow2(8) == 256 by { SmallPowers(); }
    hide Num, Spell, Pow2, Remainder, Quotient;
    SpelledParts(a, 8, k);
    SpelledParts(b, 8, 8 - m);
    NumOfSum(Spell(a, 8)[8 - k..], Spell(b, 8)[..m]);
  }

  lemma FirstGroup(a: nat)
    requires a < 256
    ensures Num(Spell(a, 8)[..5]) == a / 8
  {
    SmallPowers();
    SpelledParts(a, 8, 3);
  }

  lemma SecondGroup(a: nat, b: nat)
    requires a < 256 && b < 256
    ensures Num(Spell(a, 8)[5..] + Spell(b, 8)[..2]) == a % 8 * 4 + b / 64
  {
    SmallPowers();
    TwoParts(a, 3, b, 2);
  }

  lemma ThirdGroup(b: nat)
    requires b < 256
    ensures Num(Spell(b, 8)[2..7]) == b / 2 % 32
  {
    SmallPowers();
    FiveBits(b, 2);
  }

  lemma FourthGroup(b: nat, c: nat)
    requires b < 256 && c < 256
    ensures Num(Spell(b, 8)[7..] + Spell(c, 8)[..4]) == b % 2 * 16 + c / 16
  {
    SmallPowers();
    TwoParts(b, 1, c, 4);
  }

  lemma FifthGroup(c: nat, d: nat)
    requires c < 256 && d < 256
    ensures Num(Spell(c, 8)[4..] + Spell(d, 8)[..1]) == c % 16 * 2 + d / 128
  {
    SmallPowers();
    TwoParts(c, 4, d, 1);
  }

  lemma SixthGroup(d: nat)
    requires d < 256
    ensures Num(Spell(d, 8)[1..6]) == d / 4 % 32
  {
    SmallPowers();
    FiveBits(d, 1);
  }

  lemma SeventhGroup(d: nat, e: nat)
    requires d < 256 && e < 256
    ensures Num(Spell(d, 8)[6..] + Spell(e, 8)[..3]) == d % 4 * 8 + e / 32
  {
    SmallPowers();
    TwoParts(d, 2, e, 3);
  }

  lemma EighthGroup(e: nat)
    requires e < 256
    ensures Num(Spell(e, 8)[3..]) == e % 32
  {
    SmallPowers();
    SpelledParts(e, 8, 5);
  }

  /** Five bytes cut into eight groups, most significant bits first (section 6 of RFC 4648). */
  function Block(a: nat, b: nat, c: nat, d: nat, e: nat): seq<nat> {
    [a / 8, a % 8 * 4 + b / 64, b / 2 % 32, b % 2 * 16 + c / 16, c % 16 * 2 + d / 128, d / 4 % 32, d % 4 * 8 + e / 32, e % 32]
  }

  lemma {:induction false} CutsAreBlock(a: nat, b: nat, c: nat, d: nat, e: nat)
    requires a < 256 && b < 256 && c < 256 && d < 256 && e < 256
    ensures var r, s, t, u, v := Spell(a, 8), Spell(b, 8), Spell(c, 8), Spell(d, 8), Spell(e, 8);
            [Num(r[..5]), Num(r[5..] + s[..2]), Num(s[2..7]), Num(s[7..] + t[..4]), Num(t[4..] + u[..1]), Num(u[1..6]),
             Num(u[6..] + v[..3]), Num(v[3..])] == Block(a, b, c, d, e)
  {
    hide Num, Spell;
    FirstGroup(a);
    SecondGroup(a, b);
    ThirdGroup(b);
    FourthGroup(b, c);
    FifthGroup(c, d);
    SixthGroup(d);
    SeventhGroup(d, e);
    EighthGroup(e);
  }

  /** Five bytes are encoded as one block. */
  lemma {:induction false} FiveBytes(b: seq<nat>)
    requires |b| == 5 && AreBytes(b)
    ensures Encoded(b) == Block(b[0], b[1], b[2], b[3], b[4])
  {
    assert b[0] < 256 && b[1] < 256 && b[2] < 256 && b[3] < 256 && b[4] < 256;
    hide Num, Spell, Groups, BitsOf, Block;
    BitsOfFive(b);
    EightGroups(Spell(b[0], 8), Spell(b[1], 8), Spell(b[2], 8), Spell(b[3], 8), Spell(b[4], 8));
    CutsAreBlock(b[0], b[1], b[2], b[3], b[4]);
  }

  lemma {:induction false} BitsOfFive(b: seq<nat>)
    requires |b| == 5
    ensures BitsOf(b) == Spell(b[0], 8) + Spell(b[1], 8) + Spell(b[2], 8) + Spell(b[3], 8) + Spell(b[4], 8)
  {
    hide Spell;
    assert b[..4][..3] == b[..3] && b[..3][..2] == b[..2] && b[..2][..1] == b[..1] && b[..1][..0] == [];
    assert BitsOf(b[..0]) == [];
    assert BitsOf(b[..1]) == Spell(b[0], 8);
    assert BitsOf(b[..2]) == BitsOf(b[..1]) + Spell(b[1], 8);
    assert BitsOf(b[..3]) == BitsOf(b[..2]) + Spell(b[2], 8);
    assert BitsOf(b[..4]) == BitsOf(b[..3]) + Spell(b[3], 8);
  }

  lemma {:induction false} EightGroups(s0: Bits, s1: Bits, s2: Bits, s3: Bits, s4: Bits)
    requires |s0| == 8 && |s1| == 8 && |s2| == 8 && |s3| == 8 && |s4| == 8
    ensures Groups(s0 + s1 + s2 + s3 + s4)
         == [Num(s0[..5]), Num(s0[5..] + s1[..2]), Num(s1[2..7]), Num(s1[7..] + s2[..4]), Num(s2[4..] + s3[..1]), Num(s3[1..6]),
             Num(s3[6..] + s4[..3]), Num(s4[3..])]
  {
    hide Num, Groups;
    var r1, r2, r3 := s1 + (s2 + (s3 + s4)), s2 + (s3 + s4), s3 + s4;
    assert s0 + s1 + s2 + s3 + s4 == s0 + r1;
    CutInside(s0, r1);
    CutAcross(s0[5..], s1, r2);
    CutInside(s1[2..], r2);
    assert s1[2..][..5] == s1[2..7] && s1[2..][5..] == s1[7..];
    CutAcross(s1[7..], s2, r3);
    CutAcross(s2[4..], s3, s4);
    CutInside(s3[1..], s4);
    assert s3[1..][..5] == s3[1..6] && s3[1..][5..] == s3[6..];
    CutAcross(s3[6..], s4, []);
    assert s4 + [] == s4 && s4[3..] + [] == s4[3..];
    CutInside(s4[3..], []);
    assert s4[3..][..5] == s4[3..] && s4[3..][5..] + [] == [];
    NoGroups();
  }

  lemma NoGroups()
    ensures Groups([]) == []
  {
  }

  lemma CutInside(a: Bits, rest: Bits)
    requires |a| >= 5
    ensures Groups(a + rest) == [Num(a[..5])] + Groups(a[5..] + rest)
  {
    GroupsStep(a + rest);
    SumSlices(a, rest, 5);
  }

  lemma CutAcross(a: Bits, b: Bits, rest: Bits)
    requires |a| < 5 <= |a| + |b|
    ensures Groups(a + (b + rest)) == [Num(a + b[..5 - |a|])] + Groups(b[5 - |a|..] + rest)
  {
    assert a + (b + rest) == a + b + rest;
    GroupsStep(a + b + rest);
    SumSlices(a + b, rest, 5);
    assert (a + b)[..5] == a + b[..5 - |a|] && (a + b)[5..] == b[5 - |a|..];
  }

  /** Blocks of five bytes are encoded one after the other. */
  lemma {:induction false} BlockByBlock(a: seq<nat>, b: seq<nat>)
    requires |a| % 5 == 0
    ensures Encoded(a + b) == Encoded(a) + Encoded(b)
  {
    BitsOfTogether(a, b);
    GroupsTogether(BitsOf(a), BitsOf(b));
  }
}
