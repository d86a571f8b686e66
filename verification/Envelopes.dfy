/** Encrypted envelopes as they are stored (internal/cryptobox/envelope_binary.go). */
module Envelopes {
  import opened Wrappers
  import opened Arithmetic

  type Byte = b: int | 0 <= b < 256
  type Bytes = seq<Byte>

  // ---------------------------------------------------------------- integers

  function Pow256(n: nat): (p: nat)
    ensures p >= 1
  {
    if n == 0 then 1 else 256 * Pow256(n - 1)
  }

  /** The low `n` bytes of a number, most significant first: `AppendUint32`, `AppendUint64`. */
  function BigEndian(v: nat, n: nat): (b: Bytes)
    ensures |b| == n
  {
    if n == 0 then [] else BigEndian(v / 256, n - 1) + [v % 256]
  }

  function Unsigned(b: Bytes): (v: nat)
    ensures v < Pow256(|b|)
  {
    if b == [] then 0 else 256 * Unsigned(b[..|b| - 1]) + b[|b| - 1]
  }

  lemma {:induction false} UnsignedOfBigEndian(v: nat, n: nat)
    requires v < Pow256(n)
    ensures Unsigned(BigEndian(v, n)) == v
  {
    if n > 0 {
      UnsignedOfBigEndian(v / 256, n - 1);
      assert BigEndian(v, n)[..n - 1] == BigEndian(v / 256, n - 1);
    }
  }

  lemma {:induction false} BigEndianOfUnsigned(b: Bytes)
    ensures BigEndian(Unsigned(b), |b|) == b
  {
    if b != [] {
      BigEndianOfUnsigned(b[..|b| - 1]);
      assert b == b[..|b| - 1] + [b[|b| - 1]];
    }
  }

  lemma Widths()
    ensures Pow256(4) == 0x1_0000_0000 && Pow256(8) == 0x1_0000_0000_0000_0000
  {
    assert Pow256(4) == 0x1_0000_0000;
    assert Pow256(8) == 256 * Pow256(7) && Pow256(7) == 256 * Pow256(6) && Pow256(6) == 256 * Pow256(5);
  }

  // ------------------------------------------------- length-prefixed segments

  /** A value behind its length in `width` bytes: `appendField` (4) and `appendLengthPrefixed` (8). */
  function Prefixed(value: Bytes, width: nat): (b: Bytes)
    ensures |b| == width + |value|
  {
    BigEndian(|value|, width) + value
  }

  lemma PrefixedIsPrefixFree(a: Bytes, b: Bytes, x: Bytes, y: Bytes, width: nat)
    requires |a| < Pow256(width) && |b| < Pow256(width)
    requires Prefixed(a, width) + x == Prefixed(b, width) + y
    ensures a == b && x == y
  {
    UnsignedOfBigEndian(|a|, width);
    UnsignedOfBigEndian(|b|, width);
    hide Unsigned, BigEndian;
    var s, t := Prefixed(a, width) + x, Prefixed(b, width) + y;
    assert s[..width] == BigEndian(|a|, width) && t[..width] == BigEndian(|b|, width);
    assert s[width..width + |a|] == a && t[width..width + |b|] == b;
    assert s[width + |a|..] == x && t[width + |b|..] == y;
  }

  // ------------------------------------------------------------- stored form

  type Nonce = b: Bytes | |b| == 24 witness seq(24, i => 0)
  type Key = b: Bytes | |b| == 32 witness seq(32, i => 0)

  datatype Envelope = Envelope(ciphertext: Bytes, nonce: Nonce, wrappedDataKey: Bytes, wrapNonce: Nonce)

  /** "OWEN", and the version byte. */
  const HEADER: Bytes := [79, 87, 69, 78, 1]
  const MAX_SIZE := 64 * 1024
  const OVERHEAD := 16

  function Layout(e: Envelope): (b: Bytes)
    ensures |b| == 5 + 4 + |e.ciphertext| + 4 + 24 + 4 + |e.wrappedDataKey| + 4 + 24
  {
    HEADER + Prefixed(e.ciphertext, 4) + Prefixed(e.nonce, 4) + Prefixed(e.wrappedDataKey, 4) + Prefixed(e.wrapNonce, 4)
  }

  predicate Storable(e: Envelope) {
    |e.ciphertext| >= OVERHEAD && |e.wrappedDataKey| == 32 + OVERHEAD && |Layout(e)| <= MAX_SIZE
  }

  method MarshalEnvelope(e: Envelope) returns (r: Option<Bytes>)
    ensures r == if Storable(e) then Some(Layout(e)) else None
  {
    if |e.ciphertext| < OVERHEAD || |e.wrappedDataKey| != 32 + OVERHEAD {
      return None;
    }
    var size := 4 + 1 + 4 + |e.ciphertext| + 4 + |e.nonce| + 4 + |e.wrappedDataKey| + 4 + |e.wrapNonce|;
    if size > MAX_SIZE {
      return None;
    }
    var encoded: Bytes := HEADER;
    encoded := AppendField(encoded, e.ciphertext);
    encoded := AppendField(encoded, e.nonce);
    encoded := AppendField(encoded, e.wrappedDataKey);
    encoded := AppendField(encoded, e.wrapNonce);
    return Some(encoded);
  }

  method AppendField(dst: Bytes, field: Bytes) returns (r: Bytes)
    ensures r == dst + Prefixed(field, 4)
  {
    r := dst + BigEndian(|field| % 0x1_0000_0000, 4);
    LowBytes(|field|, 4);
    Widths();
    r := r + field;
    assert dst + BigEndian(|field|, 4) + field == dst + Prefixed(field, 4);
  }

  /** The cast to 32 bits changes nothing, as only that many are written. */
  lemma {:induction false} LowBytes(v: nat, n: nat)
    ensures BigEndian(v % Pow256(n), n) == BigEndian(v, n)
  {
    if n > 0 {
      var m := Pow256(n - 1);
      LowBytes(v / 256, n - 1);
      DropLast(v, m);
    }
  }

  lemma DropLast(v: nat, m: nat)
    requires m > 0
    ensures v % (256 * m) / 256 == v / 256 % m && v % (256 * m) % 256 == v % 256
  {
    var h, low := v / 256, v % 256;
    var q := Euclid(h, m);
    var k := h % m;
    assert v == 256 * (q * m + k) + low == q * (256 * m) + (256 * k + low);
    Division(q, 256 * m, 256 * k + low);
  }

  /** `readField`: the field at an offset and the offset behind it. */
  function ReadField(encoded: Bytes, offset: int): (r: Option<(Bytes, int)>)
    ensures r.Some? ==> r.value.1 == offset + 4 + |r.value.0| <= |encoded|
  {
    if offset < 0 || |encoded| - offset < 4 then None
    else
      var length := Unsigned(encoded[offset..offset + 4]);
      var start := offset + 4;
      if length > |encoded| - start then None else Some((encoded[start..start + length], start + length))
  }

  /** A field that was written is read back, whatever is around it. */
  lemma FieldIsRead(before: Bytes, field: Bytes, after: Bytes)
    requires |field| < Pow256(4)
    ensures ReadField(before + Prefixed(field, 4) + after, |before|) == Some((field, |before| + 4 + |field|))
  {
    UnsignedOfBigEndian(|field|, 4);
    hide Unsigned, BigEndian, Pow256;
    var all, o := before + Prefixed(field, 4) + after, |before|;
    assert all[o..o + 4] == BigEndian(|field|, 4);
    assert all[o + 4..o + 4 + |field|] == field;
  }

  /** A field that is read stands there as it would be written. */
  lemma ReadIsField(encoded: Bytes, offset: int, field: Bytes, next: int)
    requires ReadField(encoded, offset) == Some((field, next))
    ensures 0 <= offset && next == offset + 4 + |field| <= |encoded|
    ensures encoded[offset..next] == Prefixed(field, 4)
  {
    BigEndianOfUnsigned(encoded[offset..offset + 4]);
    hide Unsigned, BigEndian;
    assert encoded[offset..next] == encoded[offset..offset + 4] + encoded[offset + 4..next];
  }

  ghost predicate ReadsBack(encoded: Bytes, e: Envelope) {
    var n1 := 5 + 4 + |e.ciphertext|;
    var n2 := n1 + 4 + |e.nonce|;
    var n3 := n2 + 4 + |e.wrappedDataKey|;
    && 5 <= |encoded| <= MAX_SIZE && encoded[..5] == HEADER
    && ReadField(encoded, 5) == Some((e.ciphertext, n1))
    && ReadField(encoded, n1) == Some((e.nonce, n2))
    && ReadField(encoded, n2) == Some((e.wrappedDataKey, n3))
    && ReadField(encoded, n3) == Some((e.wrapNonce, |encoded|))
  }

  lemma LayoutReadsBack(e: Envelope)
    requires Storable(e)
    ensures ReadsBack(Layout(e), e)
  {
    Widths();
    hide ReadField, Prefixed, Pow256;
    var f1, f2, f3, f4 := Prefixed(e.ciphertext, 4), Prefixed(e.nonce, 4), Prefixed(e.wrappedDataKey, 4), Prefixed(e.wrapNonce, 4);
    var all := Layout(e);
    FieldIsRead(HEADER, e.ciphertext, f2 + f3 + f4);
    assert all == HEADER + f1 + (f2 + f3 + f4);
    FieldIsRead(HEADER + f1, e.nonce, f3 + f4);
    assert all == HEADER + f1 + f2 + (f3 + f4);
    FieldIsRead(HEADER + f1 + f2, e.wrappedDataKey, f4);
    FieldIsRead(HEADER + f1 + f2 + f3, e.wrapNonce, []);
    assert all == HEADER + f1 + f2 + f3 + f4 + [];
  }

  lemma ReadsBackIsLayout(encoded: Bytes, e: Envelope)
    requires ReadsBack(encoded, e)
    ensures encoded == Layout(e)
    ensures |e.ciphertext| >= OVERHEAD && |e.wrappedDataKey| == 32 + OVERHEAD ==> Storable(e)
  {
    var n1 := 5 + 4 + |e.ciphertext|;
    var n2 := n1 + 4 + |e.nonce|;
    var n3 := n2 + 4 + |e.wrappedDataKey|;
    ReadIsField(encoded, 5, e.ciphertext, n1);
    ReadIsField(encoded, n1, e.nonce, n2);
    ReadIsField(encoded, n2, e.wrappedDataKey, n3);
    ReadIsField(encoded, n3, e.wrapNonce, |encoded|);
    hide ReadField, Prefixed;
    NextSlice(encoded, 5, n1);
    NextSlice(encoded, n1, n2);
    NextSlice(encoded, n2, n3);
    NextSlice(encoded, n3, |encoded|);
    assert encoded[..|encoded|] == encoded;
  }

  lemma NextSlice(b: Bytes, i: nat, j: nat)
    requires i <= j <= |b|
    ensures b[..j] == b[..i] + b[i..j]
  {
  }

  lemma WhatReadsBack(encoded: Bytes)
    ensures forall e :: Storable(e) ==> (ReadsBack(encoded, e) <==> encoded == Layout(e))
  {
    forall e: Envelope | Storable(e)
      ensures ReadsBack(encoded, e) <==> encoded == Layout(e)
    {
      LayoutReadsBack(e);
      if ReadsBack(encoded, e) {
        ReadsBackIsLayout(encoded, e);
      }
    }
  }

  lemma LayoutIsInjective(a: Envelope, b: Envelope)
    requires Storable(a) && Storable(b) && Layout(a) == Layout(b)
    ensures a == b
  {
    hide Layout, ReadField;
    LayoutReadsBack(a);
    LayoutReadsBack(b);
  }

  /**
   Reading inverts writing in both directions: the result is an envelope exactly when the bytes are what
   that envelope is written as, and bytes no storable envelope is written as are refused.
   */
  method UnmarshalEnvelope(encoded: Bytes) returns (r: Option<Envelope>)
    ensures forall e :: Storable(e) ==> (r == Some(e) <==> encoded == Layout(e))
    ensures r.Some? ==> Storable(r.value)
  {
    hide Layout, ReadField;
    WhatReadsBack(encoded);
    if |encoded| > MAX_SIZE || |encoded| < 5 || encoded[..4] != HEADER[..4] || encoded[4] != HEADER[4] {
      return None;
    }
    assert encoded[..5] == HEADER;
    var first := ReadField(encoded, 5);
    if first.None? {
      return None;
    }
    var (ciphertext, n1) := first.value;
    var second := ReadField(encoded, n1);
    if second.None? {
      return None;
    }
    var (nonce, n2) := second.value;
    var third := ReadField(encoded, n2);
    if third.None? {
      return None;
    }
    var (wrapped, n3) := third.value;
    var fourth := ReadField(encoded, n3);
    if fourth.None? {
      return None;
    }
    var (wrapNonce, n4) := fourth.value;
    if n4 != |encoded| || |ciphertext| < OVERHEAD || |nonce| != 24 || |wrapped| != 32 + OVERHEAD || |wrapNonce| != 24 {
      return None;
    }
    r := Some(Envelope(ciphertext, nonce, wrapped, wrapNonce));
    ReadsBackIsLayout(encoded, r.value);
  }

  /** A stored envelope begins with "OWEN" and the version. */
  lemma LayoutBegins(e: Envelope)
    ensures Layout(e)[..5] == ['O' as int, 'W' as int, 'E' as int, 'N' as int, 1]
  {
    hide Prefixed;
    assert Layout(e)[..5] == HEADER;
  }
}
