/**
 What ties an envelope to its owner: the associated data of the four uses of the cipher, and encryption,
 decryption and re-wrapping under them (internal/cryptobox/envelope.go).  The cipher is a parameter, and
 so are the random bytes drawn.
 */
module Cryptobox {
  import opened Wrappers
  import opened Envelopes

  // --------------------------------------------------------- associated data

  /** Go strings are bytes; their lengths and the version are 64-bit numbers. */
  datatype CredentialContext = CredentialContext(credentialID: Bytes, spaceID: Bytes, version: nat, kind: Bytes)

  datatype IdentityContext = IdentityContext(userID: Bytes, purpose: Bytes)

  /** One use of the cipher: a domain and the context it is used in. */
  datatype Use =
    | CredentialPayload(credential: CredentialContext)
    | DataKeyWrap(credential: CredentialContext)
    | IdentityPayload(identity: IdentityContext)
    | IdentityDataKeyWrap(identity: IdentityContext)

  const WORD64 := 0x1_0000_0000_0000_0000

  predicate FitsCredential(c: CredentialContext) {
    |c.credentialID| < WORD64 && |c.spaceID| < WORD64 && c.version < WORD64 && |c.kind| < WORD64
  }

  predicate FitsIdentity(c: IdentityContext) {
    |c.userID| < WORD64 && |c.purpose| < WORD64
  }

  predicate Fits(u: Use) {
    match u
    case CredentialPayload(c) => FitsCredential(c)
    case DataKeyWrap(c) => FitsCredential(c)
    case IdentityPayload(c) => FitsIdentity(c)
    case IdentityDataKeyWrap(c) => FitsIdentity(c)
  }

  function Ascii(s: string): (b: Bytes)
    requires forall i :: 0 <= i < |s| ==> s[i] as int < 128
    ensures |b| == |s| && forall i :: 0 <= i < |s| ==> b[i] == s[i] as int
  {
    seq(|s|, i requires 0 <= i < |s| => s[i] as int)
  }

  function Domain(u: Use): Bytes {
    match u
    case CredentialPayload(_) => Ascii("opswarden/credential-payload/v1")
    case DataKeyWrap(_) => Ascii("opswarden/data-key-wrap/v1")
    case IdentityPayload(_) => Ascii("opswarden/identity-payload/v1")
    case IdentityDataKeyWrap(_) => Ascii("opswarden/identity-data-key-wrap/v1")
  }

  function CredentialBytes(c: CredentialContext): Bytes {
    Prefixed(c.credentialID, 8) + (Prefixed(c.spaceID, 8) + (BigEndian(c.version, 8) + Prefixed(c.kind, 8)))
  }

  function IdentityBytes(c: IdentityContext): Bytes {
    Prefixed(c.userID, 8) + Prefixed(c.purpose, 8)
  }

  /** `credentialAAD` and `identityAAD` */
  function AAD(u: Use): Bytes {
    Domain(u) +
    match u
    case CredentialPayload(c) => CredentialBytes(c)
    case DataKeyWrap(c) => CredentialBytes(c)
    case IdentityPayload(c) => IdentityBytes(c)
    case IdentityDataKeyWrap(c) => IdentityBytes(c)
  }

  /** No domain is the beginning of another: bytes 10 and 19 tell the four apart. */
  function Marks(u: Use): (int, int) {
    match u
    case CredentialPayload(_) => ('c' as int, 'l' as int)
    case DataKeyWrap(_) => ('d' as int, 'w' as int)
    case IdentityPayload(_) => ('i' as int, 'p' as int)
    case IdentityDataKeyWrap(_) => ('i' as int, 'd' as int)
  }

  lemma DomainIsRead(u: Use, rest: Bytes)
    ensures var b := Domain(u) + rest; |b| > 19 && (b[10] as int, b[19] as int) == Marks(u)
  {
  }

  lemma BehindDomain(d: Bytes, x: Bytes, y: Bytes)
    requires d + x == d + y
    ensures x == y
  {
    assert (d + x)[|d|..] == x && (d + y)[|d|..] == y;
  }

  lemma CredentialBytesAreInjective(a: CredentialContext, b: CredentialContext)
    requires FitsCredential(a) && FitsCredential(b) && CredentialBytes(a) == CredentialBytes(b)
    ensures a == b
  {
    Widths();
    hide Prefixed, Pow256, BigEndian;
    var kindA, kindB := Prefixed(a.kind, 8), Prefixed(b.kind, 8);
    var versionA, versionB := BigEndian(a.version, 8) + kindA, BigEndian(b.version, 8) + kindB;
    var spaceA, spaceB := Prefixed(a.spaceID, 8) + versionA, Prefixed(b.spaceID, 8) + versionB;
    PrefixedIsPrefixFree(a.credentialID, b.credentialID, spaceA, spaceB, 8);
    PrefixedIsPrefixFree(a.spaceID, b.spaceID, versionA, versionB, 8);
    assert versionA[..8] == BigEndian(a.version, 8) && versionA[8..] == kindA;
    assert versionB[..8] == BigEndian(b.version, 8) && versionB[8..] == kindB;
    UnsignedOfBigEndian(a.version, 8);
    UnsignedOfBigEndian(b.version, 8);
    assert kindA == kindA + [] && kindB == kindB + [];
    PrefixedIsPrefixFree(a.kind, b.kind, [], [], 8);
  }

  lemma IdentityBytesAreInjective(a: IdentityContext, b: IdentityContext)
    requires FitsIdentity(a) && FitsIdentity(b) && IdentityBytes(a) == IdentityBytes(b)
    ensures a == b
  {
    Widths();
    hide Prefixed, Pow256;
    var purposeA, purposeB := Prefixed(a.purpose, 8), Prefixed(b.purpose, 8);
    PrefixedIsPrefixFree(a.userID, b.userID, purposeA, purposeB, 8);
    assert purposeA == purposeA + [] && purposeB == purposeB + [];
    PrefixedIsPrefixFree(a.purpose, b.purpose, [], [], 8);
  }

  /** Associated data names its domain and every part of its context. */
  lemma AADIsInjective(a: Use, b: Use)
    requires Fits(a) && Fits(b) && AAD(a) == AAD(b)
    ensures a == b
  {
    var x, y := AAD(a)[|Domain(a)|..], AAD(b)[|Domain(b)|..];
    DomainIsRead(a, x);
    DomainIsRead(b, y);
    hide CredentialBytes, IdentityBytes;
    assert AAD(a) == Domain(a) + x && AAD(b) == Domain(b) + y;
    assert Marks(a) == Marks(b);
    BehindDomain(Domain(a), x, y);
    if a.CredentialPayload? || a.DataKeyWrap? {
      CredentialBytesAreInjective(a.credential, b.credential);
    } else {
      IdentityBytesAreInjective(a.identity, b.identity);
    }
  }

  // -------------------------------------------------------------- encryption

  /** XChaCha20-Poly1305 as a parameter: key, nonce, text, associated data. */
  datatype Cipher = Cipher(seal: (Key, Nonce, Bytes, Bytes) -> Bytes, unseal: (Key, Nonce, Bytes, Bytes) -> Option<Bytes>)

  /** What was sealed comes out again, 16 bytes shorter. */
  ghost predicate Inverts(c: Cipher) {
    forall k: Key, n: Nonce, text: Bytes, aad: Bytes ::
      |c.seal(k, n, text, aad)| == |text| + OVERHEAD && c.unseal(k, n, c.seal(k, n, text, aad), aad) == Some(text)
  }

  datatype Rewrapped = Done(envelope: Envelope) | ContextChange | AuthenticationFailed

  datatype Box = Box(masterKey: Key, cipher: Cipher) {
    /** `encryptEnvelope`; the data key and the two nonces are drawn at random. */
    function Encrypt(payload: Use, wrap: Use, text: Bytes, dataKey: Key, nonce: Nonce, wrapNonce: Nonce): Envelope {
      Envelope(cipher.seal(dataKey, nonce, text, AAD(payload)), nonce,
               cipher.seal(masterKey, wrapNonce, dataKey, AAD(wrap)), wrapNonce)
    }

    function UnwrapDataKey(wrap: Use, e: Envelope): (r: Option<Key>) {
      match cipher.unseal(masterKey, e.wrapNonce, e.wrappedDataKey, AAD(wrap))
      case Some(k) => if |k| == 32 then Some(k) else None
      case None => None
    }

    /** `decryptEnvelope` */
    function Decrypt(payload: Use, wrap: Use, e: Envelope): Option<Bytes> {
      match UnwrapDataKey(wrap, e)
      case Some(k) => cipher.unseal(k, e.nonce, e.ciphertext, AAD(payload))
      case None => None
    }

    function EncryptCredential(c: CredentialContext, text: Bytes, dataKey: Key, nonce: Nonce, wrapNonce: Nonce): Envelope {
      Encrypt(CredentialPayload(c), DataKeyWrap(c), text, dataKey, nonce, wrapNonce)
    }

    function DecryptCredential(c: CredentialContext, e: Envelope): Option<Bytes> {
      Decrypt(CredentialPayload(c), DataKeyWrap(c), e)
    }

    function EncryptIdentity(c: IdentityContext, text: Bytes, dataKey: Key, nonce: Nonce, wrapNonce: Nonce): Envelope {
      Encrypt(IdentityPayload(c), IdentityDataKeyWrap(c), text, dataKey, nonce, wrapNonce)
    }

    function DecryptIdentity(c: IdentityContext, e: Envelope): Option<Bytes> {
      Decrypt(IdentityPayload(c), IdentityDataKeyWrap(c), e)
    }

    function RewrapDataKey(oldContext: CredentialContext, newContext: CredentialContext, e: Envelope,
                           newMaster: Key, wrapNonce: Nonce): Rewrapped {
      if oldContext != newContext then ContextChange
      else
        match UnwrapDataKey(DataKeyWrap(oldContext), e)
        case None => AuthenticationFailed
        case Some(k) =>
          if cipher.unseal(k, e.nonce, e.ciphertext, AAD(CredentialPayload(oldContext))).None? then AuthenticationFailed
          else Done(e.(wrappedDataKey := cipher.seal(newMaster, wrapNonce, k, AAD(DataKeyWrap(newContext))), wrapNonce := wrapNonce))
    }
  }

  /** What is encrypted is decrypted, and can be stored exactly up to 65403 bytes of text. */
  lemma DecryptAfterEncrypt(b: Box, payload: Use, wrap: Use, text: Bytes, dataKey: Key, nonce: Nonce, wrapNonce: Nonce)
    requires Inverts(b.cipher)
    ensures var e := b.Encrypt(payload, wrap, text, dataKey, nonce, wrapNonce);
            b.Decrypt(payload, wrap, e) == Some(text) && (Storable(e) <==> |text| <= 65403)
  {
    hide AAD;
    var e := b.Encrypt(payload, wrap, text, dataKey, nonce, wrapNonce);
    var w, p := AAD(wrap), AAD(payload);
    assert b.cipher.unseal(b.masterKey, wrapNonce, b.cipher.seal(b.masterKey, wrapNonce, dataKey, w), w) == Some(dataKey);
    assert b.cipher.unseal(dataKey, nonce, b.cipher.seal(dataKey, nonce, text, p), p) == Some(text);
  }

  /**
   Moving an envelope to a new master key succeeds exactly when it can be decrypted under the old one, in
   the same context; then it decrypts to the same text under the new key, and the payload is untouched.
   */
  lemma RewrapKeepsText(b: Box, oldContext: CredentialContext, newContext: CredentialContext, e: Envelope, newMaster: Key, wrapNonce: Nonce)
    requires Inverts(b.cipher)
    ensures var r := b.RewrapDataKey(oldContext, newContext, e, newMaster, wrapNonce);
            && (r.ContextChange? <==> oldContext != newContext)
            && (r.Done? <==> oldContext == newContext && b.DecryptCredential(oldContext, e).Some?)
            && (r.Done? ==>
                  && Box(newMaster, b.cipher).DecryptCredential(newContext, r.envelope) == b.DecryptCredential(oldContext, e)
                  && r.envelope.ciphertext == e.ciphertext && r.envelope.nonce == e.nonce && r.envelope.wrapNonce == wrapNonce
                  && (Storable(e) ==> Storable(r.envelope)))
  {
    hide AAD;
    var unwrapped := b.UnwrapDataKey(DataKeyWrap(oldContext), e);
    if unwrapped.Some? {
      var w := AAD(DataKeyWrap(newContext));
      assert b.cipher.unseal(newMaster, wrapNonce, b.cipher.seal(newMaster, wrapNonce, unwrapped.value, w), w) == Some(unwrapped.value);
    }
  }

  /** One ciphertext that opens under one key and nonce with two different associated data: a broken cipher. */
  ghost predicate Forged(c: Cipher, k: Key, n: Nonce, sealed: Bytes, aad: Bytes, aad': Bytes) {
    aad != aad' && c.unseal(k, n, sealed, aad).Some? && c.unseal(k, n, sealed, aad').Some?
  }

  /**
   An envelope that decrypts in a context other than the one it was encrypted in, or as an identity's when it
   is a credential's, exhibits a forgery on its wrapped key.  (That no forgery exists at all is not assumed:
   with infinitely many associated data and tags of 16 bytes it could not be true of any cipher.)
   */
  lemma MovedEnvelopeIsForgery(b: Box, payload: Use, wrap: Use, payload': Use, wrap': Use,
                               text: Bytes, dataKey: Key, nonce: Nonce, wrapNonce: Nonce)
    requires Inverts(b.cipher) && Fits(wrap) && Fits(wrap') && wrap != wrap'
    ensures var e := b.Encrypt(payload, wrap, text, dataKey, nonce, wrapNonce);
            b.Decrypt(payload', wrap', e).Some? ==>
            Forged(b.cipher, b.masterKey, wrapNonce, e.wrappedDataKey, AAD(wrap), AAD(wrap'))
  {
    var w, e := AAD(wrap), b.Encrypt(payload, wrap, text, dataKey, nonce, wrapNonce);
    if AAD(wrap) == AAD(wrap') {
      AADIsInjective(wrap, wrap');
    }
    hide AAD;
    assert b.cipher.unseal(b.masterKey, wrapNonce, b.cipher.seal(b.masterKey, wrapNonce, dataKey, w), w) == Some(dataKey);
  }

  /** The same for the payload: opened for another use, its ciphertext is a forgery under the data key. */
  lemma MovedPayloadIsForgery(b: Box, payload: Use, payload': Use, wrap: Use, text: Bytes, dataKey: Key, nonce: Nonce, wrapNonce: Nonce)
    requires Inverts(b.cipher) && Fits(payload) && Fits(payload') && payload != payload'
    ensures var e := b.Encrypt(payload, wrap, text, dataKey, nonce, wrapNonce);
            b.Decrypt(payload', wrap, e).Some? ==>
            Forged(b.cipher, dataKey, nonce, e.ciphertext, AAD(payload), AAD(payload'))
  {
    if AAD(payload) == AAD(payload') {
      AADIsInjective(payload, payload');
    }
    hide AAD;
  }
}
