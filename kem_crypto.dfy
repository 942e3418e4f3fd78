/**
 * Post-quantum query encryption between the oDNS proxy and resolver:
 * Kyber-1024 (FIPS 203) encapsulation, HKDF (sections 2.2-2.3 of RFC 5869) over
 * SHA3-512 without salt, then XChaCha20-Poly1305. The wire blob is
 * `KEM ciphertext (1568) || nonce (24) || AEAD ciphertext with 16-byte tag`.
 */
module KemCrypto {
  import opened Wrappers
  import opened Bytes

  const KEM_CT_LEN: nat := 1568
  const NONCE_LEN: nat := 24
  const TAG_LEN: nat := 16
  /** Smallest possible wire blob: KEM ciphertext, nonce and an empty message's tag. */
  const OVERHEAD: nat := KEM_CT_LEN + NONCE_LEN + TAG_LEN
  /** Kyber-1024 key encodings. */
  const KYBER_PK_LEN: nat := 1568
  const KYBER_SK_LEN: nat := 3168
  /** Length of a Kyber shared secret. */
  const SHARED_SECRET_LEN: nat := 32
  /** Length of the derived XChaCha20-Poly1305 key. */
  const SYM_KEY_LEN: nat := 32
  /** HKDF's largest output for a 64-byte hash (section 2.3 of RFC 5869: 255 * HashLen). */
  const HKDF_MAX_OKM: nat := 255 * 64

  /** The ASCII bytes of a string literal. */
  function Ascii(s: string): (r: seq<byte>)
    requires forall i :: 0 <= i < |s| ==> (s[i] as int) < 128
    ensures |r| == |s|
  {
    seq(|s|, i requires 0 <= i < |s| => s[i] as int)
  }

  /** Domain-separation string for the HKDF expand step. */
  const HKDF_INFO: seq<byte> := Ascii("odns-kyber1024-xchacha20-v1")

  datatype CryptoError =
    | MessageTooShort(min: nat, got: nat)
    | InvalidCiphertext
    | EncryptionFailed
    | DecryptionFailed
    | KeyDerivationFailed
      /** The source carries the library's length error as text; here its two lengths. */
    | InvalidPublicKey(expected: nat, got: nat)
    | InvalidSecretKey(expected: nat, got: nat)

  /**
   * The cryptographic primitives, uninterpreted. Keys, ciphertexts and secrets
   * are their byte encodings; randomness is an explicit `coins` argument.
   */
  datatype Primitives = Primitives(
    /** Kyber-1024 key generation: coins to (public key, secret key). */
    kemKeypair: seq<byte> -> (seq<byte>, seq<byte>),
    /** Kyber-1024 encapsulation: (public key, coins) to (shared secret, ciphertext). */
    encapsulate: (seq<byte>, seq<byte>) -> (seq<byte>, seq<byte>),
    /** Kyber-1024 decapsulation: (ciphertext, secret key) to shared secret. */
    decapsulate: (seq<byte>, seq<byte>) -> seq<byte>,
    /** HKDF-SHA3-512 extract-and-expand: (salt, input key material, info, length). */
    hkdf: (Option<seq<byte>>, seq<byte>, seq<byte>, nat) -> Option<seq<byte>>,
    /** XChaCha20-Poly1305 sealing without associated data: (key, nonce, plaintext). */
    aeadEncrypt: (seq<byte>, seq<byte>, seq<byte>) -> Option<seq<byte>>,
    /** XChaCha20-Poly1305 opening: (key, nonce, ciphertext); None on an authentication failure. */
    aeadDecrypt: (seq<byte>, seq<byte>, seq<byte>) -> Option<seq<byte>>
  )

  /** The facts about the primitives that the transport relies on. */
  ghost predicate Lawful(P: Primitives)
  {
    && (forall coins :: |P.kemKeypair(coins).0| == KYBER_PK_LEN && |P.kemKeypair(coins).1| == KYBER_SK_LEN)
    && (forall pk, coins :: |P.encapsulate(pk, coins).0| == SHARED_SECRET_LEN && |P.encapsulate(pk, coins).1| == KEM_CT_LEN)
       // decapsulation always yields a secret, the implicit-rejection one for a mismatched key
    && (forall ct, sk :: |P.decapsulate(ct, sk)| == SHARED_SECRET_LEN)
       // a paired secret key recovers the encapsulated secret
    && (forall kc, coins :: P.decapsulate(P.encapsulate(P.kemKeypair(kc).0, coins).1, P.kemKeypair(kc).1)
                             == P.encapsulate(P.kemKeypair(kc).0, coins).0)
    && (forall salt: Option<seq<byte>>, ikm: seq<byte>, info: seq<byte>, len: nat ::
          (P.hkdf(salt, ikm, info, len).Some? <==> len <= HKDF_MAX_OKM) &&
          (P.hkdf(salt, ikm, info, len).Some? ==> |P.hkdf(salt, ikm, info, len).value| == len))
       // the ciphertext is the plaintext's length plus the tag, and opens to the plaintext
    && (forall key, nonce, m :: P.aeadEncrypt(key, nonce, m).Some? ==>
          |P.aeadEncrypt(key, nonce, m).value| == |m| + TAG_LEN &&
          P.aeadDecrypt(key, nonce, P.aeadEncrypt(key, nonce, m).value) == Some(m))
  }

  /**
   * Idealised security of the primitives, used only to state wrong-key rejection:
   * a secret key not paired with the public key recovers a different secret, the key
   * derivation separates different shared secrets, and opening under a different key
   * fails. Real primitives meet these separations only computationally.
   */
  ghost predicate Ideal(P: Primitives)
  {
    && (forall kc1, kc2, coins :: P.kemKeypair(kc1).1 != P.kemKeypair(kc2).1 ==>
          P.decapsulate(P.encapsulate(P.kemKeypair(kc1).0, coins).1, P.kemKeypair(kc2).1)
            != P.encapsulate(P.kemKeypair(kc1).0, coins).0)
    && (forall ikm1: seq<byte>, ikm2: seq<byte> ::
          |ikm1| == SHARED_SECRET_LEN && |ikm2| == SHARED_SECRET_LEN && ikm1 != ikm2 ==>
            P.hkdf(None, ikm1, HKDF_INFO, SYM_KEY_LEN) != P.hkdf(None, ikm2, HKDF_INFO, SYM_KEY_LEN))
    && (forall k1, k2, nonce, m :: k1 != k2 && P.aeadEncrypt(k1, nonce, m).Some? ==>
          P.aeadDecrypt(k2, nonce, P.aeadEncrypt(k1, nonce, m).value).None?)
  }

  /** `public_key_from_bytes`: the Kyber decoder checks the length only. */
  function PublicKeyFromBytes(bytes: seq<byte>): (r: Result<seq<byte>, CryptoError>)
    ensures r.Ok? <==> |bytes| == KYBER_PK_LEN
    ensures r.Ok? ==> r.value == bytes
    ensures r.Err? ==> r.error == InvalidPublicKey(KYBER_PK_LEN, |bytes|)
  {
    if |bytes| == KYBER_PK_LEN then Ok(bytes) else Err(InvalidPublicKey(KYBER_PK_LEN, |bytes|))
  }

  /** `secret_key_from_bytes`. */
  function SecretKeyFromBytes(bytes: seq<byte>): (r: Result<seq<byte>, CryptoError>)
    ensures r.Ok? <==> |bytes| == KYBER_SK_LEN
    ensures r.Ok? ==> r.value == bytes
    ensures r.Err? ==> r.error == InvalidSecretKey(KYBER_SK_LEN, |bytes|)
  {
    if |bytes| == KYBER_SK_LEN then Ok(bytes) else Err(InvalidSecretKey(KYBER_SK_LEN, |bytes|))
  }

  /** `Ciphertext::from_bytes`: a Kyber ciphertext is accepted at exactly its length. */
  function CiphertextFromBytes(bytes: seq<byte>): Result<seq<byte>, CryptoError>
  {
    if |bytes| == KEM_CT_LEN then Ok(bytes) else Err(InvalidCiphertext)
  }

  /** `derive_symmetric_key`: HKDF with no salt and the fixed info string, 32 bytes out. */
  function DeriveSymmetricKey(P: Primitives, sharedSecret: seq<byte>): Result<seq<byte>, CryptoError>
  {
    match P.hkdf(None, sharedSecret, HKDF_INFO, SYM_KEY_LEN)
    case None => Err(KeyDerivationFailed)
    case Some(okm) => Ok(okm)
  }

  /** Under lawful primitives the derivation never fails and yields a 32-byte key. */
  lemma DeriveSymmetricKeyTotal(P: Primitives, sharedSecret: seq<byte>)
    requires Lawful(P)
    ensures DeriveSymmetricKey(P, sharedSecret).Ok?
    ensures |DeriveSymmetricKey(P, sharedSecret).value| == SYM_KEY_LEN
  {
    assert P.hkdf(None, sharedSecret, HKDF_INFO, SYM_KEY_LEN).Some?;
  }

  /** The three regions of a wire blob. */
  datatype WireParts = WireParts(kemCt: seq<byte>, nonce: seq<byte>, aeadCt: seq<byte>)

  /** Wire assembly: the concatenation of the regions. */
  function Assemble(parts: WireParts): seq<byte>
  {
    parts.kemCt + parts.nonce + parts.aeadCt
  }

  /** The split `decrypt_query` performs: `[..1568]`, `[1568..1592]`, `[1592..]`. */
  function SplitWire(blob: seq<byte>): (parts: WireParts)
    requires |blob| >= OVERHEAD
  {
    WireParts(blob[..KEM_CT_LEN], blob[KEM_CT_LEN..KEM_CT_LEN + NONCE_LEN], blob[KEM_CT_LEN + NONCE_LEN..])
  }

  /** The regions of a long-enough blob have the fixed sizes and glue back to the blob. */
  lemma SplitWireRegions(blob: seq<byte>)
    requires |blob| >= OVERHEAD
    ensures var parts := SplitWire(blob);
      |parts.kemCt| == KEM_CT_LEN && |parts.nonce| == NONCE_LEN && |parts.aeadCt| >= TAG_LEN &&
      Assemble(parts) == blob
  {
    var parts := SplitWire(blob);
    assert Assemble(parts) == blob[..KEM_CT_LEN] + blob[KEM_CT_LEN..KEM_CT_LEN + NONCE_LEN] + blob[KEM_CT_LEN + NONCE_LEN..];
  }

  /** Splitting an assembled blob recovers the regions it was built from. */
  lemma {:induction false} WireLayoutRoundTrip(parts: WireParts)
    requires |parts.kemCt| == KEM_CT_LEN && |parts.nonce| == NONCE_LEN && |parts.aeadCt| >= TAG_LEN
    ensures |Assemble(parts)| == KEM_CT_LEN + NONCE_LEN + |parts.aeadCt| >= OVERHEAD
    ensures SplitWire(Assemble(parts)) == parts
  {
    var blob := Assemble(parts);
    assert blob[..KEM_CT_LEN] == parts.kemCt;
    assert blob[KEM_CT_LEN..KEM_CT_LEN + NONCE_LEN] == parts.nonce;
    assert blob[KEM_CT_LEN + NONCE_LEN..] == parts.aeadCt;
  }

  /**
   * What `encrypt_query` returns for a query, the proxy's copy of the resolver's
   * public key, the encapsulation coins and the 24 random nonce bytes.
   */
  function Encrypted(P: Primitives, query: seq<byte>, publicKey: seq<byte>, coins: seq<byte>, nonce: seq<byte>)
    : Result<seq<byte>, CryptoError>
  {
    var (sharedSecret, kemCt) := P.encapsulate(publicKey, coins);
    match DeriveSymmetricKey(P, sharedSecret)
    case Err(e) => Err(e)
    case Ok(key) =>
      match P.aeadEncrypt(key, nonce, query)
      case None => Err(EncryptionFailed)
      case Some(aeadCt) => Ok(Assemble(WireParts(kemCt, nonce, aeadCt)))
  }

  /** `encrypt_query`: encapsulate, derive, seal, then build the wire `Vec` region by region. */
  method EncryptQuery(P: Primitives, query: seq<byte>, publicKey: seq<byte>, coins: seq<byte>, nonce: seq<byte>)
    returns (r: Result<seq<byte>, CryptoError>)
    requires |nonce| == NONCE_LEN
    ensures r == Encrypted(P, query, publicKey, coins, nonce)
  {
    var (sharedSecret, kemCt) := P.encapsulate(publicKey, coins);
    var derived := DeriveSymmetricKey(P, sharedSecret);
    if derived.Err? {
      return Err(derived.error);
    }
    var sealed := P.aeadEncrypt(derived.value, nonce, query);
    if sealed.None? {
      return Err(EncryptionFailed);
    }
    var wire: seq<byte> := [];
    wire := wire + kemCt;
    wire := wire + nonce;
    wire := wire + sealed.value;
    assert wire == Assemble(WireParts(kemCt, nonce, sealed.value));
    r := Ok(wire);
  }

  /** `decrypt_query`. */
  function DecryptQuery(P: Primitives, encrypted: seq<byte>, secretKey: seq<byte>): Result<seq<byte>, CryptoError>
  {
    if |encrypted| < OVERHEAD then Err(MessageTooShort(OVERHEAD, |encrypted|))
    else
      var parts := SplitWire(encrypted);
      var kemCt :- CiphertextFromBytes(parts.kemCt);
      var sharedSecret := P.decapsulate(kemCt, secretKey);
      var key :- DeriveSymmetricKey(P, sharedSecret);
      match P.aeadDecrypt(key, parts.nonce, parts.aeadCt)
      case None => Err(DecryptionFailed)
      case Some(plaintext) => Ok(plaintext)
  }

  /** Every blob shorter than the overhead is refused before any KEM work, whatever its bytes. */
  lemma TruncatedRejected(P: Primitives, blob: seq<byte>, secretKey: seq<byte>)
    requires |blob| < OVERHEAD
    ensures OVERHEAD == 1608
    ensures DecryptQuery(P, blob, secretKey) == Err(MessageTooShort(1608, |blob|))
  {
  }

  /** A sealed query is the plaintext's length plus the overhead, so never below it. */
  lemma EncryptedLength(P: Primitives, query: seq<byte>, publicKey: seq<byte>, coins: seq<byte>, nonce: seq<byte>)
    requires Lawful(P) && |nonce| == NONCE_LEN
    requires Encrypted(P, query, publicKey, coins, nonce).Ok?
    ensures |Encrypted(P, query, publicKey, coins, nonce).value| == |query| + OVERHEAD
  {
    var (sharedSecret, kemCt) := P.encapsulate(publicKey, coins);
    var key := DeriveSymmetricKey(P, sharedSecret).value;
    assert |kemCt| == KEM_CT_LEN;
    assert |P.aeadEncrypt(key, nonce, query).value| == |query| + TAG_LEN;
  }

  /** Round trip: the secret key paired with the public key opens what was sealed to it. */
  lemma EncryptDecryptRoundTrip(P: Primitives, query: seq<byte>, keyCoins: seq<byte>, coins: seq<byte>, nonce: seq<byte>)
    requires Lawful(P) && |nonce| == NONCE_LEN
    requires Encrypted(P, query, P.kemKeypair(keyCoins).0, coins, nonce).Ok?
    ensures DecryptQuery(P, Encrypted(P, query, P.kemKeypair(keyCoins).0, coins, nonce).value, P.kemKeypair(keyCoins).1)
            == Ok(query)
  {
    var (pk, sk) := P.kemKeypair(keyCoins);
    var (sharedSecret, kemCt) := P.encapsulate(pk, coins);
    var key := DeriveSymmetricKey(P, sharedSecret).value;
    var aeadCt := P.aeadEncrypt(key, nonce, query).value;
    var parts := WireParts(kemCt, nonce, aeadCt);
    WireLayoutRoundTrip(parts);
    assert P.decapsulate(kemCt, sk) == sharedSecret;
  }

  /**
   * Fail-closed: once a blob is long enough, the only error the resolver can see is
   * `DecryptionFailed`, whatever went wrong (wrong key, tampering, corruption).
   */
  lemma OnlyDecryptionFailed(P: Primitives, blob: seq<byte>, secretKey: seq<byte>)
    requires Lawful(P) && |blob| >= OVERHEAD
    requires DecryptQuery(P, blob, secretKey).Err?
    ensures DecryptQuery(P, blob, secretKey).error == DecryptionFailed
  {
    var parts := SplitWire(blob);
    DeriveSymmetricKeyTotal(P, P.decapsulate(parts.kemCt, secretKey));
  }

  /** Under idealised primitives, a secret key not paired with the public key is refused. */
  lemma WrongKeyRejected(P: Primitives, query: seq<byte>, keyCoins: seq<byte>, otherCoins: seq<byte>,
                         coins: seq<byte>, nonce: seq<byte>)
    requires Lawful(P) && Ideal(P) && |nonce| == NONCE_LEN
    requires P.kemKeypair(keyCoins).1 != P.kemKeypair(otherCoins).1
    requires Encrypted(P, query, P.kemKeypair(keyCoins).0, coins, nonce).Ok?
    ensures DecryptQuery(P, Encrypted(P, query, P.kemKeypair(keyCoins).0, coins, nonce).value, P.kemKeypair(otherCoins).1)
            == Err(DecryptionFailed)
  {
    var pk := P.kemKeypair(keyCoins).0;
    var sk2 := P.kemKeypair(otherCoins).1;
    var (sharedSecret, kemCt) := P.encapsulate(pk, coins);
    var key := DeriveSymmetricKey(P, sharedSecret).value;
    var aeadCt := P.aeadEncrypt(key, nonce, query).value;
    WireLayoutRoundTrip(WireParts(kemCt, nonce, aeadCt));
    var wrongSecret := P.decapsulate(kemCt, sk2);
    assert wrongSecret != sharedSecret;
    assert |wrongSecret| == |sharedSecret| == SHARED_SECRET_LEN;
    DeriveSymmetricKeyTotal(P, wrongSecret);
    var wrongKey := DeriveSymmetricKey(P, wrongSecret).value;
    assert wrongKey != key;
  }

  // ----- The hypotheses can hold together -----

  /**
   * Toy primitives: two keypairs told apart by one byte, a KEM whose mismatched
   * decapsulation yields the secret [2, ..], an identity key derivation and an AEAD
   * that seals only under the all-zero key.
   */
  function ToyPrimitives(): Primitives
  {
    Primitives(
      (coins: seq<byte>) => (Fill(KYBER_PK_LEN, if coins == [] then 0 else 1), Fill(KYBER_SK_LEN, if coins == [] then 0 else 1)),
      (pk: seq<byte>, coins: seq<byte>) => (Fill(SHARED_SECRET_LEN, Head(pk)), Fill(KEM_CT_LEN, Head(pk))),
      (ct: seq<byte>, sk: seq<byte>) =>
        if Head(ct) == Head(sk) then Fill(SHARED_SECRET_LEN, Head(ct)) else Fill(SHARED_SECRET_LEN, 2),
      (salt: Option<seq<byte>>, ikm: seq<byte>, info: seq<byte>, len: nat) =>
        if len > HKDF_MAX_OKM then None else if |ikm| == len then Some(ikm) else Some(Fill(len, 0)),
      (key: seq<byte>, nonce: seq<byte>, m: seq<byte>) =>
        if key == Fill(SYM_KEY_LEN, 0) then Some(m + Fill(TAG_LEN, 0)) else None,
      (key: seq<byte>, nonce: seq<byte>, c: seq<byte>) =>
        if key == Fill(SYM_KEY_LEN, 0) && |c| >= TAG_LEN then Some(c[..|c| - TAG_LEN]) else None)
  }

  /** `Lawful` and `Ideal` are consistent: the toy primitives satisfy both. */
  lemma ToyPrimitivesLawfulAndIdeal()
    ensures Lawful(ToyPrimitives()) && Ideal(ToyPrimitives())
  {
    ToyPrimitivesLawful();
    ToyPrimitivesIdeal();
  }

  /** The toy primitives have the lengths, KEM correctness, HKDF totality and AEAD round trip. */
  lemma ToyPrimitivesLawful()
    ensures Lawful(ToyPrimitives())
  {
    var P := ToyPrimitives();
    forall kc, coins
      ensures P.decapsulate(P.encapsulate(P.kemKeypair(kc).0, coins).1, P.kemKeypair(kc).1)
              == P.encapsulate(P.kemKeypair(kc).0, coins).0
    {
      var b: byte := if kc == [] then 0 else 1;
      assert Head(P.kemKeypair(kc).0) == b && Head(P.kemKeypair(kc).1) == b;
    }
    forall key, nonce, m | P.aeadEncrypt(key, nonce, m).Some?
      ensures P.aeadDecrypt(key, nonce, P.aeadEncrypt(key, nonce, m).value) == Some(m)
    {
      var c := m + Fill(TAG_LEN, 0);
      assert c[..|c| - TAG_LEN] == m;
    }
  }

  /** The toy primitives separate keys and secrets exactly. */
  lemma ToyPrimitivesIdeal()
    ensures Ideal(ToyPrimitives())
  {
    var P := ToyPrimitives();
    forall kc1, kc2, coins | P.kemKeypair(kc1).1 != P.kemKeypair(kc2).1
      ensures P.decapsulate(P.encapsulate(P.kemKeypair(kc1).0, coins).1, P.kemKeypair(kc2).1)
              != P.encapsulate(P.kemKeypair(kc1).0, coins).0
    {
      var b1: byte := if kc1 == [] then 0 else 1;
      var b2: byte := if kc2 == [] then 0 else 1;
      assert b1 != b2;
      assert Head(P.kemKeypair(kc1).0) == b1 && Head(P.kemKeypair(kc2).1) == b2;
      assert Head(P.encapsulate(P.kemKeypair(kc1).0, coins).1) == b1;
      assert P.encapsulate(P.kemKeypair(kc1).0, coins).0[0] == b1;
      assert P.decapsulate(P.encapsulate(P.kemKeypair(kc1).0, coins).1, P.kemKeypair(kc2).1)[0] == 2;
    }
    forall k1, k2, nonce, m | k1 != k2 && P.aeadEncrypt(k1, nonce, m).Some?
      ensures P.aeadDecrypt(k2, nonce, P.aeadEncrypt(k1, nonce, m).value).None?
    {
      assert k1 == Fill(SYM_KEY_LEN, 0);
    }
  }

  /** The toy primitives meet every hypothesis of `WrongKeyRejected` for a concrete instance. */
  lemma WrongKeyRejectedSatisfiable()
    ensures var P := ToyPrimitives();
      Lawful(P) && Ideal(P) && P.kemKeypair([]).1 != P.kemKeypair([1]).1 &&
      Encrypted(P, [], P.kemKeypair([]).0, [], Fill(NONCE_LEN, 0)).Ok?
  {
    var P := ToyPrimitives();
    ToyPrimitivesLawfulAndIdeal();
    assert P.kemKeypair([]).1[0] == 0 && P.kemKeypair([1]).1[0] == 1;
    var pk := P.kemKeypair([]).0;
    assert Head(pk) == 0;
    assert P.encapsulate(pk, []).0 == Fill(SYM_KEY_LEN, 0);
    assert DeriveSymmetricKey(P, Fill(SYM_KEY_LEN, 0)) == Ok(Fill(SYM_KEY_LEN, 0));
  }
}
