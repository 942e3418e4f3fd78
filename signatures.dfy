/**
 * Hybrid signatures: Ed448 (section 5.2 of RFC 8032) together with Dilithium5 /
 * ML-DSA-87 (FIPS 204). Keys and signatures are fixed-length concatenations of the
 * two schemes' encodings, and a hybrid signature is valid only when both are.
 */
module HybridSignatures {
  import opened Wrappers
  import opened Bytes

  const ED448_PK_LEN: nat := 57
  const ED448_SIG_LEN: nat := 114
  const DIL5_PK_LEN: nat := 2592
  const DIL5_SIG_LEN: nat := 4627
  const HYBRID_PK_LEN: nat := ED448_PK_LEN + DIL5_PK_LEN
  const HYBRID_SIG_LEN: nat := ED448_SIG_LEN + DIL5_SIG_LEN

  datatype SignatureError =
    | Ed448VerifyFailed
    | Dilithium5VerifyFailed
    | InvalidPublicKey(expected: nat, got: nat)
    | InvalidSignature(expected: nat, got: nat)
    | InvalidEd448Key
    | InvalidEd448Signature
    | InvalidDilithiumKey
    | InvalidDilithiumSignature

  /**
   * The two signature schemes, uninterpreted. Keys and signatures are their byte
   * encodings; a decoder predicate says whether the library's `from_bytes` accepts one.
   */
  datatype SigPrimitives = SigPrimitives(
    /** Ed448 verifying key of a signing key. */
    ed448PublicOf: seq<byte> -> seq<byte>,
    /** Ed448 signature (raw mode): (signing key, message). */
    ed448Sign: (seq<byte>, seq<byte>) -> seq<byte>,
    /** Ed448 verification: (verifying key, signature, message). */
    ed448Verify: (seq<byte>, seq<byte>, seq<byte>) -> bool,
    ed448KeyDecodes: seq<byte> -> bool,
    ed448SigDecodes: seq<byte> -> bool,
    /** Dilithium5 key generation: coins to (public key, secret key). */
    dil5Keypair: seq<byte> -> (seq<byte>, seq<byte>),
    /** Dilithium5 detached signature: (secret key, message). */
    dil5Sign: (seq<byte>, seq<byte>) -> seq<byte>,
    /** Dilithium5 verification: (public key, signature, message). */
    dil5Verify: (seq<byte>, seq<byte>, seq<byte>) -> bool,
    dil5KeyDecodes: seq<byte> -> bool,
    dil5SigDecodes: seq<byte> -> bool
  )

  /** What the hybrid scheme relies on: fixed encoding lengths and correctness of each scheme. */
  ghost predicate Lawful(S: SigPrimitives)
  {
    && (forall sk :: |S.ed448PublicOf(sk)| == ED448_PK_LEN && S.ed448KeyDecodes(S.ed448PublicOf(sk)))
    && (forall sk, m :: |S.ed448Sign(sk, m)| == ED448_SIG_LEN && S.ed448SigDecodes(S.ed448Sign(sk, m)))
    && (forall sk, m :: S.ed448Verify(S.ed448PublicOf(sk), S.ed448Sign(sk, m), m))
    && (forall c :: |S.dil5Keypair(c).0| == DIL5_PK_LEN && S.dil5KeyDecodes(S.dil5Keypair(c).0))
    && (forall sk, m :: |S.dil5Sign(sk, m)| == DIL5_SIG_LEN && S.dil5SigDecodes(S.dil5Sign(sk, m)))
    && (forall c, m :: S.dil5Verify(S.dil5Keypair(c).0, S.dil5Sign(S.dil5Keypair(c).1, m), m))
  }

  /** Idealised Ed448 key binding: a signature never verifies under another verifying key. */
  ghost predicate Ed448KeyBound(S: SigPrimitives)
  {
    forall sk1, sk2, m1, m2 :: S.ed448PublicOf(sk1) != S.ed448PublicOf(sk2) ==>
      !S.ed448Verify(S.ed448PublicOf(sk2), S.ed448Sign(sk1, m1), m2)
  }

  /** Idealised Dilithium5 key binding, in the same sense. */
  ghost predicate Dil5KeyBound(S: SigPrimitives)
  {
    forall c1, c2, m1, m2 :: S.dil5Keypair(c1).0 != S.dil5Keypair(c2).0 ==>
      !S.dil5Verify(S.dil5Keypair(c2).0, S.dil5Sign(S.dil5Keypair(c1).1, m1), m2)
  }

  /**
   * Ed448 tells the messages `m1` and `m2` apart: no signature of `m1`, under any key,
   * verifies for `m2`. Fixed-length signatures cannot do this for every pair of
   * messages, so it is a hypothesis about the pair at hand.
   */
  ghost predicate Ed448SeparatesMessages(S: SigPrimitives, m1: seq<byte>, m2: seq<byte>)
  {
    forall sk1, sk2 :: !S.ed448Verify(S.ed448PublicOf(sk2), S.ed448Sign(sk1, m1), m2)
  }

  /** Dilithium5 tells the messages `m1` and `m2` apart, in the same sense. */
  ghost predicate Dil5SeparatesMessages(S: SigPrimitives, m1: seq<byte>, m2: seq<byte>)
  {
    forall c1, c2 :: !S.dil5Verify(S.dil5Keypair(c2).0, S.dil5Sign(S.dil5Keypair(c1).1, m1), m2)
  }

  datatype HybridKeyPair = HybridKeyPair(ed448Sk: seq<byte>, ed448Vk: seq<byte>, dil5Pk: seq<byte>, dil5Sk: seq<byte>)
  datatype HybridPublicKey = HybridPublicKey(ed448Vk: seq<byte>, dil5Pk: seq<byte>)
  datatype HybridSignature = HybridSignature(ed448Sig: seq<byte>, dil5Sig: seq<byte>)

  /** `generate_hybrid_keypair`, with the random Ed448 signing key and Dilithium coins as inputs. */
  function GenerateHybridKeypair(S: SigPrimitives, ed448Sk: seq<byte>, dil5Coins: seq<byte>): HybridKeyPair
  {
    HybridKeyPair(ed448Sk, S.ed448PublicOf(ed448Sk), S.dil5Keypair(dil5Coins).0, S.dil5Keypair(dil5Coins).1)
  }

  /** `hybrid_sign`: each scheme signs the same message independently. */
  function HybridSign(S: SigPrimitives, message: seq<byte>, keypair: HybridKeyPair): HybridSignature
  {
    HybridSignature(S.ed448Sign(keypair.ed448Sk, message), S.dil5Sign(keypair.dil5Sk, message))
  }

  /** `hybrid_verify`: Ed448 first, short-circuiting; then Dilithium5. */
  function HybridVerify(S: SigPrimitives, message: seq<byte>, signature: HybridSignature, publicKey: HybridPublicKey)
    : Result<(), SignatureError>
  {
    if !S.ed448Verify(publicKey.ed448Vk, signature.ed448Sig, message) then Err(Ed448VerifyFailed)
    else if !S.dil5Verify(publicKey.dil5Pk, signature.dil5Sig, message) then Err(Dilithium5VerifyFailed)
    else Ok(())
  }

  /** The hybrid verifies exactly when both sub-signatures do. */
  lemma HybridVerifyBoth(S: SigPrimitives, message: seq<byte>, signature: HybridSignature, publicKey: HybridPublicKey)
    ensures HybridVerify(S, message, signature, publicKey).Ok? <==>
      S.ed448Verify(publicKey.ed448Vk, signature.ed448Sig, message) &&
      S.dil5Verify(publicKey.dil5Pk, signature.dil5Sig, message)
  {
  }

  /**
   * Short circuit: when Ed448 fails the answer is `Ed448VerifyFailed` whatever the
   * Dilithium5 parts are, so they are not consulted; when only Dilithium5 fails the
   * answer is `Dilithium5VerifyFailed`.
   */
  lemma HybridVerifyOrder(S: SigPrimitives, message: seq<byte>, signature: HybridSignature, publicKey: HybridPublicKey,
                          otherDil5Sig: seq<byte>, otherDil5Pk: seq<byte>)
    ensures !S.ed448Verify(publicKey.ed448Vk, signature.ed448Sig, message) ==>
      HybridVerify(S, message, signature, publicKey) == Err(Ed448VerifyFailed) &&
      HybridVerify(S, message, signature.(dil5Sig := otherDil5Sig), publicKey.(dil5Pk := otherDil5Pk))
        == Err(Ed448VerifyFailed)
    ensures (S.ed448Verify(publicKey.ed448Vk, signature.ed448Sig, message) &&
             !S.dil5Verify(publicKey.dil5Pk, signature.dil5Sig, message)) ==>
      HybridVerify(S, message, signature, publicKey) == Err(Dilithium5VerifyFailed)
  {
  }

  /** `HybridKeyPair::public_key`: re-decode both verifying keys, Ed448 first. */
  function PublicKeyOf(S: SigPrimitives, keypair: HybridKeyPair): Result<HybridPublicKey, SignatureError>
  {
    if !S.ed448KeyDecodes(keypair.ed448Vk) then Err(InvalidEd448Key)
    else if !S.dil5KeyDecodes(keypair.dil5Pk) then Err(InvalidDilithiumKey)
    else Ok(HybridPublicKey(keypair.ed448Vk, keypair.dil5Pk))
  }

  /** A freshly generated keypair's signature verifies under its own public key. */
  lemma SignVerifyRoundTrip(S: SigPrimitives, message: seq<byte>, ed448Sk: seq<byte>, dil5Coins: seq<byte>)
    requires Lawful(S)
    ensures var kp := GenerateHybridKeypair(S, ed448Sk, dil5Coins);
      PublicKeyOf(S, kp).Ok? && HybridVerify(S, message, HybridSign(S, message, kp), PublicKeyOf(S, kp).value) == Ok(())
  {
    var kp := GenerateHybridKeypair(S, ed448Sk, dil5Coins);
    assert S.ed448KeyDecodes(S.ed448PublicOf(ed448Sk));
    assert S.dil5KeyDecodes(S.dil5Keypair(dil5Coins).0);
    assert S.ed448Verify(S.ed448PublicOf(ed448Sk), S.ed448Sign(ed448Sk, message), message);
    assert S.dil5Verify(S.dil5Keypair(dil5Coins).0, S.dil5Sign(S.dil5Keypair(dil5Coins).1, message), message);
  }

  /**
   * If either scheme binds keys, the hybrid rejects a signature checked against a keypair
   * that shares neither sub-key; if either scheme separates the two messages, it rejects
   * a signature checked against the other message.
   */
  lemma HybridRejectsForgery(S: SigPrimitives, m1: seq<byte>, m2: seq<byte>,
                             sk1: seq<byte>, coins1: seq<byte>, sk2: seq<byte>, coins2: seq<byte>)
    requires Lawful(S)
    requires var kp1 := GenerateHybridKeypair(S, sk1, coins1);
      var kp2 := GenerateHybridKeypair(S, sk2, coins2);
      || (m1 != m2 && (Ed448SeparatesMessages(S, m1, m2) || Dil5SeparatesMessages(S, m1, m2)))
      || (kp1.ed448Vk != kp2.ed448Vk && kp1.dil5Pk != kp2.dil5Pk && (Ed448KeyBound(S) || Dil5KeyBound(S)))
    ensures var kp2 := GenerateHybridKeypair(S, sk2, coins2);
      PublicKeyOf(S, kp2).Ok? &&
      HybridVerify(S, m2, HybridSign(S, m1, GenerateHybridKeypair(S, sk1, coins1)), PublicKeyOf(S, kp2).value).Err?
  {
    var kp1 := GenerateHybridKeypair(S, sk1, coins1);
    var kp2 := GenerateHybridKeypair(S, sk2, coins2);
    assert S.ed448KeyDecodes(S.ed448PublicOf(sk2));
    assert S.dil5KeyDecodes(S.dil5Keypair(coins2).0);
    var edFails := !S.ed448Verify(S.ed448PublicOf(sk2), S.ed448Sign(sk1, m1), m2);
    var dilFails := !S.dil5Verify(S.dil5Keypair(coins2).0, S.dil5Sign(S.dil5Keypair(coins1).1, m1), m2);
    if m1 != m2 && Ed448SeparatesMessages(S, m1, m2) {
      assert edFails;
    } else if m1 != m2 && Dil5SeparatesMessages(S, m1, m2) {
      assert dilFails;
    } else if Ed448KeyBound(S) {
      assert edFails;
    } else {
      assert dilFails;
    }
  }

  /** A public key whose parts have the fixed lengths and decode. */
  ghost predicate WellFormedPublicKey(S: SigPrimitives, pk: HybridPublicKey)
  {
    |pk.ed448Vk| == ED448_PK_LEN && |pk.dil5Pk| == DIL5_PK_LEN &&
    S.ed448KeyDecodes(pk.ed448Vk) && S.dil5KeyDecodes(pk.dil5Pk)
  }

  /** A signature whose parts have the fixed lengths and decode. */
  ghost predicate WellFormedSignature(S: SigPrimitives, sig: HybridSignature)
  {
    |sig.ed448Sig| == ED448_SIG_LEN && |sig.dil5Sig| == DIL5_SIG_LEN &&
    S.ed448SigDecodes(sig.ed448Sig) && S.dil5SigDecodes(sig.dil5Sig)
  }

  /** `HybridPublicKey::to_bytes`: Ed448 key, then Dilithium5 key. */
  function EncodePublicKey(pk: HybridPublicKey): seq<byte>
  {
    pk.ed448Vk + pk.dil5Pk
  }

  /** `HybridPublicKey::from_bytes`: exact length, split at 57, Ed448 decoded first. */
  function DecodePublicKey(S: SigPrimitives, bytes: seq<byte>): Result<HybridPublicKey, SignatureError>
  {
    if |bytes| != HYBRID_PK_LEN then Err(InvalidPublicKey(HYBRID_PK_LEN, |bytes|))
    else if !S.ed448KeyDecodes(bytes[..ED448_PK_LEN]) then Err(InvalidEd448Key)
    else if !S.dil5KeyDecodes(bytes[ED448_PK_LEN..]) then Err(InvalidDilithiumKey)
    else Ok(HybridPublicKey(bytes[..ED448_PK_LEN], bytes[ED448_PK_LEN..]))
  }

  /** `HybridSignature::to_bytes`: Ed448 signature, then Dilithium5 signature. */
  function EncodeSignature(sig: HybridSignature): seq<byte>
  {
    sig.ed448Sig + sig.dil5Sig
  }

  /** `HybridSignature::from_bytes`: exact length, split at 114, Ed448 decoded first. */
  function DecodeSignature(S: SigPrimitives, bytes: seq<byte>): Result<HybridSignature, SignatureError>
  {
    if |bytes| != HYBRID_SIG_LEN then Err(InvalidSignature(HYBRID_SIG_LEN, |bytes|))
    else if !S.ed448SigDecodes(bytes[..ED448_SIG_LEN]) then Err(InvalidEd448Signature)
    else if !S.dil5SigDecodes(bytes[ED448_SIG_LEN..]) then Err(InvalidDilithiumSignature)
    else Ok(HybridSignature(bytes[..ED448_SIG_LEN], bytes[ED448_SIG_LEN..]))
  }

  /** Public-key decoding: wrong lengths are refused with both lengths, and Ed448 errors come first. */
  lemma DecodePublicKeyErrors(S: SigPrimitives, bytes: seq<byte>)
    ensures HYBRID_PK_LEN == 2649
    ensures |bytes| != 2649 ==> DecodePublicKey(S, bytes) == Err(InvalidPublicKey(2649, |bytes|))
    ensures |bytes| == 2649 && !S.ed448KeyDecodes(bytes[..57]) ==> DecodePublicKey(S, bytes) == Err(InvalidEd448Key)
    ensures DecodePublicKey(S, bytes).Ok? ==>
      WellFormedPublicKey(S, DecodePublicKey(S, bytes).value) && EncodePublicKey(DecodePublicKey(S, bytes).value) == bytes
  {
    if DecodePublicKey(S, bytes).Ok? {
      assert bytes == bytes[..ED448_PK_LEN] + bytes[ED448_PK_LEN..];
    }
  }

  /** Encoding a well-formed public key gives 2649 bytes that decode back to it. */
  lemma PublicKeyRoundTrip(S: SigPrimitives, pk: HybridPublicKey)
    requires WellFormedPublicKey(S, pk)
    ensures |EncodePublicKey(pk)| == HYBRID_PK_LEN
    ensures DecodePublicKey(S, EncodePublicKey(pk)) == Ok(pk)
  {
    var bytes := EncodePublicKey(pk);
    assert bytes[..ED448_PK_LEN] == pk.ed448Vk;
    assert bytes[ED448_PK_LEN..] == pk.dil5Pk;
  }

  /** Signature decoding: the wrong length is refused, and exactly 4741 bytes decode back byte for byte. */
  lemma DecodeSignatureErrors(S: SigPrimitives, bytes: seq<byte>)
    ensures HYBRID_SIG_LEN == 4741
    ensures |bytes| != 4741 ==> DecodeSignature(S, bytes) == Err(InvalidSignature(4741, |bytes|))
    ensures |bytes| == 4741 && !S.ed448SigDecodes(bytes[..114]) ==> DecodeSignature(S, bytes) == Err(InvalidEd448Signature)
    ensures DecodeSignature(S, bytes).Ok? ==>
      WellFormedSignature(S, DecodeSignature(S, bytes).value) && EncodeSignature(DecodeSignature(S, bytes).value) == bytes
  {
    if DecodeSignature(S, bytes).Ok? {
      assert bytes == bytes[..ED448_SIG_LEN] + bytes[ED448_SIG_LEN..];
    }
  }

  /** Encoding a well-formed signature gives 4741 bytes that decode back to it. */
  lemma SignatureRoundTrip(S: SigPrimitives, sig: HybridSignature)
    requires WellFormedSignature(S, sig)
    ensures |EncodeSignature(sig)| == HYBRID_SIG_LEN
    ensures DecodeSignature(S, EncodeSignature(sig)) == Ok(sig)
  {
    var bytes := EncodeSignature(sig);
    assert bytes[..ED448_SIG_LEN] == sig.ed448Sig;
    assert bytes[ED448_SIG_LEN..] == sig.dil5Sig;
  }

  /** A signature sent over the wire and decoded again still verifies under the keypair. */
  lemma ReDecodedSignatureVerifies(S: SigPrimitives, message: seq<byte>, ed448Sk: seq<byte>, dil5Coins: seq<byte>)
    requires Lawful(S)
    ensures var kp := GenerateHybridKeypair(S, ed448Sk, dil5Coins);
      var sig := HybridSign(S, message, kp);
      DecodeSignature(S, EncodeSignature(sig)).Ok? && PublicKeyOf(S, kp).Ok? &&
      HybridVerify(S, message, DecodeSignature(S, EncodeSignature(sig)).value, PublicKeyOf(S, kp).value) == Ok(())
  {
    var kp := GenerateHybridKeypair(S, ed448Sk, dil5Coins);
    var sig := HybridSign(S, message, kp);
    assert |sig.ed448Sig| == ED448_SIG_LEN && S.ed448SigDecodes(sig.ed448Sig);
    assert |sig.dil5Sig| == DIL5_SIG_LEN && S.dil5SigDecodes(sig.dil5Sig);
    SignatureRoundTrip(S, sig);
    SignVerifyRoundTrip(S, message, ed448Sk, dil5Coins);
  }

  /** `to_bytes` of a public key: a `Vec` filled with `extend_from_slice`. */
  method PublicKeyToBytes(pk: HybridPublicKey) returns (bytes: seq<byte>)
    ensures bytes == EncodePublicKey(pk)
  {
    bytes := [];
    bytes := bytes + pk.ed448Vk;
    bytes := bytes + pk.dil5Pk;
  }

  /** `to_bytes` of a signature. */
  method SignatureToBytes(sig: HybridSignature) returns (bytes: seq<byte>)
    ensures bytes == EncodeSignature(sig)
  {
    bytes := [];
    bytes := bytes + sig.ed448Sig;
    bytes := bytes + sig.dil5Sig;
  }

  /** `copy_from_slice`: overwrite the whole fixed-size array with a slice of equal length. */
  method CopyFromSlice(dst: array<byte>, src: seq<byte>)
    requires dst.Length == |src|
    modifies dst
    ensures dst[..] == src
  {
    forall i | 0 <= i < dst.Length {
      dst[i] := src[i];
    }
  }

  /** `from_bytes` of a public key: the Ed448 part is copied into a 57-byte array first. */
  method PublicKeyFromBytes(S: SigPrimitives, bytes: seq<byte>) returns (r: Result<HybridPublicKey, SignatureError>)
    ensures r == DecodePublicKey(S, bytes)
  {
    if |bytes| != HYBRID_PK_LEN {
      return Err(InvalidPublicKey(HYBRID_PK_LEN, |bytes|));
    }
    var ed448Bytes := new byte[ED448_PK_LEN];
    CopyFromSlice(ed448Bytes, bytes[..ED448_PK_LEN]);
    if !S.ed448KeyDecodes(ed448Bytes[..]) {
      return Err(InvalidEd448Key);
    }
    if !S.dil5KeyDecodes(bytes[ED448_PK_LEN..]) {
      return Err(InvalidDilithiumKey);
    }
    r := Ok(HybridPublicKey(ed448Bytes[..], bytes[ED448_PK_LEN..]));
  }

  /** `from_bytes` of a signature: the Ed448 part is copied into a 114-byte array first. */
  method SignatureFromBytes(S: SigPrimitives, bytes: seq<byte>) returns (r: Result<HybridSignature, SignatureError>)
    ensures r == DecodeSignature(S, bytes)
  {
    if |bytes| != HYBRID_SIG_LEN {
      return Err(InvalidSignature(HYBRID_SIG_LEN, |bytes|));
    }
    var ed448Bytes := new byte[ED448_SIG_LEN];
    CopyFromSlice(ed448Bytes, bytes[..ED448_SIG_LEN]);
    if !S.ed448SigDecodes(ed448Bytes[..]) {
      return Err(InvalidEd448Signature);
    }
    if !S.dil5SigDecodes(bytes[ED448_SIG_LEN..]) {
      return Err(InvalidDilithiumSignature);
    }
    r := Ok(HybridSignature(ed448Bytes[..], bytes[ED448_SIG_LEN..]));
  }

  // ----- The hypotheses can hold together -----

  /** 0 for the empty message, 1 for any other. */
  function Tag(m: seq<byte>): byte
  {
    if m == [] then 0 else 1
  }

  /**
   * Toy schemes whose signatures are the signer's public key followed by a one-byte tag
   * of the message, repeated; verification compares both.
   */
  function ToySchemes(): SigPrimitives
  {
    SigPrimitives(
      (sk: seq<byte>) => Fill(ED448_PK_LEN, Tag(sk)),
      (sk: seq<byte>, m: seq<byte>) => Fill(ED448_PK_LEN, Tag(sk)) + Fill(ED448_SIG_LEN - ED448_PK_LEN, Tag(m)),
      (vk: seq<byte>, sig: seq<byte>, m: seq<byte>) =>
        |sig| == ED448_SIG_LEN && sig[..ED448_PK_LEN] == vk &&
        sig[ED448_PK_LEN..] == Fill(ED448_SIG_LEN - ED448_PK_LEN, Tag(m)),
      (vk: seq<byte>) => true,
      (sig: seq<byte>) => true,
      (c: seq<byte>) => (Fill(DIL5_PK_LEN, Tag(c)), [Tag(c)]),
      (sk: seq<byte>, m: seq<byte>) => Fill(DIL5_PK_LEN, Head(sk)) + Fill(DIL5_SIG_LEN - DIL5_PK_LEN, Tag(m)),
      (pk: seq<byte>, sig: seq<byte>, m: seq<byte>) =>
        |sig| == DIL5_SIG_LEN && sig[..DIL5_PK_LEN] == pk &&
        sig[DIL5_PK_LEN..] == Fill(DIL5_SIG_LEN - DIL5_PK_LEN, Tag(m)),
      (pk: seq<byte>) => true,
      (sig: seq<byte>) => true)
  }

  /** Two signatures made of a key part and a tag part differ when their tag bytes do. */
  lemma TagPartsDiffer(n: nat, a: byte, b: byte)
    requires n > 0 && a != b
    ensures Fill(n, a) != Fill(n, b)
  {
    assert Fill(n, a)[0] != Fill(n, b)[0];
  }

  /**
   * `Lawful`, key binding and message separation of both schemes are consistent: the toy
   * schemes satisfy all of them, for the messages [] and [1].
   */
  lemma ToySchemesMeetHypotheses()
    ensures var S := ToySchemes();
      Lawful(S) && Ed448KeyBound(S) && Dil5KeyBound(S) &&
      Ed448SeparatesMessages(S, [], [1]) && Dil5SeparatesMessages(S, [], [1])
  {
    var S := ToySchemes();
    var edTail, dilTail := ED448_SIG_LEN - ED448_PK_LEN, DIL5_SIG_LEN - DIL5_PK_LEN;
    forall sk, m ensures S.ed448Verify(S.ed448PublicOf(sk), S.ed448Sign(sk, m), m) {
      var sig := S.ed448Sign(sk, m);
      assert sig[..ED448_PK_LEN] == Fill(ED448_PK_LEN, Tag(sk));
      assert sig[ED448_PK_LEN..] == Fill(edTail, Tag(m));
    }
    forall c, m ensures S.dil5Verify(S.dil5Keypair(c).0, S.dil5Sign(S.dil5Keypair(c).1, m), m) {
      var sig := S.dil5Sign(S.dil5Keypair(c).1, m);
      assert Head(S.dil5Keypair(c).1) == Tag(c);
      assert sig[..DIL5_PK_LEN] == Fill(DIL5_PK_LEN, Tag(c));
      assert sig[DIL5_PK_LEN..] == Fill(dilTail, Tag(m));
    }
    forall sk1, sk2, m1, m2 | S.ed448PublicOf(sk1) != S.ed448PublicOf(sk2)
      ensures !S.ed448Verify(S.ed448PublicOf(sk2), S.ed448Sign(sk1, m1), m2)
    {
      assert S.ed448Sign(sk1, m1)[..ED448_PK_LEN] == S.ed448PublicOf(sk1);
    }
    forall c1, c2, m1, m2 | S.dil5Keypair(c1).0 != S.dil5Keypair(c2).0
      ensures !S.dil5Verify(S.dil5Keypair(c2).0, S.dil5Sign(S.dil5Keypair(c1).1, m1), m2)
    {
      assert Head(S.dil5Keypair(c1).1) == Tag(c1);
      assert S.dil5Sign(S.dil5Keypair(c1).1, m1)[..DIL5_PK_LEN] == S.dil5Keypair(c1).0;
    }
    TagPartsDiffer(edTail, 0, 1);
    TagPartsDiffer(dilTail, 0, 1);
    forall sk1, sk2 ensures !S.ed448Verify(S.ed448PublicOf(sk2), S.ed448Sign(sk1, []), [1]) {
      assert S.ed448Sign(sk1, [])[ED448_PK_LEN..] == Fill(edTail, 0);
    }
    forall c1, c2 ensures !S.dil5Verify(S.dil5Keypair(c2).0, S.dil5Sign(S.dil5Keypair(c1).1, []), [1]) {
      assert S.dil5Sign(S.dil5Keypair(c1).1, [])[DIL5_PK_LEN..] == Fill(dilTail, 0);
    }
  }
}
