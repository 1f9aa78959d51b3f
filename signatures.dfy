/** signatures.go: signing the Keccak-256 digest of a message and verifying
    such a signature, each accepting its key in any of three forms, and the
    signature's string form. */
module Signatures {
  import opened Types
  import opened Primitives
  import opened Keys
  import Base64

  /** `Signature`: the raw signature bytes, R || S || V when produced by
      signing. */
  type Signature = Bytes

  // ---------------------------------------------------------------- signing

  /** `SignByPrivateKey`: signs the Keccak-256 digest of the data, never the
      data itself. A failing primitive gives an error and no signature. */
  function SignByPrivateKey(lib: Library, key: PrivateKey, data: Bytes): (r: Result<Signature>)
    ensures r.Failure? <==> lib.sign(lib.keccak256(data), key).None?
    ensures r.Failure? ==> r.error == SigningFailure
    ensures r.Success? ==> lib.sign(lib.keccak256(data), key) == Some(r.value)
    ensures DigestSize(lib) && SigningSound(lib) ==> r.Success? && |r.value| == SignatureLength
  {
    match lib.sign(lib.keccak256(data), key)
    case None => Failure(SigningFailure)
    case Some(sig) => Success(sig)
  }

  /** `SignByKeyPair`: signs with the pair's private key; under the laws the
      signature has 65 bytes and `VerifyByKeyPair` accepts it. */
  function SignByKeyPair(lib: Library, pair: KeyPair, data: Bytes): (r: Result<Signature>)
    reads pair
    requires pair.privateKey.Some?
    ensures r.Failure? <==> lib.sign(lib.keccak256(data), pair.privateKey.value).None?
    ensures r.Failure? ==> r.error == SigningFailure
    ensures DigestSize(lib) && SigningSound(lib) && pair.Valid(lib) ==>
      && r.Success? && |r.value| == SignatureLength
      && VerifyByKeyPair(lib, pair, data, r.value) == Pass
  {
    SignByPrivateKey(lib, pair.privateKey.value, data)
  }

  /** `SignByBytes`: the Go code unmarshals the bytes into a fresh `&KeyPair{}`
      and signs with its private key, which by the contract of
      `KeyPair.UnmarshalPrivateKey` is the decoder's result. */
  function SignByBytes(lib: Library, key: Bytes, data: Bytes): (r: Result<Signature>)
    ensures lib.toECDSA(key).None? ==> r == Failure(MalformedKey)
    ensures lib.toECDSA(key).Some? ==> r == SignByPrivateKey(lib, lib.toECDSA(key).value, data)
  {
    match lib.toECDSA(key)
    case None => Failure(MalformedKey)
    case Some(priv) => SignByPrivateKey(lib, priv, data)
  }

  /** `Sign`: one signing call with the reduced key, or the decoding error. */
  function Sign(lib: Library, k: PrivateKeyLike, data: Bytes): (r: Result<Signature>)
    reads k.Footprint()
    requires k.Usable()
    ensures k.Canonical(lib).Failure? ==> r == Failure(MalformedKey)
    ensures k.Canonical(lib).Success? ==> r == SignByPrivateKey(lib, k.Canonical(lib).value, data)
  {
    match k
    case PrivateOfPair(pair) => SignByKeyPair(lib, pair, data)
    case RawPrivateKey(key) => SignByPrivateKey(lib, key, data)
    case PrivateKeyBytes(bytes) => SignByBytes(lib, bytes, data)
  }

  // ---------------------------------------------------------------- verification

  /** `VerifyByBytes`: checks the signature without its last byte (the
      recovery id) against the Keccak-256 digest of the data. Slicing off the
      last byte faults on an empty signature. */
  function VerifyByBytes(lib: Library, publicKey: Bytes, data: Bytes, sig: Signature): (r: Outcome)
    requires |sig| >= 1
    ensures r.Pass? <==> lib.verifySignature(publicKey, lib.keccak256(data), sig[..|sig| - 1])
    ensures r.Fail? ==> r.error == InvalidSignature
  {
    if lib.verifySignature(publicKey, lib.keccak256(data), sig[..|sig| - 1]) then Pass
    else Fail(InvalidSignature)
  }

  /** `VerifyByKeyPair`: verifies against the pair's compressed public key. */
  function VerifyByKeyPair(lib: Library, pair: KeyPair, data: Bytes, sig: Signature): (r: Outcome)
    reads pair
    requires pair.publicKey.Some? && |sig| >= 1
    ensures r.Pass? <==> lib.verifySignature(lib.compressPubkey(pair.publicKey.value), lib.keccak256(data), sig[..|sig| - 1])
    ensures r.Fail? ==> r.error == InvalidSignature
  {
    VerifyByBytes(lib, pair.MarshalPublicKey(lib), data, sig)
  }

  /** `VerifyByPublicKey`: verifies against the uncompressed encoding of the
      key. */
  function VerifyByPublicKey(lib: Library, key: PublicKey, data: Bytes, sig: Signature): (r: Outcome)
    requires |sig| >= 1
    ensures r.Pass? <==> lib.verifySignature(lib.fromECDSAPub(key), lib.keccak256(data), sig[..|sig| - 1])
    ensures r.Fail? ==> r.error == InvalidSignature
  {
    VerifyByBytes(lib, lib.fromECDSAPub(key), data, sig)
  }

  /** The public-key bytes each form of `Verify`'s argument reduces to: a
      pair's key compressed, a raw key uncompressed, bytes as they are. */
  function VerificationKey(lib: Library, k: PublicKeyLike): (b: Bytes)
    reads k.Footprint()
    requires k.Usable()
    ensures k.PublicOfPair? ==> b == lib.compressPubkey(k.pair.publicKey.value)
    ensures k.RawPublicKey? ==> b == lib.fromECDSAPub(k.key)
    ensures k.PublicKeyBytes? ==> b == k.bytes
    ensures PublicKeyCodec(lib) && k.PublicOfPair? && k.pair.Valid(lib) && k.pair.privateKey.Some? ==>
      lib.decompressPubkey(b) == k.pair.publicKey
  {
    match k
    case PublicOfPair(pair) => pair.MarshalPublicKey(lib)
    case RawPublicKey(key) => lib.fromECDSAPub(key)
    case PublicKeyBytes(bytes) => bytes
  }

  /** `Verify`: one verification call with the reduced key bytes. */
  function Verify(lib: Library, k: PublicKeyLike, data: Bytes, sig: Signature): (r: Outcome)
    reads k.Footprint()
    requires k.Usable() && |sig| >= 1
    ensures r == VerifyByBytes(lib, VerificationKey(lib, k), data, sig)
    ensures r.Pass? <==> lib.verifySignature(VerificationKey(lib, k), lib.keccak256(data), sig[..|sig| - 1])
  {
    match k
    case PublicOfPair(pair) => VerifyByKeyPair(lib, pair, data, sig)
    case RawPublicKey(key) => VerifyByPublicKey(lib, key, data, sig)
    case PublicKeyBytes(bytes) => VerifyByBytes(lib, bytes, data, sig)
  }

  // ---------------------------------------------------------------- string form

  /** `SignatureFromString`: unpadded base64url decoding; no length check. */
  function SignatureFromString(s: string): (r: Result<Signature>)
    ensures r.Failure? <==> Base64.Decode(s).None?
    ensures r.Failure? ==> r.error == DecodeFailure
    ensures r.Success? ==> Base64.Decode(s) == Some(r.value)
  {
    match Base64.Decode(s)
    case None => Failure(DecodeFailure)
    case Some(b) => Success(b)
  }

  /** `Signature.String`: unpadded base64url encoding, undone by
      `SignatureFromString`. */
  function String(sig: Signature): (s: string)
    ensures SignatureFromString(s) == Success(sig)
    ensures |s| == (8 * |sig| + 5) / 6
  {
    Base64.DecodeEncode(sig);
    Base64.Encode(sig)
  }

  // ---------------------------------------------------------------- properties

  /** Every form of a pair's private key makes `Sign` behave the same: the
      pair, its key, and its marshalled bytes. */
  lemma SignForms(lib: Library, pair: KeyPair, data: Bytes)
    requires PrivateKeyCodec(lib) && pair.privateKey.Some?
    ensures Sign(lib, PrivateOfPair(pair), data) == SignByPrivateKey(lib, pair.privateKey.value, data)
    ensures Sign(lib, RawPrivateKey(pair.privateKey.value), data) == SignByPrivateKey(lib, pair.privateKey.value, data)
    ensures Sign(lib, PrivateKeyBytes(pair.MarshalPrivateKey(lib)), data) == SignByPrivateKey(lib, pair.privateKey.value, data)
  {
    PrivateKeyForms(lib, pair);
  }

  /** When the private key bytes do not decode, `SignByBytes` fails with a
      key error without calling the signing primitive: replacing the
      primitive changes nothing. */
  lemma SignByBytesDecodeFailure(lib: Library, key: Bytes, data: Bytes, other: (Bytes, PrivateKey) -> Option<Bytes>)
    requires lib.toECDSA(key).None?
    ensures SignByBytes(lib, key, data) == Failure(MalformedKey)
    ensures SignByBytes(lib.(sign := other), key, data) == Failure(MalformedKey)
  {
  }

  /** Signing and verification see the message only through its Keccak-256
      digest: two messages with one digest are indistinguishable to both. */
  lemma OnlyDigestReachesPrimitives(lib: Library, sk: PrivateKeyLike, vk: PublicKeyLike, m1: Bytes, m2: Bytes, sig: Signature)
    requires sk.Usable() && vk.Usable() && |sig| >= 1
    requires lib.keccak256(m1) == lib.keccak256(m2)
    ensures Sign(lib, sk, m1) == Sign(lib, sk, m2)
    ensures Verify(lib, vk, m1, sig) == Verify(lib, vk, m2, sig)
  {
  }

  /** The three forms of a valid pair's public key: the pair and its
      marshalled bytes reach the primitive with the compressed key, the raw
      key with the uncompressed encoding. */
  lemma VerifyKeyEncodings(lib: Library, pair: KeyPair, data: Bytes, sig: Signature)
    requires pair.publicKey.Some? && |sig| >= 1
    ensures VerificationKey(lib, PublicOfPair(pair)) == lib.compressPubkey(pair.publicKey.value)
    ensures VerificationKey(lib, PublicKeyBytes(pair.MarshalPublicKey(lib))) == lib.compressPubkey(pair.publicKey.value)
    ensures VerificationKey(lib, RawPublicKey(pair.publicKey.value)) == lib.fromECDSAPub(pair.publicKey.value)
    ensures Verify(lib, PublicOfPair(pair), data, sig) == Verify(lib, PublicKeyBytes(pair.MarshalPublicKey(lib)), data, sig)
  {
  }

  /** When the library parses both key encodings to the same point, every
      form of the public key of a pair holding the point derived from `k`
      gives the same `Verify` result, for any signature, genuine or not. The
      pair need not hold `k` itself, so a public-only pair is covered. */
  lemma VerifyForms(lib: Library, pair: KeyPair, k: PrivateKey, data: Bytes, sig: Signature)
    requires KeyEncodingsAgree(lib) && pair.publicKey == Some(lib.publicOf(k)) && |sig| >= 1
    ensures Verify(lib, RawPublicKey(pair.publicKey.value), data, sig) == Verify(lib, PublicOfPair(pair), data, sig)
    ensures Verify(lib, PublicKeyBytes(pair.MarshalPublicKey(lib)), data, sig) == Verify(lib, PublicOfPair(pair), data, sig)
  {
    assert lib.verifySignature(lib.compressPubkey(lib.publicOf(k)), lib.keccak256(data), sig[..|sig| - 1])
      == lib.verifySignature(lib.fromECDSAPub(lib.publicOf(k)), lib.keccak256(data), sig[..|sig| - 1]);
  }

  /** A signature made with any form of a key verifies with any form of its
      public key, compressed or uncompressed, and is 65 bytes long. */
  lemma SignVerifyRoundTrip(lib: Library, sk: PrivateKeyLike, vk: PublicKeyLike, data: Bytes)
    requires DigestSize(lib) && SigningSound(lib) && sk.Usable() && vk.Usable()
    requires sk.Canonical(lib).Success?
    requires var pub := lib.publicOf(sk.Canonical(lib).value);
      VerificationKey(lib, vk) == lib.compressPubkey(pub) || VerificationKey(lib, vk) == lib.fromECDSAPub(pub)
    ensures Sign(lib, sk, data).Success? && |Sign(lib, sk, data).value| == SignatureLength
    ensures Verify(lib, vk, data, Sign(lib, sk, data).value) == Pass
  {
    var k := sk.Canonical(lib).value;
    var h := lib.keccak256(data);
    assert |h| == DigestLength;
    assert lib.sign(h, k).Some?;
  }

  /** The test's sign-then-verify: a signature made with a valid pair
      verifies with the pair, with its public key and with its marshalled
      public key. */
  lemma SignVerifyPairings(lib: Library, pair: KeyPair, data: Bytes)
    requires Lawful(lib) && pair.Valid(lib) && pair.privateKey.Some?
    ensures Sign(lib, PrivateOfPair(pair), data).Success?
    ensures var sig := Sign(lib, PrivateOfPair(pair), data).value;
      && |sig| == SignatureLength
      && Verify(lib, PublicOfPair(pair), data, sig) == Pass
      && Verify(lib, RawPublicKey(pair.publicKey.value), data, sig) == Pass
      && Verify(lib, PublicKeyBytes(pair.MarshalPublicKey(lib)), data, sig) == Pass
  {
    var sk := PrivateOfPair(pair);
    SignVerifyRoundTrip(lib, sk, PublicOfPair(pair), data);
    SignVerifyRoundTrip(lib, sk, RawPublicKey(pair.publicKey.value), data);
    SignVerifyRoundTrip(lib, sk, PublicKeyBytes(pair.MarshalPublicKey(lib)), data);
  }

  /** A signature made by `Sign` has 65 bytes, an 87-character string form,
      and that string decodes to the same 65 bytes (87 * 6 / 8 == 65). */
  lemma SignatureStringShape(lib: Library, sk: PrivateKeyLike, data: Bytes)
    requires DigestSize(lib) && SigningSound(lib) && sk.Usable() && sk.Canonical(lib).Success?
    ensures Sign(lib, sk, data).Success?
    ensures var sig := Sign(lib, sk, data).value;
      && |sig| == SignatureLength
      && |String(sig)| == 87
      && SignatureFromString(String(sig)) == Success(sig)
      && |String(sig)| * 6 / 8 == SignatureLength
  {
  }

  /** The signature string of the tests. It is written as six literals of
      at most 16 characters because the verifier checks short literals far
      more cheaply than one long one. */
  const TestSignatureString: string :=
    TestSignatureHead + TestSignatureTail
  const TestSignatureHead: string := "DbnHCbFJxmcHFqK4" + "_hks5js72_6YfzkM" + "vEL1SdJnZx8meUKA"
  const TestSignatureTail: string := "ZZ5U2BsAVRmZcdpB" + "kCo-yKYnke7ZpB6v" + "SvcCJQA"

  /** The test string parses to a 65-byte signature whose string form is the
      test string again. */
  lemma TestSignatureStringRoundTrip()
    ensures SignatureFromString(TestSignatureString).Success?
    ensures |SignatureFromString(TestSignatureString).value| == SignatureLength
    ensures String(SignatureFromString(TestSignatureString).value) == TestSignatureString
  {
    TestSignatureStringCanonical();
    Base64.EncodeDecode(TestSignatureString);
    Base64.DecodeLength(TestSignatureString);
  }

  /** The test string is one that `Base64.Encode` produces: 87 alphabet
      characters whose last one leaves the two unused bits zero. */
  lemma TestSignatureStringCanonical()
    ensures Base64.Canonical(TestSignatureString)
  {
    TestSignatureHeadAlphabet();
    TestSignatureTailAlphabet();
    Base64.AllInAlphabetConcat(TestSignatureHead, TestSignatureTail);
    assert |TestSignatureString| == 87 && TestSignatureString[86] == 'A';
  }

  lemma TestSignatureHeadAlphabet()
    ensures Base64.AllInAlphabet(TestSignatureHead)
  {
    Base64.AllInAlphabetConcat("DbnHCbFJxmcHFqK4", "_hks5js72_6YfzkM");
    Base64.AllInAlphabetConcat("DbnHCbFJxmcHFqK4" + "_hks5js72_6YfzkM", "vEL1SdJnZx8meUKA");
  }

  lemma TestSignatureTailAlphabet()
    ensures Base64.AllInAlphabet(TestSignatureTail)
  {
    Base64.AllInAlphabetConcat("ZZ5U2BsAVRmZcdpB", "kCo-yKYnke7ZpB6v");
    Base64.AllInAlphabetConcat("ZZ5U2BsAVRmZcdpB" + "kCo-yKYnke7ZpB6v", "SvcCJQA");
  }
}
