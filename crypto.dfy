/** crypto.go: ECIES encryption to a public key and decryption with the
    matching private key, each accepting its key in any of three forms and
    reducing it to one key before a single call to the primitive. */
module Crypto {
  import opened Types
  import opened Primitives
  import opened Keys

  // ---------------------------------------------------------------- encryption

  /** `EncryptByPublicKey`: ECIES encryption with nil shared information in
      both places. A failing primitive gives an error and no ciphertext. */
  function EncryptByPublicKey(lib: Library, rng: Entropy, key: PublicKey, data: Bytes): (r: Result<Bytes>)
    ensures r.Failure? <==> lib.eciesEncrypt(rng, key, data, [], []).None?
    ensures r.Failure? ==> r.error == EncryptionFailure
    ensures r.Success? ==> lib.eciesEncrypt(rng, key, data, [], []) == Some(r.value)
  {
    match lib.eciesEncrypt(rng, key, data, [], [])
    case None => Failure(EncryptionFailure)
    case Some(c) => Success(c)
  }

  /** `EncryptByKeyPair`: encrypts to the pair's public key; with a valid
      pair that holds its private key, `DecryptByKeyPair` undoes it. */
  function EncryptByKeyPair(lib: Library, rng: Entropy, pair: KeyPair, data: Bytes): (r: Result<Bytes>)
    reads pair
    requires pair.publicKey.Some?
    ensures r.Failure? <==> lib.eciesEncrypt(rng, pair.publicKey.value, data, [], []).None?
    ensures r.Failure? ==> r.error == EncryptionFailure
    ensures EciesSound(lib) && pair.Valid(lib) && pair.privateKey.Some? ==>
      r.Success? && DecryptByKeyPair(lib, pair, r.value) == Success(data)
  {
    EncryptByPublicKey(lib, rng, pair.publicKey.value, data)
  }

  /** `EncryptByBytes`: decodes a compressed public key first; a key that
      does not decode is an error and nothing is encrypted. */
  function EncryptByBytes(lib: Library, rng: Entropy, key: Bytes, data: Bytes): (r: Result<Bytes>)
    ensures lib.decompressPubkey(key).None? ==> r == Failure(MalformedKey)
    ensures lib.decompressPubkey(key).Some? ==>
      r == EncryptByPublicKey(lib, rng, lib.decompressPubkey(key).value, data)
  {
    match UnmarshalPublicKey(lib, key)
    case Failure(_) => Failure(MalformedKey)
    case Success(pub) => EncryptByPublicKey(lib, rng, pub, data)
  }

  /** The public key each form of `Encrypt`'s argument reduces to: the
      pair's, the key itself, or the decoded bytes. */
  function EncryptionKey(lib: Library, k: PublicKeyLike): (r: Result<PublicKey>)
    reads k.Footprint()
    requires k.Usable()
    ensures r.Failure? ==> k.PublicKeyBytes? && r.error == MalformedKey
  {
    match k
    case PublicOfPair(pair) => Success(pair.publicKey.value)
    case RawPublicKey(key) => Success(key)
    case PublicKeyBytes(bytes) => UnmarshalPublicKey(lib, bytes)
  }

  /** `Encrypt`: one ECIES call with the reduced key, or the decoding error. */
  function Encrypt(lib: Library, rng: Entropy, k: PublicKeyLike, data: Bytes): (r: Result<Bytes>)
    reads k.Footprint()
    requires k.Usable()
    ensures EncryptionKey(lib, k).Failure? ==> r == Failure(MalformedKey)
    ensures EncryptionKey(lib, k).Success? ==> r == EncryptByPublicKey(lib, rng, EncryptionKey(lib, k).value, data)
  {
    match k
    case PublicOfPair(pair) => EncryptByKeyPair(lib, rng, pair, data)
    case RawPublicKey(key) => EncryptByPublicKey(lib, rng, key, data)
    case PublicKeyBytes(bytes) => EncryptByBytes(lib, rng, bytes, data)
  }

  // ---------------------------------------------------------------- decryption

  /** `DecryptByPrivateKey`: ECIES decryption with nil shared information in
      both places. A failing primitive gives an error and no plaintext. */
  function DecryptByPrivateKey(lib: Library, key: PrivateKey, data: Bytes): (r: Result<Bytes>)
    ensures r.Failure? <==> lib.eciesDecrypt(key, data, [], []).None?
    ensures r.Failure? ==> r.error == DecryptionFailure
    ensures r.Success? ==> lib.eciesDecrypt(key, data, [], []) == Some(r.value)
  {
    match lib.eciesDecrypt(key, data, [], [])
    case None => Failure(DecryptionFailure)
    case Some(m) => Success(m)
  }

  /** `DecryptByKeyPair`: decrypts with the pair's private key. */
  function DecryptByKeyPair(lib: Library, pair: KeyPair, data: Bytes): (r: Result<Bytes>)
    reads pair
    requires pair.privateKey.Some?
    ensures r.Failure? <==> lib.eciesDecrypt(pair.privateKey.value, data, [], []).None?
    ensures r.Failure? ==> r.error == DecryptionFailure
    ensures r.Success? ==> lib.eciesDecrypt(pair.privateKey.value, data, [], []) == Some(r.value)
  {
    DecryptByPrivateKey(lib, pair.privateKey.value, data)
  }

  /** `DecryptByBytes`: the Go code unmarshals the bytes into a fresh
      `&KeyPair{}` and uses its private key, which by the contract of
      `KeyPair.UnmarshalPrivateKey` is the decoder's result. */
  function DecryptByBytes(lib: Library, key: Bytes, data: Bytes): (r: Result<Bytes>)
    ensures lib.toECDSA(key).None? ==> r == Failure(MalformedKey)
    ensures lib.toECDSA(key).Some? ==> r == DecryptByPrivateKey(lib, lib.toECDSA(key).value, data)
  {
    match lib.toECDSA(key)
    case None => Failure(MalformedKey)
    case Some(priv) => DecryptByPrivateKey(lib, priv, data)
  }

  /** `Decrypt`: one ECIES call with the reduced key, or the decoding error. */
  function Decrypt(lib: Library, k: PrivateKeyLike, data: Bytes): (r: Result<Bytes>)
    reads k.Footprint()
    requires k.Usable()
    ensures k.Canonical(lib).Failure? ==> r == Failure(MalformedKey)
    ensures k.Canonical(lib).Success? ==> r == DecryptByPrivateKey(lib, k.Canonical(lib).value, data)
  {
    match k
    case PrivateOfPair(pair) => DecryptByKeyPair(lib, pair, data)
    case RawPrivateKey(key) => DecryptByPrivateKey(lib, key, data)
    case PrivateKeyBytes(bytes) => DecryptByBytes(lib, bytes, data)
  }

  // ---------------------------------------------------------------- properties

  /** Every form of the public key of a pair holding the point derived from
      `k` reduces to that point: the pair, its key, and its marshalled bytes.
      So `Encrypt` behaves the same whichever form it is given. The pair need
      not hold `k` itself, so a public-only pair is covered. */
  lemma PublicKeyForms(lib: Library, rng: Entropy, pair: KeyPair, k: PrivateKey, data: Bytes)
    requires PublicKeyCodec(lib) && pair.publicKey == Some(lib.publicOf(k))
    ensures EncryptionKey(lib, PublicOfPair(pair)) == Success(pair.publicKey.value)
    ensures EncryptionKey(lib, RawPublicKey(pair.publicKey.value)) == Success(pair.publicKey.value)
    ensures EncryptionKey(lib, PublicKeyBytes(pair.MarshalPublicKey(lib))) == Success(pair.publicKey.value)
    ensures Encrypt(lib, rng, PublicOfPair(pair), data) == Encrypt(lib, rng, RawPublicKey(pair.publicKey.value), data)
    ensures Encrypt(lib, rng, PublicKeyBytes(pair.MarshalPublicKey(lib)), data) == Encrypt(lib, rng, RawPublicKey(pair.publicKey.value), data)
  {
  }

  /** Every form of a pair's private key makes `Decrypt` behave the same. */
  lemma DecryptForms(lib: Library, pair: KeyPair, data: Bytes)
    requires PrivateKeyCodec(lib) && pair.privateKey.Some?
    ensures Decrypt(lib, PrivateOfPair(pair), data) == Decrypt(lib, RawPrivateKey(pair.privateKey.value), data)
    ensures Decrypt(lib, PrivateKeyBytes(pair.MarshalPrivateKey(lib)), data) == Decrypt(lib, RawPrivateKey(pair.privateKey.value), data)
  {
    PrivateKeyForms(lib, pair);
  }

  /** When the public key bytes do not decode, `EncryptByBytes` fails with a
      key error without calling the ECIES primitive: replacing the primitive
      changes nothing. */
  lemma EncryptByBytesDecodeFailure(lib: Library, rng: Entropy, key: Bytes, data: Bytes,
                                    other: (Entropy, PublicKey, Bytes, Bytes, Bytes) -> Option<Bytes>)
    requires lib.decompressPubkey(key).None?
    ensures EncryptByBytes(lib, rng, key, data) == Failure(MalformedKey)
    ensures EncryptByBytes(lib.(eciesEncrypt := other), rng, key, data) == Failure(MalformedKey)
  {
  }

  /** When the private key bytes do not decode, `DecryptByBytes` fails with a
      key error without calling the ECIES primitive. */
  lemma DecryptByBytesDecodeFailure(lib: Library, key: Bytes, data: Bytes,
                                    other: (PrivateKey, Bytes, Bytes, Bytes) -> Option<Bytes>)
    requires lib.toECDSA(key).None?
    ensures DecryptByBytes(lib, key, data) == Failure(MalformedKey)
    ensures DecryptByBytes(lib.(eciesDecrypt := other), key, data) == Failure(MalformedKey)
  {
  }

  /** Encryption to any form of a key's public point, then decryption with
      any form of that key, gives the data back: both sides pass the same
      (empty) shared information. */
  lemma EncryptDecryptRoundTrip(lib: Library, rng: Entropy, e: PublicKeyLike, d: PrivateKeyLike, data: Bytes)
    requires EciesSound(lib) && e.Usable() && d.Usable()
    requires d.Canonical(lib).Success?
    requires EncryptionKey(lib, e) == Success(lib.publicOf(d.Canonical(lib).value))
    ensures Encrypt(lib, rng, e, data).Success?
    ensures Decrypt(lib, d, Encrypt(lib, rng, e, data).value) == Success(data)
  {
    var k := d.Canonical(lib).value;
    assert lib.eciesEncrypt(rng, lib.publicOf(k), data, [], []).Some?;
  }

  /** The three pairings the tests exercise: (pair, pair), (public key,
      private key) and (marshalled public key, marshalled private key). */
  lemma EncryptDecryptPairings(lib: Library, rng: Entropy, pair: KeyPair, data: Bytes)
    requires Lawful(lib) && pair.Valid(lib) && pair.privateKey.Some?
    ensures var c := Encrypt(lib, rng, PublicOfPair(pair), data);
      c.Success? && Decrypt(lib, PrivateOfPair(pair), c.value) == Success(data)
    ensures var c := Encrypt(lib, rng, RawPublicKey(pair.publicKey.value), data);
      c.Success? && Decrypt(lib, RawPrivateKey(pair.privateKey.value), c.value) == Success(data)
    ensures var c := Encrypt(lib, rng, PublicKeyBytes(pair.MarshalPublicKey(lib)), data);
      c.Success? && Decrypt(lib, PrivateKeyBytes(pair.MarshalPrivateKey(lib)), c.value) == Success(data)
  {
    PrivateKeyForms(lib, pair);
    PublicKeyForms(lib, rng, pair, pair.privateKey.value, data);
    EncryptDecryptRoundTrip(lib, rng, PublicOfPair(pair), PrivateOfPair(pair), data);
    EncryptDecryptRoundTrip(lib, rng, RawPublicKey(pair.publicKey.value), RawPrivateKey(pair.privateKey.value), data);
    EncryptDecryptRoundTrip(lib, rng, PublicKeyBytes(pair.MarshalPublicKey(lib)), PrivateKeyBytes(pair.MarshalPrivateKey(lib)), data);
  }
}
