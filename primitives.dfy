/** The go-ethereum capabilities the core calls into (secp256k1 keys, Keccak-256,
    ECDSA signing and ECIES), kept abstract.

    A `Library` value bundles one function per library call. Nothing about a
    call is known except the laws collected in `Lawful`; every theorem of the
    model that needs a law names it in its `requires`, so the model proves
    "if the library obeys these laws, then ...". `Toy` shows that the laws
    can all hold at once. */
module Primitives {
  import opened Types

  /** The order n of the secp256k1 base point (SEC 2, section 2.4.1). */
  const CurveOrder: nat := 0xFFFF_FFFF_FFFF_FFFF_FFFF_FFFF_FFFF_FFFE_BAAE_DCE6_AF48_A03B_BFD2_5E8C_D036_4141

  /** Length of a Keccak-256 digest. */
  const DigestLength: nat := 32

  /** Length of a recoverable signature R || S || V. */
  const SignatureLength: nat := 65

  /** A private scalar d with 0 < d < n. */
  type Scalar = d: int | 0 < d < CurveOrder witness 1

  /** `ecdsa.PrivateKey`: the scalar. Its embedded public key is `publicOf`. */
  datatype PrivateKey = PrivateKey(d: Scalar)

  /** `ecdsa.PublicKey`: the affine coordinates of a point. */
  datatype PublicKey = PublicKey(x: nat, y: nat)

  /** Bytes drawn from the process's secure random source. */
  type Entropy = Bytes

  /** One function per library call; the comment names the call. */
  datatype Library = Library(
    generateKey: Entropy -> Option<PrivateKey>,       // crypto.GenerateKey
    publicOf: PrivateKey -> PublicKey,                // the PublicKey inside an ecdsa.PrivateKey: d·G
    fromECDSA: PrivateKey -> Bytes,                   // crypto.FromECDSA
    toECDSA: Bytes -> Option<PrivateKey>,             // crypto.ToECDSA (nil key on error)
    compressPubkey: PublicKey -> Bytes,               // crypto.CompressPubkey
    decompressPubkey: Bytes -> Option<PublicKey>,     // crypto.DecompressPubkey (nil key on error)
    fromECDSAPub: PublicKey -> Bytes,                 // crypto.FromECDSAPub
    keccak256: Bytes -> Bytes,                        // crypto.Keccak256
    sign: (Bytes, PrivateKey) -> Option<Bytes>,       // crypto.Sign(digest, key)
    verifySignature: (Bytes, Bytes, Bytes) -> bool,  // crypto.VerifySignature(pub, digest, rs)
    eciesEncrypt: (Entropy, PublicKey, Bytes, Bytes, Bytes) -> Option<Bytes>, // ecies.Encrypt(rand, pub, m, s1, s2)
    eciesDecrypt: (PrivateKey, Bytes, Bytes, Bytes) -> Option<Bytes>)         // ecies PrivateKey.Decrypt(c, s1, s2)

  /** `ToECDSA` reads back what `FromECDSA` wrote. */
  ghost predicate PrivateKeyCodec(lib: Library) {
    forall k :: lib.toECDSA(lib.fromECDSA(k)) == Some(k)
  }

  /** `DecompressPubkey` reads back the compressed form of every public key
      derived from a private key (every point on the curve). */
  ghost predicate PublicKeyCodec(lib: Library) {
    forall k :: lib.decompressPubkey(lib.compressPubkey(lib.publicOf(k))) == Some(lib.publicOf(k))
  }

  /** The key encodings are never empty: `FromECDSA` writes the 32-byte
      scalar and `CompressPubkey` the 33-byte compressed point. Only
      non-emptiness is assumed, which is what the key tests check. */
  ghost predicate EncodingsNonEmpty(lib: Library) {
    forall k :: |lib.fromECDSA(k)| > 0 && |lib.compressPubkey(lib.publicOf(k))| > 0
  }

  /** Keccak-256 digests are 32 bytes long. */
  ghost predicate DigestSize(lib: Library) {
    forall m :: |lib.keccak256(m)| == DigestLength
  }

  /** Signing a 32-byte digest succeeds with a 65-byte signature whose first 64
      bytes verify against the signer's public key in either the compressed
      or the uncompressed encoding. */
  ghost predicate SigningSound(lib: Library) {
    forall h, k | |h| == DigestLength ::
      && lib.sign(h, k).Some?
      && |lib.sign(h, k).value| == SignatureLength
      && lib.verifySignature(lib.compressPubkey(lib.publicOf(k)), h, lib.sign(h, k).value[..SignatureLength - 1])
      && lib.verifySignature(lib.fromECDSAPub(lib.publicOf(k)), h, lib.sign(h, k).value[..SignatureLength - 1])
  }

  /** `VerifySignature` parses its key argument to a point, so the compressed
      and the uncompressed encoding of one public key verify the same
      signatures. */
  ghost predicate KeyEncodingsAgree(lib: Library) {
    forall k, h, s ::
      lib.verifySignature(lib.compressPubkey(lib.publicOf(k)), h, s)
        == lib.verifySignature(lib.fromECDSAPub(lib.publicOf(k)), h, s)
  }

  /** ECIES encryption to a key's public point succeeds, and decryption with the
      key and the same two shared-information parameters gives the message back. */
  ghost predicate EciesSound(lib: Library) {
    forall r, k, m, s1, s2 ::
      && lib.eciesEncrypt(r, lib.publicOf(k), m, s1, s2).Some?
      && lib.eciesDecrypt(k, lib.eciesEncrypt(r, lib.publicOf(k), m, s1, s2).value, s1, s2) == Some(m)
  }

  /** All the laws the model assumes of the library. */
  ghost predicate Lawful(lib: Library) {
    && PrivateKeyCodec(lib)
    && PublicKeyCodec(lib)
    && EncodingsNonEmpty(lib)
    && DigestSize(lib)
    && SigningSound(lib)
    && KeyEncodingsAgree(lib)
    && EciesSound(lib)
  }

  /** A deliberately insecure library in which every law holds: keys are
      written in unary, encryption is the identity and every signature
      verifies. */
  function Toy(): Library {
    Library(
      _ => None,
      (k: PrivateKey) => PublicKey(k.d, 0),
      (k: PrivateKey) => seq(k.d, _ => 0),
      b => if 0 < |b| < CurveOrder then Some(PrivateKey(|b|)) else None,
      (p: PublicKey) => seq(p.x, _ => 0),
      b => Some(PublicKey(|b|, 0)),
      p => [],
      m => seq(DigestLength, _ => 0),
      (h, k) => Some(seq(SignatureLength, _ => 0)),
      (p, h, s) => true,
      (r, p, m, s1, s2) => Some(m),
      (k, c, s1, s2) => Some(c))
  }

  /** The laws are consistent: some library satisfies them all. */
  lemma ToyIsLawful()
    ensures Lawful(Toy())
  {
  }
}
