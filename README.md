# crypto: a Dafny model

`skamenetskiy/crypto` is a small Go facade over go-ethereum's secp256k1 keys,
Keccak-256, ECDSA signatures and ECIES encryption. This project models that
facade and proves properties about it:

- **`KeyPair`** (`keys.dfy`, module `Keys`). The pair is a class whose two
  optional fields are nil in an empty pair. The key pair invariant is that the
  public key is the point derived from the private key.
  - `GenerateKeyPair`, `UnmarshalPrivateKey`, `LoadPrivateKey` and
    `LoadKeyPair` are methods that establish or keep that invariant.
  - The marshalling functions round-trip.
  - A key file is one entry in a map from paths to bytes.
- **Encryption** (`crypto.dfy`, module `Crypto`) and **signatures**
  (`signatures.dfy`, module `Signatures`). `Encrypt`, `Decrypt`, `Sign` and
  `Verify` each accept a key in three forms: a pair, a raw key, or bytes.
  - Each Go type set (`encryptT`, `decryptT`, `signT`, `verifyT`) becomes a
    closed three-variant datatype (`PublicKeyLike`, `PrivateKeyLike`), so the
    unreachable "unknown key type" branches do not exist.
  - Each entry point reduces its key to one canonical key and makes a single
    call to the primitive, or returns the decoding error without calling it.
  - Results are the same whichever form is passed, for any pair whose public
    key is the point derived from some private key. That includes a
    public-only pair, which a failed `UnmarshalPrivateKey` leaves behind.
    For `Verify` this rests on a law that the library reads the compressed and the uncompressed
    encoding of a key as the same point. Only the Keccak-256 digest reaches
    the signing and verification primitives. Round trips succeed.
- **The signature string** (`base64.dfy`, module `Base64`). This is the
  unpadded "base64url" encoding of section 5 of RFC 4648, as Go's
  `base64.RawURLEncoding` implements it.
  - It is defined byte by byte.
  - Both round trips are proved, along with the length relations: 65 bytes
    give 87 characters, and 87 characters decode to 87 * 6 / 8 = 65 bytes.
- **Primitives** (`primitives.dfy`, module `Primitives`).
  - The go-ethereum calls are fields of a `Library` value of functions.
  - The laws the model relies on are ghost predicates: codec round trips,
    non-empty key encodings, digest size, signing soundness, agreement of the two public-key
    encodings under verification, ECIES soundness, and their conjunction
    `Lawful`.
  - Theorems name the laws they need in their `requires`.
  - `Toy` is a deliberately trivial library that satisfies all the laws, so
    the laws are consistent.
- **Shared types** (`types.dfy`, module `Types`): bytes, `Option`, `Result`,
  and an `Outcome` standing in for Go's `error` return.

The model does not run anything. Randomness is an `Entropy` argument, and the
file system is a `map<string, Bytes>`.

## Model

| member | source | states |
|---|---|---|
| Keys.KeyPair.constructor | keys.go:33-36 | `&KeyPair{}`: both fields nil |
| Keys.KeyPair.MarshalPrivateKey | keys.go:39-41 | an empty pair marshals to no bytes; with the codec law, the bytes decode back to the pair's private key |
| Keys.KeyPair.MarshalPublicKey | keys.go:76-78 | for a valid pair with a private key, decompressing the bytes gives the pair's public key (with the codec law) |
| Keys.KeyPair.SavePrivateKey | keys.go:44-54 | afterwards the file holds `MarshalPrivateKey()`, and every other file is unchanged |
| Keys.KeyPair.UnmarshalPrivateKey | keys.go:57-64 | the private key becomes the decoder's result, nil on failure. On success the public key is re-derived and no error is returned. On failure the public key is untouched and a malformed-key error is returned. The pair invariant holds afterwards in both cases |
| Keys.KeyPair.LoadPrivateKey | keys.go:67-73 | a missing file is a read error and leaves both fields unchanged. Otherwise it behaves exactly as `UnmarshalPrivateKey` of the file's contents |
| Keys.GenerateKeyPair | keys.go:12-21 | failure of key generation gives nil and an error. Success gives a fresh pair holding the generated key, and the pair satisfies the invariant |
| Keys.LoadKeyPair | keys.go:24-30 | the error is a read error for a missing file, a malformed-key error for undecodable contents, and none otherwise. The pair is nil exactly when there is an error; otherwise it is fresh, holds the decoded key and satisfies the invariant |
| Keys.UnmarshalPublicKey | keys.go:81-87 | fails exactly when decompression fails, with a malformed-key error; otherwise returns the decompressed point |
| Keys.PublicKeyRoundTrip | keys_test.go:41-58 | `MarshalPublicKey()` of a valid pair holding its private key is not empty, and unmarshalling it gives the pair's public key |
| Keys.PrivateKeyRoundTrip | keys_test.go:24-39 | `MarshalPrivateKey()` of a valid pair holding its private key is not empty; unmarshalling it into a new pair succeeds, and both fields equal the original's |
| Keys.PublicOnlyAfterFailedUnmarshal | keys.go:57-64 | an `UnmarshalPrivateKey` that fails on a pair holding a private key returns a malformed-key error and leaves a public-only pair: no private key, and the public key exactly as it was, which is the point derived from the private key it held before the call |
| Keys.KeyFileRoundTrip | keys_test.go:60-77 | saving the private key and loading a pair from the same path succeeds, and both fields equal the original's |
| Keys.PrivateKeyLike.Canonical | signatures.go:16-40 | the private key a `decryptT`/`signT` argument reduces to. Only the bytes form can fail, and its failure is a malformed-key error |
| Keys.PrivateKeyForms | signatures.go:16-40 | the pair, its private key and its marshalled bytes all reduce to the same private key |
| Crypto.EncryptByPublicKey | crypto.go:43-49 | fails exactly when ECIES encryption with empty shared information fails; it then returns no ciphertext and an encryption error. Otherwise it returns the primitive's ciphertext |
| Crypto.EncryptionKey | crypto.go:16-40 | the public key an `encryptT` argument reduces to. Only the bytes form can fail, and its failure is a malformed-key error |
| Crypto.EncryptByKeyPair | crypto.go:38-40 | fails exactly when ECIES encryption to the pair's public key fails, with an encryption error. For a valid pair holding its private key under the ECIES law, it succeeds and `DecryptByKeyPair` returns the data |
| Crypto.EncryptByBytes | crypto.go:29-35 | bytes that do not decompress give a malformed-key error. Otherwise the result is `EncryptByPublicKey` with the decompressed key |
| Crypto.Encrypt | crypto.go:16-40 | a key that fails to decode gives a malformed-key error. Otherwise the result is one `EncryptByPublicKey` call with the reduced key |
| Crypto.DecryptByPrivateKey | crypto.go:83-90 | fails exactly when ECIES decryption with empty shared information fails; it then returns no plaintext and a decryption error. Otherwise it returns the primitive's plaintext |
| Crypto.DecryptByKeyPair | crypto.go:78-80 | fails exactly when ECIES decryption with the pair's private key fails, with a decryption error. Otherwise it returns the primitive's plaintext |
| Crypto.DecryptByBytes | crypto.go:69-75 | bytes that do not decode give a malformed-key error. Otherwise the result is `DecryptByPrivateKey` with the decoded key, which is what the fresh pair's `UnmarshalPrivateKey` stores |
| Crypto.Decrypt | crypto.go:56-80 | a key that fails to decode gives a malformed-key error. Otherwise the result is one `DecryptByPrivateKey` call with the reduced key |
| Crypto.PublicKeyForms | crypto.go:16-40 | any pair whose public key is a derived point (a full pair or a public-only one), its public key and its marshalled public key all reduce to that key, so `Encrypt` gives the same result for each |
| Crypto.DecryptForms | crypto.go:56-80 | a pair, its private key and its marshalled private key make `Decrypt` give the same result |
| Crypto.EncryptByBytesDecodeFailure | crypto.go:29-35 | undecodable public key bytes give a malformed-key error whatever the ECIES primitive does |
| Crypto.DecryptByBytesDecodeFailure | crypto.go:69-75 | undecodable private key bytes give a malformed-key error whatever the ECIES primitive does |
| Crypto.EncryptDecryptRoundTrip | crypto.go:44 | encrypting to any form of a key's public point, then decrypting with any form of that key, returns the data. Both sides pass the same empty shared information |
| Crypto.EncryptDecryptPairings | crypto_test.go:8-47 | the three pairings of the test all succeed and return the data: (pair, pair), (public key, private key), and (marshalled public, marshalled private) |
| Signatures.SignByPrivateKey | signatures.go:43-49 | signs the Keccak-256 digest of the data. It fails exactly when the primitive fails, returning a signing error and no signature. Under the laws it always succeeds, with 65 bytes |
| Signatures.SignByKeyPair | signatures.go:38-40 | fails exactly when signing the digest with the pair's private key fails, with a signing error. For a valid pair (which holds its private key) under the laws, it succeeds with 65 bytes that `VerifyByKeyPair` accepts |
| Signatures.SignByBytes | signatures.go:29-35 | bytes that do not decode give a malformed-key error. Otherwise the result is `SignByPrivateKey` with the decoded key |
| Signatures.Sign | signatures.go:16-40 | a key that fails to decode gives a malformed-key error. Otherwise the result is one `SignByPrivateKey` call with the reduced key |
| Signatures.VerifyByBytes | signatures.go:79-84 | needs a non-empty signature. Passes exactly when the primitive accepts the signature without its last byte against the Keccak-256 digest; otherwise returns an invalid-signature error |
| Signatures.VerifyByKeyPair | signatures.go:69-71 | passes exactly when the primitive accepts the signature without its last byte against the compressed public key of the pair and the digest; otherwise an invalid-signature error |
| Signatures.VerifyByPublicKey | signatures.go:74-76 | passes exactly when the primitive accepts the signature without its last byte against the uncompressed encoding of the key and the digest; otherwise an invalid-signature error |
| Signatures.VerificationKey | signatures.go:56-76 | the key bytes `Verify` passes on for each form: the pair's public key compressed (`MarshalPublicKey`), a raw key in the uncompressed `FromECDSAPub` encoding, and bytes as given. Under the codec law, the bytes of a valid pair holding its private key decompress to its public key |
| Signatures.Verify | signatures.go:56-76 | one `VerifyByBytes` call with the key bytes the argument reduces to. Passes exactly when the primitive accepts |
| Signatures.SignatureFromString | signatures.go:87-93 | fails exactly when base64url decoding fails, with a decoding error; otherwise returns the decoded bytes |
| Signatures.String | signatures.go:99-101 | `SignatureFromString` of the result gives the signature back; n bytes give (8n + 5) / 6 characters |
| Signatures.SignForms | signatures.go:16-40 | the pair, its private key and its marshalled bytes all make `Sign` equal `SignByPrivateKey` with the pair's key |
| Signatures.SignByBytesDecodeFailure | signatures.go:29-35 | undecodable private key bytes give a malformed-key error whatever the signing primitive does |
| Signatures.OnlyDigestReachesPrimitives | signatures.go:44 | two messages with the same Keccak-256 digest give the same `Sign` result and the same `Verify` result |
| Signatures.VerifyKeyEncodings | signatures.go:69-76 | the pair route passes the compressed key, and so does the marshalled public key; the raw-key route passes the uncompressed `FromECDSAPub` encoding |
| Signatures.VerifyForms | signatures.go:56-76 | when the two key encodings verify alike, any pair whose public key is a derived point (a full pair or a public-only one), its raw public key and its marshalled public key give the same `Verify` result for every signature |
| Signatures.SignVerifyRoundTrip | signatures.go:80 | a signature made with any form of a key has 65 bytes and verifies with that key's public point in either encoding |
| Signatures.SignVerifyPairings | signatures_test.go:8-31 | a signature made with a valid pair holding its private key verifies with the pair, with its public key, and with its marshalled public key |
| Signatures.SignatureStringShape | signatures_test.go:44-61 | a signature made by `Sign` has 65 bytes and an 87-character string. The string decodes back to the signature, and 87 * 6 / 8 = 65 |
| Signatures.TestSignatureStringCanonical | signatures_test.go:34 | the test's signature string uses only alphabet characters, has 87 of them, and its unused final bits are zero |
| Signatures.TestSignatureStringRoundTrip | signatures_test.go:33-42 | the test's signature string parses to 65 bytes, and those bytes format back to the same string |
| Base64.Encode | signatures.go:100 | the encoding of n bytes has (8n + 5) / 6 characters, all from the URL-safe alphabet |
| Base64.Decode | signatures.go:88 | after skipping `\r` and `\n`, decoding fails exactly on a character outside the alphabet or a length of 1 mod 4; otherwise n characters give n * 6 / 8 bytes, never more bytes than the string has characters. `DecodeEncode`, `EncodeDecode` and `UnpackTotal` below prove it inverts `Encode` |
| Base64.DecodeIgnoresNewlines | signatures.go:88 | stripping `\r` and `\n` before decoding gives the same result as decoding the string with them |
| Base64.EncodeVectors | signatures.go:100 | `Encode` gives "Zm9vYmFy" for "foobar" (section 10 of RFC 4648) and "-_8" for the bytes 0xfb 0xff, fixing the bit order and the two URL-safe characters |
| Base64.DecodeEncode | signatures.go:88 | decoding an encoding gives the bytes back |
| Base64.EncodeDecode | signatures.go:88 | a canonical string decodes, and re-encoding the result gives the string back |
| Base64.EncodeCanonical | signatures.go:100 | every encoding is canonical: it uses only alphabet characters, its length is never 1 mod 4, and its unused bits are zero |
| Base64.DecodeLength | signatures.go:88 | a successful decoding of n alphabet characters yields n * 6 / 8 bytes |
| Base64.UnpackTotal | signatures.go:88 | a sequence of sextets decodes exactly when its length is not 1 mod 4 |
| Base64.PackLength | signatures.go:100 | n bytes become (8n + 5) / 6 sextets |
| Base64.UnpackPack | signatures.go:88 | joining the sextets of split bytes gives the bytes back |
| Base64.PackUnpack | signatures.go:100 | splitting decoded sextets gives them back when their unused bits are zero |
| Base64.SextetsAllInAlphabet | signatures.go:88 | a string maps to sextets exactly when every character is in the alphabet, and then to as many sextets as characters |
| Base64.AllInAlphabetConcat | signatures.go:88 | a concatenation is in the alphabet exactly when both parts are |
| Primitives.ToyIsLawful | signatures.go:44 | some library satisfies every law the model assumes of go-ethereum, at this call and at every other library call in keys.go, crypto.go and signatures.go, so no theorem guarded by the laws holds vacuously |

## Left out

- The internals of secp256k1, Keccak-256, ECDSA and ECIES (section 5.1 of SEC 1). They are library calls. The model knows only the laws in `Primitives.Lawful`, and every theorem that needs a law names it.
- Negative properties of verification, such as unforgeability and the rejection of a wrong key. The only laws about `verifySignature` are that it accepts genuine signatures and that the two encodings of one key verify alike.
- `decompressPubkey`: its round trip is assumed only for points derived from a private key. Arbitrary coordinates need not lie on the curve.
- Randomness. `crypto.GenerateKey` and ECIES's use of `rand.Reader` receive an `Entropy` argument, and no law is assumed about `generateKey`.
- File I/O.
  - The file system is a map from path to bytes.
  - `SavePrivateKey` cannot fail in the model: creation and write errors, and the deferred `Close`, are not modelled.
  - A read error is a missing path.
- The text of error messages and their `%w`/`%v` wrapping. Only which kind of error occurred is modelled.
- Nil arguments. The key datatypes have no nil form, so a nil `*KeyPair`, nil `*ecdsa.PublicKey` or nil `*ecdsa.PrivateKey` cannot be passed to `Encrypt`, `Decrypt`, `Sign`, `Verify` or their `By…` functions. Most of these fault in Go. `Verify` with a nil raw public key does not: `crypto.FromECDSAPub(nil)` gives nil bytes, `VerifySignature` rejects them, and the call returns "invalid signature". That outcome is not modelled.
- Go's nil-pointer faults become preconditions:
  - `Encrypt`/`Verify` with a pair that has no public key;
  - `Decrypt`/`Sign` with a pair that has no private key;
  - `MarshalPublicKey` of a pair without a public key;
  - `VerifyByBytes` with an empty signature, which would fault at the slice.
- `DecryptByBytes` and `SignByBytes` build a fresh `&KeyPair{}` and call `UnmarshalPrivateKey` on it. The model uses the decoder's result directly, which is what `Keys.KeyPair.UnmarshalPrivateKey` is proved to store.
- The byte layout of compressed and uncompressed points and of R || S || V signatures. The signature's 65-byte length is modelled; for the key encodings only their non-emptiness is a law, not their exact 32 and 33 bytes.
- Base64 decoding leniencies other than Go's skipping of `\r` and `\n` and its ignoring of unused trailing bits. Strings are sequences of characters rather than bytes.
