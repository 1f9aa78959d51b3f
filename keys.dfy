/** keys.go: the key pair, its byte encodings and its key file, and the three
    forms in which the other operations accept a key. */
module Keys {
  import opened Types
  import opened Primitives

  /** The file system, as the contents of each file by path. */
  type Files = map<string, Bytes>

  /** `KeyPair`. Both fields are exported pointers in the Go code, nil in a
      `&KeyPair{}`; `UnmarshalPrivateKey` and `LoadPrivateKey` assign them in
      place. */
  class KeyPair {
    var privateKey: Option<PrivateKey>
    var publicKey: Option<PublicKey>

    /** `&KeyPair{}`. */
    constructor ()
      ensures privateKey == None && publicKey == None
    {
      privateKey := None;
      publicKey := None;
    }

    /** The pair invariant: a present private key determines the public key.
        A public-only pair satisfies it. */
    ghost predicate Valid(lib: Library)
      reads this
    {
      privateKey.Some? ==> publicKey == Some(lib.publicOf(privateKey.value))
    }

    /** `MarshalPrivateKey`: `crypto.FromECDSA` of the private key, which is
        nil for a nil key. */
    function MarshalPrivateKey(lib: Library): (b: Bytes)
      reads this
      ensures privateKey.None? ==> b == []
      ensures PrivateKeyCodec(lib) && privateKey.Some? ==> lib.toECDSA(b) == privateKey
    {
      match privateKey
      case None => []
      case Some(k) => lib.fromECDSA(k)
    }

    /** `MarshalPublicKey`: the compressed point. `crypto.CompressPubkey`
        dereferences the key, so the pair must hold one. */
    function MarshalPublicKey(lib: Library): (b: Bytes)
      reads this
      requires publicKey.Some?
      ensures PublicKeyCodec(lib) && Valid(lib) && privateKey.Some? ==> lib.decompressPubkey(b) == publicKey
    {
      lib.compressPubkey(publicKey.value)
    }

    /** `SavePrivateKey`: the file at `file` now holds `MarshalPrivateKey()`;
        every other file is as it was. */
    function SavePrivateKey(lib: Library, files: Files, file: string): (written: Files)
      reads this
      ensures written.Keys == files.Keys + {file}
      ensures written[file] == MarshalPrivateKey(lib)
      ensures forall f | f in files && f != file :: written[f] == files[f]
    {
      files[file := MarshalPrivateKey(lib)]
    }

    /** What `UnmarshalPrivateKey(b)` leaves behind when the public key before
        the call was `previous`: the private key is what the decoder returned
        (nil on failure); on success the public key is re-derived from it and
        the error is nil, on failure the public key is untouched and the error
        says the key was malformed. */
    ghost predicate UnmarshalledFrom(lib: Library, b: Bytes, previous: Option<PublicKey>, err: Outcome)
      reads this
    {
      && privateKey == lib.toECDSA(b)
      && err == (if privateKey.Some? then Pass else Fail(MalformedKey))
      && publicKey == (if privateKey.Some? then Some(lib.publicOf(privateKey.value)) else previous)
    }

    /** `UnmarshalPrivateKey`. Whatever the state before, the pair invariant
        holds after: on failure the private key is nil. */
    method UnmarshalPrivateKey(lib: Library, b: Bytes) returns (err: Outcome)
      modifies this
      ensures UnmarshalledFrom(lib, b, old(publicKey), err)
      ensures Valid(lib)
    {
      privateKey := lib.toECDSA(b);
      if privateKey.None? {
        return Fail(MalformedKey);
      }
      publicKey := Some(lib.publicOf(privateKey.value));
      return Pass;
    }

    /** `LoadPrivateKey`: a missing file is a read error and leaves the pair
        untouched; otherwise it is `UnmarshalPrivateKey` of the file. */
    method LoadPrivateKey(lib: Library, files: Files, file: string) returns (err: Outcome)
      modifies this
      ensures file !in files ==> err == Fail(ReadFailure) && privateKey == old(privateKey) && publicKey == old(publicKey)
      ensures file in files ==> UnmarshalledFrom(lib, files[file], old(publicKey), err) && Valid(lib)
    {
      if file !in files {
        return Fail(ReadFailure);
      }
      err := UnmarshalPrivateKey(lib, files[file]);
    }
  }

  /** `GenerateKeyPair`: a fresh pair holding the generated key and its public
      key, or nil and an error when generation fails. */
  method GenerateKeyPair(lib: Library, rng: Entropy) returns (kp: KeyPair?, err: Outcome)
    ensures err == (if lib.generateKey(rng).Some? then Pass else Fail(KeyGenFailure))
    ensures err.Fail? ==> kp == null
    ensures err.Pass? ==> kp != null && fresh(kp) && kp.privateKey == lib.generateKey(rng) && kp.Valid(lib)
  {
    var key := lib.generateKey(rng);
    if key.None? {
      return null, Fail(KeyGenFailure);
    }
    kp := new KeyPair();
    kp.privateKey := key;
    kp.publicKey := Some(lib.publicOf(key.value));
    err := Pass;
  }

  /** `LoadKeyPair`: nil and the error of `LoadPrivateKey` on failure, else a
      fresh pair holding the decoded key and its public key. */
  method LoadKeyPair(lib: Library, files: Files, file: string) returns (kp: KeyPair?, err: Outcome)
    ensures err == (if file !in files then Fail(ReadFailure)
                    else if lib.toECDSA(files[file]).None? then Fail(MalformedKey)
                    else Pass)
    ensures err.Fail? <==> kp == null
    ensures kp != null ==> fresh(kp) && kp.privateKey == lib.toECDSA(files[file]) && kp.privateKey.Some? && kp.Valid(lib)
  {
    kp := new KeyPair();
    err := kp.LoadPrivateKey(lib, files, file);
    if err.Fail? {
      kp := null;
    }
  }

  /** `UnmarshalPublicKey`: the decompressed point, or nil and an error. */
  function UnmarshalPublicKey(lib: Library, b: Bytes): (r: Result<PublicKey>)
    ensures r.Failure? <==> lib.decompressPubkey(b).None?
    ensures r.Failure? ==> r.error == MalformedKey
    ensures r.Success? ==> lib.decompressPubkey(b) == Some(r.value)
  {
    match lib.decompressPubkey(b)
    case None => Failure(MalformedKey)
    case Some(key) => Success(key)
  }

  /** Marshalling a pair's public key gives some bytes, and unmarshalling
      them gives the public key back. */
  lemma PublicKeyRoundTrip(lib: Library, pair: KeyPair)
    requires PublicKeyCodec(lib) && EncodingsNonEmpty(lib) && pair.Valid(lib) && pair.privateKey.Some?
    ensures |pair.MarshalPublicKey(lib)| > 0
    ensures UnmarshalPublicKey(lib, pair.MarshalPublicKey(lib)) == Success(pair.publicKey.value)
  {
  }

  /** A failed `UnmarshalPrivateKey` on a pair holding a private key leaves
      a public-only pair: no private key, and still the point derived from
      the key it held before. */
  method PublicOnlyAfterFailedUnmarshal(lib: Library, pair: KeyPair, b: Bytes) returns (k: PrivateKey, err: Outcome)
    requires pair.Valid(lib) && pair.privateKey.Some? && lib.toECDSA(b).None?
    modifies pair
    ensures err == Fail(MalformedKey)
    ensures old(pair.privateKey) == Some(k) && pair.publicKey == old(pair.publicKey)
    ensures pair.privateKey.None? && pair.publicKey == Some(lib.publicOf(k))
  {
    k := pair.privateKey.value;
    err := pair.UnmarshalPrivateKey(lib, b);
  }

  /** The private-key round trip of the tests: marshal a pair's private key
      to some bytes, unmarshal them into a new pair, and both fields come out
      equal. */
  method PrivateKeyRoundTrip(lib: Library, pair: KeyPair) returns (restored: KeyPair, err: Outcome)
    requires PrivateKeyCodec(lib) && EncodingsNonEmpty(lib) && pair.Valid(lib) && pair.privateKey.Some?
    ensures |pair.MarshalPrivateKey(lib)| > 0
    ensures err == Pass
    ensures restored.privateKey == pair.privateKey && restored.publicKey == pair.publicKey
  {
    var b := pair.MarshalPrivateKey(lib);
    restored := new KeyPair();
    err := restored.UnmarshalPrivateKey(lib, b);
  }

  /** The key-file round trip of the tests: save a pair's private key, load a
      pair from the same path, and both fields come out equal. */
  method KeyFileRoundTrip(lib: Library, pair: KeyPair, files: Files, file: string) returns (loaded: KeyPair?, err: Outcome)
    requires PrivateKeyCodec(lib) && pair.Valid(lib) && pair.privateKey.Some?
    ensures err == Pass && loaded != null
    ensures loaded.privateKey == pair.privateKey && loaded.publicKey == pair.publicKey
  {
    var written := pair.SavePrivateKey(lib, files, file);
    loaded, err := LoadKeyPair(lib, written, file);
  }

  // ---------------------------------------------------------------- key forms

  /** The key argument of `Decrypt` and `Sign`: the type sets `decryptT` and
      `signT`, which both admit `*KeyPair`, `*ecdsa.PrivateKey` and `[]byte`. */
  datatype PrivateKeyLike =
    | PrivateOfPair(pair: KeyPair)
    | RawPrivateKey(key: PrivateKey)
    | PrivateKeyBytes(bytes: Bytes)
  {
    function Footprint(): set<object>
    {
      if PrivateOfPair? then {pair} else {}
    }

    /** The pair route dereferences the pair's private key, which must not be
        nil. */
    predicate Usable()
      reads Footprint()
    {
      PrivateOfPair? ==> pair.privateKey.Some?
    }

    /** The one private key every route reduces its argument to: the pair's
        key, the key itself, or the decoded bytes. */
    function Canonical(lib: Library): (r: Result<PrivateKey>)
      reads Footprint()
      requires Usable()
      ensures r.Failure? ==> PrivateKeyBytes? && r.error == MalformedKey
    {
      match this
      case PrivateOfPair(pair) => Success(pair.privateKey.value)
      case RawPrivateKey(key) => Success(key)
      case PrivateKeyBytes(bytes) =>
        match lib.toECDSA(bytes)
        case None => Failure(MalformedKey)
        case Some(key) => Success(key)
    }
  }

  /** The key argument of `Encrypt` and `Verify`: the type sets `encryptT`
      and `verifyT`, which both admit `*KeyPair`, `*ecdsa.PublicKey` and
      `[]byte`. */
  datatype PublicKeyLike =
    | PublicOfPair(pair: KeyPair)
    | RawPublicKey(key: PublicKey)
    | PublicKeyBytes(bytes: Bytes)
  {
    function Footprint(): set<object>
    {
      if PublicOfPair? then {pair} else {}
    }

    /** The pair route dereferences the pair's public key, which must not be
        nil. */
    predicate Usable()
      reads Footprint()
    {
      PublicOfPair? ==> pair.publicKey.Some?
    }
  }

  /** Every form of a pair's private key reduces to that key: the pair, its
      key, and its marshalled bytes. */
  lemma PrivateKeyForms(lib: Library, pair: KeyPair)
    requires PrivateKeyCodec(lib) && pair.privateKey.Some?
    ensures PrivateOfPair(pair).Canonical(lib) == Success(pair.privateKey.value)
    ensures RawPrivateKey(pair.privateKey.value).Canonical(lib) == Success(pair.privateKey.value)
    ensures PrivateKeyBytes(pair.MarshalPrivateKey(lib)).Canonical(lib) == Success(pair.privateKey.value)
  {
  }
}
