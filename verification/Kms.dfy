/** Sealing of data encryption keys (internal/kms/local_kms_provider.go, kdf.go,
    aws_kms_provider.go).  AES-GCM, HKDF and the remote service are functions of the model's
    parameters, about which only their round-trip laws are used. */
module Kms {
  import opened Domain
  import opened TtlCache

  const NONCE_SIZE: nat := 12
  const DERIVED_KEY_SIZE: nat := 32
  const DERIVED_KEY_TTL: int := 60 * MINUTE

  datatype KmsError = NoMasterKey | BadKeyLength | EmptyCiphertext | TooShort | AuthenticationFailed | RemoteError

  /** `seal` and `open` take a key, a nonce and a text. */
  datatype Primitives = Primitives(
    seal: (Bytes, Bytes, Bytes) -> Bytes,
    open: (Bytes, Bytes, Bytes) -> Option<Bytes>,
    hkdf: (Bytes, Bytes, Bytes) -> Bytes)

  ghost predicate Lawful(p: Primitives) {
    && (forall key, nonce, text :: p.open(key, nonce, p.seal(key, nonce, text)) == Some(text))
    && (forall secret, salt, info :: |p.hkdf(secret, salt, info)| == DERIVED_KEY_SIZE)
  }

  /** The key lengths `aes.NewCipher` accepts. */
  predicate ValidKeyLength(key: Bytes) {
    |key| == 16 || |key| == 24 || |key| == 32
  }

  function EncryptWithKey(p: Primitives, key: Bytes, nonce: Bytes, plaintext: Bytes): Result<Bytes, KmsError> {
    if !ValidKeyLength(key) then Err(BadKeyLength) else Ok(nonce + p.seal(key, nonce, plaintext))
  }

  function DecryptWithKey(p: Primitives, key: Bytes, ciphertext: Bytes): Result<Bytes, KmsError> {
    if ciphertext == [] then Err(EmptyCiphertext)
    else if !ValidKeyLength(key) then Err(BadKeyLength)
    else if |ciphertext| < NONCE_SIZE then Err(TooShort)
    else match p.open(key, ciphertext[..NONCE_SIZE], ciphertext[NONCE_SIZE..])
      case None => Err(AuthenticationFailed)
      case Some(text) => Ok(text)
  }

  function AsciiBytes(s: string): Bytes {
    seq(|s|, i requires 0 <= i < |s| => (s[i] as int % 256) as byte)
  }

  function Salt(id: KeyId): Bytes { AsciiBytes("polykey-salt:" + id) }

  function Info(id: KeyId): Bytes { AsciiBytes(id) }

  /** The key-encryption key of an id: a function of the master key and the id alone. */
  function DerivedKey(p: Primitives, master: Bytes, id: KeyId): Result<Bytes, KmsError> {
    if master == [] then Err(NoMasterKey)
    else Ok(p.hkdf(master, Salt(id), Info(id)))
  }

  function LocalEncrypt(p: Primitives, master: Bytes, id: KeyId, nonce: Bytes, dek: Bytes): Result<Bytes, KmsError> {
    match DerivedKey(p, master, id)
    case Err(e) => Err(e)
    case Ok(key) => EncryptWithKey(p, key, nonce, dek)
  }

  /** Decryption falls back to the bare master key, for keys sealed before derivation existed. */
  function LocalDecrypt(p: Primitives, master: Bytes, id: KeyId, ciphertext: Bytes): Result<Bytes, KmsError> {
    match DerivedKey(p, master, id)
    case Err(e) => Err(e)
    case Ok(key) =>
      var first := DecryptWithKey(p, key, ciphertext);
      if first.Ok? then first else DecryptWithKey(p, master, ciphertext)
  }

  /** The format: twelve bytes of nonce, then the sealed text; and only keys of an AES length seal. */
  lemma SealedFormat(p: Primitives, key: Bytes, nonce: Bytes, text: Bytes)
    requires |nonce| == 12
    ensures
      var r := EncryptWithKey(p, key, nonce, text);
      && (r.Ok? <==> |key| in {16, 24, 32})
      && (r.Err? ==> r.error == BadKeyLength)
      && (r.Ok? ==> |r.value| >= 12 && r.value[..12] == nonce && r.value[12..] == p.seal(key, nonce, text))
  {
  }

  /** Opening fails exactly for a bad key length, a ciphertext without room for a nonce, or a text that does
      not authenticate. */
  lemma OpenFailsIff(p: Primitives, key: Bytes, ciphertext: Bytes)
    ensures
      var r := DecryptWithKey(p, key, ciphertext);
      && (r == Err(EmptyCiphertext) <==> |ciphertext| == 0)
      && (r == Err(BadKeyLength) <==> |ciphertext| > 0 && |key| !in {16, 24, 32})
      && (r == Err(TooShort) <==> 0 < |ciphertext| < 12 && |key| in {16, 24, 32})
      && (r.Ok? <==> |ciphertext| >= 12 && |key| in {16, 24, 32} && p.open(key, ciphertext[..12], ciphertext[12..]).Some?)
      && (r.Ok? ==> Some(r.value) == p.open(key, ciphertext[..12], ciphertext[12..]))
  {
  }

  /** Salt and info of section 2 of RFC 5869: different ids never share either. */
  lemma DerivationInputsDiffer(a: KeyId, b: KeyId)
    requires Salt(a) == Salt(b) || Info(a) == Info(b)
    ensures a == b
  {
    if Info(a) == Info(b) {
      forall i | 0 <= i < 36 ensures a[i] == b[i] { assert Info(a)[i] == Info(b)[i]; AsciiChar(a, i); AsciiChar(b, i); }
    } else {
      forall i | 0 <= i < 36 ensures a[i] == b[i] {
        assert Salt(a)[13 + i] == Salt(b)[13 + i];
        AsciiChar(a, i);
        AsciiChar(b, i);
      }
    }
    assert a == b;
  }

  lemma AsciiChar(id: KeyId, i: int)
    requires 0 <= i < 36
    ensures id[i] as int < 128
  {
    assert if IsDashPosition(i) then id[i] == '-' else IsLowerHex(id[i]);
  }

  /** The derived key is HKDF of the master key with that salt and info. */
  lemma DerivedKeyIs(p: Primitives, master: Bytes, id: KeyId)
    ensures DerivedKey(p, master, id).Ok? <==> |master| > 0
    ensures |master| > 0 ==> DerivedKey(p, master, id).value == p.hkdf(master, Salt(id), Info(id))
  {
  }

  lemma SealOpens(p: Primitives, key: Bytes, nonce: Bytes, text: Bytes)
    requires Lawful(p) && |nonce| == NONCE_SIZE && ValidKeyLength(key)
    ensures DecryptWithKey(p, key, EncryptWithKey(p, key, nonce, text).value) == Ok(text)
  {
    var ciphertext := EncryptWithKey(p, key, nonce, text).value;
    assert ciphertext[..NONCE_SIZE] == nonce;
    assert ciphertext[NONCE_SIZE..] == p.seal(key, nonce, text);
  }

  /** Splitting off the nonce undoes prefixing it: what the local provider seals it opens, and it
      can seal whenever there is a master key. */
  lemma LocalRoundTrip(p: Primitives, master: Bytes, id: KeyId, nonce: Bytes, dek: Bytes)
    requires Lawful(p) && |nonce| == NONCE_SIZE
    ensures LocalEncrypt(p, master, id, nonce, dek).Ok? <==> master != []
    ensures master != [] ==>
      LocalDecrypt(p, master, id, LocalEncrypt(p, master, id, nonce, dek).value) == Ok(dek)
  {
    if master != [] {
      SealOpens(p, DerivedKey(p, master, id).value, nonce, dek);
    }
  }

  /** A DEK sealed under the bare master key still opens, exactly unless the derived key happens
      to open that ciphertext to something else: the fallback is only tried after a failure. */
  lemma LegacyRoundTripIff(p: Primitives, master: Bytes, id: KeyId, nonce: Bytes, dek: Bytes)
    requires Lawful(p) && |nonce| == NONCE_SIZE && ValidKeyLength(master)
    ensures
      var ciphertext := EncryptWithKey(p, master, nonce, dek).value;
      LocalDecrypt(p, master, id, ciphertext) == Ok(dek) <==>
        p.open(DerivedKey(p, master, id).value, nonce, p.seal(master, nonce, dek)) in {None, Some(dek)}
  {
    SealOpens(p, master, nonce, dek);
    var ciphertext := EncryptWithKey(p, master, nonce, dek).value;
    assert ciphertext[..NONCE_SIZE] == nonce;
    assert ciphertext[NONCE_SIZE..] == p.seal(master, nonce, dek);
  }

  /** The provider with its cache of derived keys. */
  class LocalProvider {
    const primitives: Primitives
    const master: Bytes
    const derivedKeys: Cache<KeyId, Bytes>

    /** Whatever is cached for an id, expired or not, is that id's derived key. */
    ghost predicate Valid()
      reads derivedKeys
    {
      && derivedKeys.defaultTtl == DERIVED_KEY_TTL
      && forall id :: id in derivedKeys.items ==> DerivedKey(primitives, master, id) == Ok(derivedKeys.items[id].value)
    }

    constructor (primitives: Primitives, master: Bytes)
      ensures Valid() && fresh(derivedKeys)
      ensures this.primitives == primitives && this.master == master
      ensures derivedKeys.items == map[] && derivedKeys.defaultTtl == 60 * MINUTE
    {
      this.primitives := primitives;
      this.master := master;
      derivedKeys := new Cache(DERIVED_KEY_TTL);
    }

    method GetDerivedKey(id: KeyId, now: Time) returns (r: Result<Bytes, KmsError>)
      requires Valid()
      modifies derivedKeys
      ensures Valid() && r == DerivedKey(primitives, master, id)
      ensures r.Ok? ==> Lookup(derivedKeys.items, id, now) == Some(r.value)
    {
      var cached := derivedKeys.Get(id, now);
      if cached.Some? {
        return Ok(cached.value);
      }
      r := DerivedKey(primitives, master, id);
      if r.Ok? {
        derivedKeys.Set(id, r.value, 0, now);
      }
    }

    method EncryptDek(dek: Bytes, id: KeyId, nonce: Bytes, now: Time) returns (r: Result<Bytes, KmsError>)
      requires Valid()
      modifies derivedKeys
      ensures Valid() && r == LocalEncrypt(primitives, master, id, nonce, dek)
    {
      var key := GetDerivedKey(id, now);
      if key.Err? {
        return Err(key.error);
      }
      r := EncryptWithKey(primitives, key.value, nonce, dek);
    }

    method DecryptDek(id: KeyId, ciphertext: Bytes, now: Time) returns (r: Result<Bytes, KmsError>)
      requires Valid()
      modifies derivedKeys
      ensures Valid() && r == LocalDecrypt(primitives, master, id, ciphertext)
    {
      var key := GetDerivedKey(id, now);
      if key.Err? {
        return Err(key.error);
      }
      r := DecryptWithKey(primitives, key.value, ciphertext);
      if r.Ok? {
        return;
      }
      r := DecryptWithKey(primitives, master, ciphertext);
    }
  }

  // ---------------------------------------------------------------- choice of provider

  /** The remote provider seals with a key of its own and ignores the key id. */
  datatype Provider =
    | Local(master: Bytes)
    | Remote(encrypt: Bytes -> Result<Bytes, KmsError>, decrypt: Bytes -> Result<Bytes, KmsError>)

  datatype Config = Config(primitives: Primitives, providers: map<string, Provider>, defaultProvider: string)

  ghost predicate ProviderLawful(provider: Provider) {
    provider.Remote? ==> forall dek :: provider.encrypt(dek).Ok? ==> provider.decrypt(provider.encrypt(dek).value) == Ok(dek)
  }

  ghost predicate ConfigLawful(cfg: Config) {
    Lawful(cfg.primitives) && forall name :: name in cfg.providers ==> ProviderLawful(cfg.providers[name])
  }

  function ProviderFor(cfg: Config, profile: StorageProfile): Option<Provider> {
    var name := if profile == Hardened then "aws" else cfg.defaultProvider;
    if name in cfg.providers then Some(cfg.providers[name]) else None
  }

  function Encrypt(cfg: Config, provider: Provider, id: KeyId, nonce: Bytes, dek: Bytes): Result<Bytes, KmsError> {
    match provider
    case Local(master) => LocalEncrypt(cfg.primitives, master, id, nonce, dek)
    case Remote(encrypt, _) => encrypt(dek)
  }

  function Decrypt(cfg: Config, provider: Provider, id: KeyId, ciphertext: Bytes): Result<Bytes, KmsError> {
    match provider
    case Local(master) => LocalDecrypt(cfg.primitives, master, id, ciphertext)
    case Remote(_, decrypt) => decrypt(ciphertext)
  }

  /** Hardened keys go to the provider named "aws", all others to the default one. */
  lemma ProfileDecidesProvider(cfg: Config)
    ensures
      && (ProviderFor(cfg, Hardened) == if "aws" in cfg.providers then Some(cfg.providers["aws"]) else None)
      && (forall profile :: profile in {Standard, Unspecified} ==>
            && (ProviderFor(cfg, profile).Some? <==> cfg.defaultProvider in cfg.providers)
            && (ProviderFor(cfg, profile).Some? ==> ProviderFor(cfg, profile).value == cfg.providers[cfg.defaultProvider]))
  {
  }

  /** A provider seals and opens by its own means: the local one under its master key, the remote one by its
      service. */
  lemma ProvidersDelegate(cfg: Config, master: Bytes, encrypt: Bytes -> Result<Bytes, KmsError>,
                          decrypt: Bytes -> Result<Bytes, KmsError>, id: KeyId, nonce: Bytes, text: Bytes)
    ensures Encrypt(cfg, Local(master), id, nonce, text) == LocalEncrypt(cfg.primitives, master, id, nonce, text)
    ensures Decrypt(cfg, Local(master), id, text) == LocalDecrypt(cfg.primitives, master, id, text)
    ensures Encrypt(cfg, Remote(encrypt, decrypt), id, nonce, text) == encrypt(text)
    ensures Decrypt(cfg, Remote(encrypt, decrypt), id, text) == decrypt(text)
  {
  }

  lemma ProviderRoundTrip(cfg: Config, profile: StorageProfile, id: KeyId, nonce: Bytes, dek: Bytes)
    requires ConfigLawful(cfg) && |nonce| == NONCE_SIZE && ProviderFor(cfg, profile).Some?
    ensures
      var provider := ProviderFor(cfg, profile).value;
      var sealed := Encrypt(cfg, provider, id, nonce, dek);
      sealed.Ok? ==> Decrypt(cfg, provider, id, sealed.value) == Ok(dek)
  {
    var provider := ProviderFor(cfg, profile).value;
    assert ProviderLawful(provider);
    if provider.Local? {
      LocalRoundTrip(cfg.primitives, provider.master, id, nonce, dek);
    }
  }
}
