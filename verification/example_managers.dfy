/**
 The two AES-GCM key managers of the key-manager tests.

 `MultiKeyManager` (ExampleMultiKeyManager) has a key format: it accepts
 every key and every format and generates keys from random bytes.
 `MultiKeyManagerWithoutFactory` (ExampleMultiKeyManagerWithoutFactory)
 has no key format, so no key generation; it validates keys with the
 library's version and AES key-size checks. Both register the AEAD and the
 AEAD-variant factories and inherit the `Create<P>` dispatch.
 */
module ExampleManagers {
  import opened Status
  import opened Keys
  import opened Primitives
  import IKM = InternalKeyManager

  datatype ExampleManager = MultiKeyManager | MultiKeyManagerWithoutFactory

  /** The library validators `ValidateVersion(candidate, max_expected)` and
      `ValidateAesKeySize(size)`. Their rules are not part of this model, so
      they are parameters. */
  datatype Checks = Checks(validateVersion: (Uint32, Uint32) -> Status, validateAesKeySize: nat -> Status)

  /** The random source `GetRandomBytes(n)`: its output is arbitrary, but it
      has exactly the requested length. */
  type RandomBytes = nat -> Bytes

  ghost predicate ReturnsRequestedLength(random: RandomBytes) {
    forall n: nat :: |random(n)| == n
  }

  /** The factory list both constructors pass to the base class. */
  const AesGcmFactories: seq<Factory> := [AeadFactory, AeadVariantFactory]

  /** The registry a freshly constructed manager holds. */
  function Factories(m: ExampleManager): (reg: IKM.Registry)
    ensures reg.Valid()
    ensures forall id :: reg.Supports(id) <==> id == Aead || id == AeadVariant
  {
    assert AesGcmFactories[0].Produces() == Aead;
    assert AesGcmFactories[1].Produces() == AeadVariant;
    IKM.Register(AesGcmFactories)
  }

  /** `key_material_type()`. */
  function KeyMaterial(m: ExampleManager): KeyMaterialType {
    Symmetric
  }

  /** `get_version()`: the manager's `kVersion`. */
  function Version(m: ExampleManager): Uint32 {
    0
  }

  /** `get_key_type()`. */
  function KeyType(m: ExampleManager): string {
    match m
    case MultiKeyManager => "myKeyType"
    case MultiKeyManagerWithoutFactory => "bla"
  }

  /** Whether the manager was declared with a key format type, and so has
      `ValidateKeyFormat` and `CreateKey`. */
  predicate HasKeyFormat(m: ExampleManager) {
    m.MultiKeyManager?
  }

  /** `ValidateKey(key)`. The multi-key manager accepts every key. The other
      runs the version check against its own version first and returns its
      error unchanged; only if that passes does it return the verdict of the
      key-size check on the length of the key material. */
  function ValidateKey(m: ExampleManager, key: AesGcmKey, checks: Checks): (s: Status)
    ensures m == MultiKeyManager ==> s.IsOk()
    ensures m == MultiKeyManagerWithoutFactory ==>
      && (s.IsOk() <==> checks.validateVersion(key.version, Version(m)).IsOk()
                         && checks.validateAesKeySize(|key.keyValue|).IsOk())
      && (!checks.validateVersion(key.version, Version(m)).IsOk() ==>
            s == checks.validateVersion(key.version, Version(m)))
      && (checks.validateVersion(key.version, Version(m)).IsOk() ==>
            s == checks.validateAesKeySize(|key.keyValue|))
  {
    match m
    case MultiKeyManager => OkStatus
    case MultiKeyManagerWithoutFactory =>
      var status := checks.validateVersion(key.version, Version(m));
      if !status.IsOk() then status else checks.validateAesKeySize(|key.keyValue|)
  }

  /** `ValidateKeyFormat(format)`: the multi-key manager accepts every
      format. */
  function ValidateKeyFormat(m: ExampleManager, format: AesGcmKeyFormat): (s: Status)
    requires HasKeyFormat(m)
    ensures s.IsOk()
  {
    OkStatus
  }

  /** `CreateKey(format)`: a fresh key whose material is `key_size` bytes
      drawn from the random source and whose other fields keep their
      defaults. */
  function CreateKey(m: ExampleManager, format: AesGcmKeyFormat, random: RandomBytes): (key: AesGcmKey)
    requires HasKeyFormat(m)
    requires ReturnsRequestedLength(random)
    ensures |key.keyValue| == format.keySize
    ensures key.keyValue == random(format.keySize)
    ensures key.version == DefaultKey.version
  {
    assert |random(format.keySize)| == format.keySize;
    AesGcmKey(DefaultKey.version, random(format.keySize))
  }
}
