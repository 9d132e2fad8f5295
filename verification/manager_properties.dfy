/**
 What the key-manager tests establish about the two example managers,
 stated for every key, format, random source and library verdict rather
 than for the one input each test runs.
 */
module ManagerProperties {
  import opened Status
  import opened Keys
  import opened Primitives
  import IKM = InternalKeyManager
  import opened ExampleManagers

  /** The AES-GCM library accepts every 16-byte (AES-128) key. */
  ghost predicate AcceptsAes128(newAesGcm: AesGcmNew) {
    forall k: Bytes :: |k| == 16 ==> newAesGcm(k).IsOk()
  }

  /** Asking either manager for an interface it has no factory for fails
      with INVALID_ARGUMENT, for every key, the default key included. */
  lemma UnregisteredPrimitiveFails(m: ExampleManager, key: AesGcmKey, newAesGcm: AesGcmNew)
    ensures IKM.Create(Factories(m), NotRegistered, key, newAesGcm).Err?
    ensures IKM.Create(Factories(m), NotRegistered, key, newAesGcm).error.code == InvalidArgument
    ensures IKM.Create(Factories(m), NotRegistered, DefaultKey, newAesGcm).error.code == InvalidArgument
  {
  }

  /** `Create<AeadVariant>` succeeds on every key, and the variant's
      `get()` is exactly the key's material. */
  lemma VariantExposesKeyMaterial(m: ExampleManager, key: AesGcmKey, newAesGcm: AesGcmNew)
    ensures IKM.Create(Factories(m), AeadVariant, key, newAesGcm).Ok?
    ensures IKM.Create(Factories(m), AeadVariant, key, newAesGcm).value.variant.Get() == key.keyValue
  {
  }

  /** `Create<Aead>` returns the library's AEAD for the key's material when
      the library accepts it, and the library's own error otherwise. */
  lemma AeadFollowsLibrary(m: ExampleManager, key: AesGcmKey, newAesGcm: AesGcmNew)
    ensures IKM.Create(Factories(m), Aead, key, newAesGcm).Ok? <==> newAesGcm(key.keyValue).IsOk()
    ensures newAesGcm(key.keyValue).IsOk() ==>
      IKM.Create(Factories(m), Aead, key, newAesGcm) == Ok(AeadPrimitive(AesGcmAead(key.keyValue)))
    ensures !newAesGcm(key.keyValue).IsOk() ==>
      IKM.Create(Factories(m), Aead, key, newAesGcm).ToStatus() == newAesGcm(key.keyValue)
  {
  }

  /** A 16-byte key generated by the multi-key manager yields an AEAD on a
      fresh instance of either manager, built from that key's material. */
  lemma GeneratedKeyYieldsAead(m: ExampleManager, format: AesGcmKeyFormat, random: RandomBytes, newAesGcm: AesGcmNew)
    requires format.keySize == 16
    requires ReturnsRequestedLength(random)
    requires AcceptsAes128(newAesGcm)
    ensures IKM.Create(Factories(m), Aead, CreateKey(MultiKeyManager, format, random), newAesGcm).Ok?
    ensures IKM.Create(Factories(m), Aead, CreateKey(MultiKeyManager, format, random), newAesGcm).value.aead.key
            == CreateKey(MultiKeyManager, format, random).keyValue
  {
  }

  /** Managers keep no state between calls and register the same factories,
      so `Create` depends on nothing but the interface and the key: both
      managers answer every request alike. */
  lemma ManagersDispatchAlike(id: PrimId, key: AesGcmKey, newAesGcm: AesGcmNew)
    ensures IKM.Create(Factories(MultiKeyManager), id, key, newAesGcm)
         == IKM.Create(Factories(MultiKeyManagerWithoutFactory), id, key, newAesGcm)
  {
  }

  /** A key generated by the multi-key manager passes that manager's own
      validation. */
  lemma GeneratedKeyValidates(format: AesGcmKeyFormat, random: RandomBytes, checks: Checks)
    requires ReturnsRequestedLength(random)
    ensures ValidateKey(MultiKeyManager, CreateKey(MultiKeyManager, format, random), checks).IsOk()
  {
  }

  /** Key generation closes the loop: every format the multi-key manager
      accepts generates a key of the requested size that the same manager
      accepts. */
  lemma ValidFormatGeneratesValidKey(format: AesGcmKeyFormat, random: RandomBytes, checks: Checks)
    requires ReturnsRequestedLength(random)
    requires ValidateKeyFormat(MultiKeyManager, format).IsOk()
    ensures |CreateKey(MultiKeyManager, format, random).keyValue| == format.keySize
    ensures ValidateKey(MultiKeyManager, CreateKey(MultiKeyManager, format, random), checks).IsOk()
  {
  }

  /** A key generated by the multi-key manager passes the other manager's
      validation exactly when version 0 is acceptable to a version-0
      manager and the requested size is a valid AES key size. */
  lemma GeneratedKeyValidatesElsewhere(format: AesGcmKeyFormat, random: RandomBytes, checks: Checks)
    requires ReturnsRequestedLength(random)
    ensures ValidateKey(MultiKeyManagerWithoutFactory, CreateKey(MultiKeyManager, format, random), checks).IsOk()
        <==> checks.validateVersion(0, 0).IsOk() && checks.validateAesKeySize(format.keySize).IsOk()
  {
  }

  /** Both managers report version 0 and symmetric key material, and the
      key type tells the two managers apart. */
  lemma Metadata(m: ExampleManager, m': ExampleManager)
    ensures Version(m) == 0
    ensures KeyMaterial(m) == Symmetric
    ensures KeyType(m) == KeyType(m') <==> m == m'
  {
  }
}
