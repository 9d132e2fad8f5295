# Typed multi-primitive key manager (Tink C++), modelled in Dafny

This project models the core of Tink's internal key manager as the
key-manager tests in `cc/core/internal_key_manager_test.cc` exercise it.

A key manager serves one key type, here `AesGcmKey`. When it is constructed
it receives a fixed list of primitive factories, one per primitive
interface. `Create<P>(key)` turns a key into an instance of the requested
interface `P`:

- if a factory is registered for `P`, the key goes to that factory and its
  result is returned;
- otherwise the call fails with `INVALID_ARGUMENT`.

Each concrete manager supplies the rest: its metadata (version, key type,
key-material type), `ValidateKey`, and, when it has a key format,
`ValidateKeyFormat` and `CreateKey`.

Files and modules:

- `status.dfy` (`Status`): canonical error codes, `Status` (util::Status)
  and `Result<T>` (util::StatusOr).
- `keys.dfy` (`Keys`): bytes, `uint32`, the decoded `AesGcmKey` and
  `AesGcmKeyFormat` records, the default key, and `KeyMaterialType`.
- `primitives.dfy` (`Primitives`): the interface identities (`Aead`,
  `AeadVariant`, `NotRegistered`), the primitive values, and the two
  factories with `FactoryCreate`.
- `internal_key_manager.dfy` (`InternalKeyManager`): the registry built at
  construction (`Register`) and the `Create<P>` dispatch (`Create`).
- `example_managers.dfy` (`ExampleManagers`): `ExampleMultiKeyManager` and
  `ExampleMultiKeyManagerWithoutFactory`, with their metadata, validation
  and key generation.
- `manager_properties.dfy` (`ManagerProperties`): the behaviour the tests
  assert, stated as lemmas over all inputs.

The model abstracts three collaborators as parameters:

- The AES-GCM library constructor `AesGcmBoringSsl::New` is a function
  `Bytes -> Status`. It gives the library's verdict on the key material.
  On success, the AEAD factory returns an AEAD value that records the key
  material it was built from.
- The random source `GetRandomBytes(n)` is a function `nat -> Bytes`. It is
  only assumed to return exactly `n` bytes.
- The library validators `ValidateVersion` and `ValidateAesKeySize` are
  fields of a `Checks` record of functions. Their rules are not modelled.

Both example managers declare identical nested `AeadFactory` and
`AeadVariantFactory` classes (lines 58-73 and 140-155) and pass them to the
base class in the same order (lines 75-77 and 157-159). So the model defines
the two factories and the factory list once.

`ExampleMultiKeyManagerWithoutFactory` is declared without a key format
(line 138). So it has no `ValidateKeyFormat` and no `CreateKey`; in the
model, both operations require `HasKeyFormat(m)`.

The test `KeyManagerWithoutFactoryTest.CreateAeadVariant` (lines 193-200)
calls `Create<AeadVariant>` on `ExampleMultiKeyManager` at line 198, not on
`ExampleMultiKeyManagerWithoutFactory`. The model still covers that request
on both managers (`ManagerProperties.VariantExposesKeyMaterial`).

## Model

| member | source | states |
|---|---|---|
| `Primitives.FactoryCreate` | cc/core/internal_key_manager_test.cc:58-73 | A factory only produces its own interface. The variant factory always succeeds, and its `get()` is the key material. The AEAD factory succeeds exactly when the library accepts the key material. On success the AEAD is built from that material; on failure it returns the library's error. |
| `Primitives.FactoryIgnoresVersion` | cc/core/internal_key_manager_test.cc:60-71 | Factories read only `key_value`, so two keys with the same material give the same result. |
| `InternalKeyManager.Register` | cc/core/internal_key_manager_test.cc:75-77 | The registry built from the factory list supports exactly the listed interfaces. It files each factory under the interface that factory produces. |
| `InternalKeyManager.Create` | cc/core/internal_key_manager_test.cc:109-135 | An unregistered interface gives `INVALID_ARGUMENT` for every key. A registered interface gives exactly the result of its factory. Any success is an instance of the requested interface. |
| `InternalKeyManager.CreateReachesEveryRegisteredFactory` | cc/core/internal_key_manager_test.cc:109-128 | A request for the interface of any listed factory runs exactly that factory. |
| `InternalKeyManager.SupportedIffListed` | cc/core/internal_key_manager_test.cc:157-159 | A manager supports an interface if and only if some factory passed to its constructor produces it. |
| `ExampleManagers.Factories` | cc/core/internal_key_manager_test.cc:157-159 | Both managers support exactly `Aead` and `AeadVariant`. |
| `ExampleManagers.ValidateKey` | cc/core/internal_key_manager_test.cc:170-174 | The multi-key manager accepts every key (lines 88-90). The other manager runs the version check against its own version first and returns that error unchanged if it fails. Otherwise it returns the key-size verdict on the key-material length. It accepts a key exactly when both checks pass. |
| `ExampleManagers.ValidateKeyFormat` | cc/core/internal_key_manager_test.cc:92-95 | The multi-key manager accepts every key format. |
| `ManagerProperties.ValidFormatGeneratesValidKey` | cc/core/internal_key_manager_test.cc:92-102 | Every format the multi-key manager accepts generates a key of the requested size that the same manager accepts. |
| `ExampleManagers.CreateKey` | cc/core/internal_key_manager_test.cc:97-102 | The generated key has exactly `key_size` bytes of material, taken from the random source for that size, and keeps the default version. |
| `ManagerProperties.UnregisteredPrimitiveFails` | cc/core/internal_key_manager_test.cc:130-135 | On both managers, `Create<NotRegistered>` fails with `INVALID_ARGUMENT` for every key, the default key included (also lines 202-206). |
| `ManagerProperties.VariantExposesKeyMaterial` | cc/core/internal_key_manager_test.cc:121-128 | On both managers, `Create<AeadVariant>` succeeds for every key, and the variant's `get()` equals the key's `key_value`. |
| `ManagerProperties.AeadFollowsLibrary` | cc/core/internal_key_manager_test.cc:58-65 | `Create<Aead>` succeeds exactly when the library accepts the key material. It returns the AEAD for that material, or the library's error. |
| `ManagerProperties.GeneratedKeyYieldsAead` | cc/core/internal_key_manager_test.cc:181-186 | A 16-byte key from the multi-key manager's `CreateKey` yields an AEAD on either manager, built from that key's material. The library must accept 16-byte keys (also lines 109-114). |
| `ManagerProperties.ManagersDispatchAlike` | cc/core/internal_key_manager_test.cc:140-159 | `Create` gives the same answer on both managers for every interface and key. The second manager's factory classes and constructor (lines 140-159) copy the first's (lines 58-77), and the model defines them once, so this holds by construction. |
| `ManagerProperties.GeneratedKeyValidates` | cc/core/internal_key_manager_test.cc:88-102 | A key generated by the multi-key manager passes that manager's `ValidateKey`. |
| `ManagerProperties.GeneratedKeyValidatesElsewhere` | cc/core/internal_key_manager_test.cc:170-174 | A key generated by the multi-key manager passes the other manager's `ValidateKey` exactly when two checks pass: the version check accepts version 0 against version 0, and the key-size check accepts the requested size. |
| `ManagerProperties.Metadata` | cc/core/internal_key_manager_test.cc:79-86 | Both managers report version 0 and `SYMMETRIC`. Their key types, `"myKeyType"` and `"bla"`, tell them apart (also lines 105-106, 161-168, 177-178). |

## Left out

- AES-GCM encryption and decryption, including the `Encrypt`/`Decrypt` round trip of the tests: they belong to the external cryptographic library. The AEAD is an opaque value recording its key material.
- Randomness: `GetRandomBytes` is a parameter whose output is arbitrary, apart from its length.
- The rules of `ValidateVersion` and `ValidateAesKeySize`: their definitions are not part of this model, so they are parameters. For the same reason, no property about version monotonicity or permitted key sizes is proved.
- Rejection of two factories for the same interface: the tests never register two factories for one interface, and `tink/core/internal_key_manager.h` is not part of this model. `InternalKeyManager.Register` requires the listed factories to produce distinct interfaces.
- Whether `Create<P>` validates the key before calling the factory: the tests do not show it. `Create` here only looks up the factory and calls it.
- The exact text of the `INVALID_ARGUMENT` message for an unregistered interface: the tests check only the code. The model uses a generic message.
- C++ templates, `std::unique_ptr` ownership, and the protobuf wire encoding of keys and formats. Interface types are a plain identity enum, and keys are decoded records.
- The test harness (gtest/gmock matchers).
