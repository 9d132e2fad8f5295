/**
 The key records the example managers work on: the AES-GCM key and key
 format messages, already decoded (their wire encoding is not modelled),
 and the key-material classification a manager reports.
 */
module Keys {

  type Byte = b: int | 0 <= b < 0x100

  /** Key material: a protobuf `bytes` field, i.e. a string of octets. */
  type Bytes = seq<Byte>

  /** The width of the protobuf `uint32` fields and of `get_version()`. */
  type Uint32 = n: int | 0 <= n < 0x1_0000_0000

  /** An AES-GCM key: its format version and its raw key material. */
  datatype AesGcmKey = AesGcmKey(version: Uint32, keyValue: Bytes)

  /** The parameters for generating an AES-GCM key: the key length in bytes. */
  datatype AesGcmKeyFormat = AesGcmKeyFormat(keySize: Uint32)

  /** A default-constructed `AesGcmKey()`: every field holds its protobuf
      default, version 0 and empty key material. */
  const DefaultKey: AesGcmKey := AesGcmKey(0, [])

  /** KeyData.KeyMaterialType: how the key material is to be handled. */
  datatype KeyMaterialType =
    | UnknownKeyMaterial
    | Symmetric
    | AsymmetricPrivate
    | AsymmetricPublic
    | Remote
}
