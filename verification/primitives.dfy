/**
 The primitive interfaces a key can be turned into, and the factories that
 turn an AES-GCM key into one of them.

 A request names the interface it wants (the template argument `P` of
 `Create<P>`); here that name is a `PrimId`. Each factory produces exactly
 one interface.
 */
module Primitives {
  import opened Status
  import opened Keys

  /** The primitive interfaces the tests ask for. `NotRegistered` is an
      interface no factory produces. */
  datatype PrimId = Aead | AeadVariant | NotRegistered

  /** An AES-GCM AEAD object. Encryption and decryption belong to the
      cryptographic library and are not modelled: the object is known only
      by the key material it was built from. */
  datatype AeadCipher = AesGcmAead(key: Bytes)

  /** The insecure test primitive that only gives access to the key. */
  datatype AeadVariantValue = AeadVariantValue(s: Bytes) {
    /** `AeadVariant::get()`. */
    function Get(): Bytes {
      s
    }
  }

  /** An owned instance of one primitive interface. */
  datatype Primitive =
    | AeadPrimitive(aead: AeadCipher)
    | VariantPrimitive(variant: AeadVariantValue)
  {
    /** The interface this instance implements. */
    function Id(): (id: PrimId)
      ensures id != NotRegistered
    {
      match this
      case AeadPrimitive(_) => Aead
      case VariantPrimitive(_) => AeadVariant
    }
  }

  /** The AES-GCM library's constructor `AesGcmBoringSsl::New`, reduced to
      its verdict on the key material: OK when it accepts the key, otherwise
      the error it reports. */
  type AesGcmNew = Bytes -> Status

  /** The primitive factories of the example managers. Both managers declare
      the same two nested factory classes with the same bodies. */
  datatype Factory = AeadFactory | AeadVariantFactory {
    /** The interface this factory is registered for. */
    function Produces(): (id: PrimId)
      ensures id != NotRegistered
    {
      match this
      case AeadFactory => Aead
      case AeadVariantFactory => AeadVariant
    }
  }

  /** `PrimitiveFactory<P>::Create(key)`. The AEAD factory hands the key
      material to the AES-GCM library and returns its object or its error;
      the variant factory wraps the key material unchanged. */
  function FactoryCreate(f: Factory, key: AesGcmKey, newAesGcm: AesGcmNew): (r: Result<Primitive>)
    ensures r.Ok? ==> r.value.Id() == f.Produces()
    ensures f == AeadVariantFactory ==> r.Ok? && r.value.variant.Get() == key.keyValue
    ensures f == AeadFactory ==> (r.Ok? <==> newAesGcm(key.keyValue).IsOk())
    ensures f == AeadFactory && r.Ok? ==> r.value.aead.key == key.keyValue
    ensures f == AeadFactory && r.Err? ==> newAesGcm(key.keyValue) == Failed(r.error)
  {
    match f
    case AeadFactory =>
      (match newAesGcm(key.keyValue)
       case OkStatus => Ok(AeadPrimitive(AesGcmAead(key.keyValue)))
       case Failed(e) => Err(e))
    case AeadVariantFactory =>
      Ok(VariantPrimitive(AeadVariantValue(key.keyValue)))
  }

  /** A factory's result depends on nothing but the key's material: keys
      that differ only in their version yield the same primitive. */
  lemma FactoryIgnoresVersion(f: Factory, k1: AesGcmKey, k2: AesGcmKey, newAesGcm: AesGcmNew)
    requires k1.keyValue == k2.keyValue
    ensures FactoryCreate(f, k1, newAesGcm) == FactoryCreate(f, k2, newAesGcm)
  {
  }
}
