/**
 The part of a key manager that every manager shares: the registry of
 primitive factories, fixed when the manager is constructed, and the
 `Create<P>` dispatch that routes a key to the factory for the requested
 interface.
 */
module InternalKeyManager {
  import opened Status
  import opened Keys
  import opened Primitives

  /** The factories of one manager, by the interface each produces. */
  datatype Registry = Registry(factories: map<PrimId, Factory>) {
    /** Every entry is filed under the interface its factory produces. */
    ghost predicate Valid() {
      forall id | id in factories :: factories[id].Produces() == id
    }

    /** The interfaces a manager built on this registry can create. */
    predicate Supports(id: PrimId) {
      id in factories
    }
  }

  /** No two factories in the list produce the same interface. */
  ghost predicate DistinctIdentities(fs: seq<Factory>) {
    forall i, j | 0 <= i < j < |fs| :: fs[i].Produces() != fs[j].Produces()
  }

  /** The registry a manager's constructor builds from its list of factories:
      it supports exactly the interfaces of the listed factories, each
      served by the factory that was listed for it. */
  function Register(fs: seq<Factory>): (reg: Registry)
    requires DistinctIdentities(fs)
    ensures reg.Valid()
    ensures reg.factories.Keys == set i | 0 <= i < |fs| :: fs[i].Produces()
    ensures forall i | 0 <= i < |fs| :: reg.factories[fs[i].Produces()] == fs[i]
  {
    if fs == [] then
      Registry(map[])
    else
      var rest := Register(fs[1..]);
      assert forall i | 1 <= i < |fs| :: fs[i] == fs[1..][i - 1];
      Registry(rest.factories[fs[0].Produces() := fs[0]])
  }

  /** The message of the error returned for an interface nobody registered.
      Only the error code is part of the model; the wording is generic. */
  const UnsupportedMessage: string := "no factory registered for the requested interface"

  /** `Create<P>(key)`: with a factory registered for `id`, the key goes to
      that factory and its result (value or error) is returned unmodified;
      without one, the call fails with INVALID_ARGUMENT whatever the key.
      Whenever it succeeds, the instance implements the requested
      interface. */
  function Create(reg: Registry, id: PrimId, key: AesGcmKey, newAesGcm: AesGcmNew): (r: Result<Primitive>)
    requires reg.Valid()
    ensures !reg.Supports(id) ==> r.Err? && r.error.code == InvalidArgument
    ensures reg.Supports(id) ==> r == FactoryCreate(reg.factories[id], key, newAesGcm)
    ensures r.Ok? ==> reg.Supports(id) && r.value.Id() == id
  {
    if id in reg.factories then
      FactoryCreate(reg.factories[id], key, newAesGcm)
    else
      Err(Error(InvalidArgument, UnsupportedMessage))
  }

  /** Every factory listed at construction is reachable by its interface:
      asking a registry built from `fs` for the interface of `fs[i]` runs
      exactly `fs[i]`. */
  lemma CreateReachesEveryRegisteredFactory(fs: seq<Factory>, i: nat, key: AesGcmKey, newAesGcm: AesGcmNew)
    requires DistinctIdentities(fs)
    requires i < |fs|
    ensures Create(Register(fs), fs[i].Produces(), key, newAesGcm) == FactoryCreate(fs[i], key, newAesGcm)
  {
  }

  /** A registry built from `fs` supports an interface exactly when some
      factory in `fs` produces it. */
  lemma SupportedIffListed(fs: seq<Factory>, id: PrimId)
    requires DistinctIdentities(fs)
    ensures Register(fs).Supports(id) <==> exists i | 0 <= i < |fs| :: fs[i].Produces() == id
  {
  }
}
