/**
 * The factory injector: a registry that keeps one factory instance per
 * interface identity. `OverwriteFactory` replaces a slot unconditionally,
 * `RegisterFactory` fills only an empty slot, `GetFactory` and
 * `CreateObject` read a slot without changing anything.
 */
module Injector {
  import opened Wrappers
  import opened FactoryTraits

  /** The arguments forwarded to a constructor or to `Create`, as one opaque value. */
  type Args = seq<int>

  /** `std::type_index` of `typeid(T)`: it identifies the class, ignoring cv and references. */
  datatype TypeIndex = TypeIndex(cls: ClassName)

  function TypeIdOf(t: TypeDesc): (k: TypeIndex)
    ensures k == TypeIndex(RemoveConstRef(t).cls)
  {
    TypeIndex(t.cls)
  }

  /**
   * `FactoryAlreadyRegisteredEx` and `FactoryNotRegisteredEx`, each carrying
   * the name of the type named at the call site (`typeid(TFactory).name()`).
   */
  datatype InjectorError =
    | FactoryAlreadyRegistered(factoryName: ClassName)
    | FactoryNotRegistered(factoryName: ClassName)

  // ---------------------------------------------------------------------------
  // The slots, as values

  /** What a slot holds: an instance of the concrete factory type built from these arguments. */
  datatype Entry = Entry(factory: TypeDesc, args: Args)

  type Slots = map<TypeIndex, Entry>

  /** The slot `k` is set to `e`; every other slot is kept. */
  function Overwritten(s: Slots, k: TypeIndex, e: Entry): (s': Slots)
    ensures s'.Keys == s.Keys + {k} && s'[k] == e
    ensures forall j :: j in s && j != k ==> s'[j] == s[j]
  {
    s[k := e]
  }

  /** Register: an empty slot is set, an occupied one is kept and the call fails with `name`. */
  function Registered(s: Slots, k: TypeIndex, e: Entry, name: ClassName): (res: (Slots, Outcome<InjectorError>))
    ensures k !in s ==> res == (Overwritten(s, k, e), Pass)
    ensures k in s ==> res.0 == s && res.1 == Fail(FactoryAlreadyRegistered(name))
  {
    if k in s then (s, Fail(FactoryAlreadyRegistered(name)))
    else (Overwritten(s, k, e), Pass)
  }

  /** A second registration on a slot always fails and keeps what the first one stored. */
  lemma RegisterTwiceKeepsFirst(s: Slots, k: TypeIndex, e1: Entry, e2: Entry, name1: ClassName, name2: ClassName)
    ensures var first := Registered(s, k, e1, name1);
      && Registered(first.0, k, e2, name2) == (first.0, Fail(FactoryAlreadyRegistered(name2)))
      && first.0[k] == (if k in s then s[k] else e1)
  {
  }

  // ---------------------------------------------------------------------------
  // The registry

  /** `RealInstance<TInstance>`: a stored factory, tagged with its concrete type. */
  class RealInstance {
    const factory: TypeDesc
    const args: Args

    constructor (factory: TypeDesc, args: Args)
      ensures this.factory == factory && this.args == args
    {
      this.factory := factory;
      this.args := args;
    }
  }

  /** What `GetFactory` returns: the stored instance, seen through the type `viewedAs`. */
  datatype FactoryRef = FactoryRef(viewedAs: TypeDesc, instance: RealInstance)

  class FactoryInjector {
    /** `mInstanceCont`: interface identity to stored instance. */
    var instances: map<TypeIndex, RealInstance>

    constructor ()
      ensures instances == map[]
    {
      instances := map[];
    }

    /** The contents of the slots, forgetting object identity. */
    function Slots(): (s: Slots)
      reads this
      ensures s.Keys == instances.Keys
    {
      map k | k in instances :: Entry(instances[k].factory, instances[k].args)
    }

    /** Every slot holds an unqualified factory type whose own interface is the slot's key. */
    ghost predicate Valid(decls: Declarations)
      reads this
      ensures Valid(decls) ==> forall k :: k in instances ==> instances[k].factory.cls in decls
    {
      forall k :: k in instances ==>
        instances[k].factory.IsUnqualified() && GetInterface(decls, instances[k].factory) == Some(Plain(k.cls))
    }

    /**
     * Every slot holds an instance whose class derives from the slot's
     * interface: what the `static_cast` from `void*` in `GetFactory` needs.
     */
    ghost predicate CastsAreSound(decls: Declarations)
      reads this
      ensures CastsAreSound(decls) ==>
        forall k :: k in instances && instances[k].factory.cls != k.cls ==> instances[k].factory.cls in decls
    {
      forall k :: k in instances ==> DerivesFrom(decls, instances[k].factory.cls, k.cls)
    }

    /** `GetInterfaceTypeIndex<TFactory>`: the key is the (unqualified) interface `f` resolves to. */
    static function GetInterfaceTypeIndex(decls: Declarations, f: TypeDesc): (k: TypeIndex)
      requires HasInterface(decls, f)
      ensures GetInterface(decls, f) == Some(Plain(k.cls))
    {
      TypeIdOf(GetInterface(decls, f).value)
    }

    /** `FindFactory<TFactory>`: the instance in `f`'s slot, if any. */
    function FindFactory(decls: Declarations, f: TypeDesc): (r: Option<RealInstance>)
      reads this
      requires HasInterface(decls, f)
      ensures r.Some? <==> GetInterfaceTypeIndex(decls, f) in instances
      ensures r.Some? ==> r.value == instances[GetInterfaceTypeIndex(decls, f)]
    {
      var k := GetInterfaceTypeIndex(decls, f);
      if k in instances then Some(instances[k]) else None
    }

    /**
     * `GetFactory<TFactory>`: the stored instance, seen through
     * `get_interface_const_ref<TFactory>` (as written, `I&`), or
     * `FactoryNotRegistered` naming `f` when the slot is empty.
     */
    function GetFactory(decls: Declarations, f: TypeDesc): (r: Result<FactoryRef, InjectorError>)
      reads this
      requires HasInterface(decls, f)
      ensures r.Success? <==> GetInterfaceTypeIndex(decls, f) in instances
      ensures r.Success? ==> r.value.instance == instances[GetInterfaceTypeIndex(decls, f)]
      ensures r.Success? ==> r.value.viewedAs == GetInterfaceConstRef(decls, f)
      ensures r.Failure? ==> r.error == FactoryNotRegistered(f.cls)
    {
      match FindFactory(decls, f)
      case Some(instance) => Success(FactoryRef(GetInterfaceConstRef(decls, f), instance))
      case None => Failure(FactoryNotRegistered(TypeIdOf(f).cls))
    }

    /**
     * `CreateObject<TFactory>(args)`: `create` is the `Create` of the
     * factory's dynamic type, applied to the stored instance.
     */
    function CreateObject<P>(decls: Declarations, f: TypeDesc, create: (RealInstance, Args) -> P, args: Args)
      : (r: Result<P, InjectorError>)
      reads this
      requires HasInterface(decls, f)
      ensures r.Success? <==> GetFactory(decls, f).Success?
      ensures r.Success? ==> r.value == create(GetFactory(decls, f).value.instance, args)
      ensures r.Failure? ==> r.error == GetFactory(decls, f).error
      ensures r.Success? <==> GetInterfaceTypeIndex(decls, f) in instances
      ensures r.Failure? ==> r.error == FactoryNotRegistered(f.cls)
    {
      match GetFactory(decls, f)
      case Success(factory) => Success(create(factory.instance, args))
      case Failure(e) => Failure(e)
    }

    /**
     * `OverwriteFactory<TFactory>(args)`: a fresh instance of the cleaned type
     * of `f` goes into the slot of `f`'s interface; every other slot is kept.
     */
    method OverwriteFactory(decls: Declarations, f: TypeDesc, args: Args)
      requires HasInterface(decls, f)
      modifies this
      ensures var k := GetInterfaceTypeIndex(decls, f);
        && instances.Keys == old(instances.Keys) + {k}
        && fresh(instances[k])
        && instances[k].factory == FactoryTraits.GetFactory(f) && instances[k].args == args
        && (forall j :: j in old(instances) && j != k ==> instances[j] == old(instances[j]))
      ensures Slots() == Overwritten(old(Slots()), GetInterfaceTypeIndex(decls, f), Entry(FactoryTraits.GetFactory(f), args))
      ensures old(Valid(decls)) ==> Valid(decls)
      ensures old(CastsAreSound(decls)) && DerivesFrom(decls, f.cls, GetInterfaceTypeIndex(decls, f).cls) ==> CastsAreSound(decls)
    {
      var k := GetInterfaceTypeIndex(decls, f);
      var instance := new RealInstance(FactoryTraits.GetFactory(f), args);
      instances := instances[k := instance];
      QualifiersNeverChangeKey(decls, f.cls, f.isConst, f.isVolatile, f.ref);
    }

    /**
     * `RegisterFactory<TFactory>(args)`: as `OverwriteFactory` on an empty
     * slot; on an occupied one, `FactoryAlreadyRegistered` naming `f`, and
     * nothing changes.
     */
    method RegisterFactory(decls: Declarations, f: TypeDesc, args: Args) returns (r: Outcome<InjectorError>)
      requires HasInterface(decls, f)
      modifies this
      ensures var k := GetInterfaceTypeIndex(decls, f);
        r.Fail? <==> k in old(instances)
      ensures r.Fail? ==> r.error == FactoryAlreadyRegistered(f.cls) && instances == old(instances)
      ensures r.Pass? ==> var k := GetInterfaceTypeIndex(decls, f);
        && instances.Keys == old(instances.Keys) + {k}
        && fresh(instances[k])
        && instances[k].factory == FactoryTraits.GetFactory(f) && instances[k].args == args
        && (forall j :: j in old(instances) && j != k ==> instances[j] == old(instances[j]))
      ensures (Slots(), r) == Registered(old(Slots()), GetInterfaceTypeIndex(decls, f), Entry(FactoryTraits.GetFactory(f), args), f.cls)
      ensures old(Valid(decls)) ==> Valid(decls)
      ensures old(CastsAreSound(decls)) && DerivesFrom(decls, f.cls, GetInterfaceTypeIndex(decls, f).cls) ==> CastsAreSound(decls)
    {
      var found := FindFactory(decls, f);
      if found.None? {
        OverwriteFactory(decls, f, args);
        r := Pass;
      } else {
        r := Fail(FactoryAlreadyRegistered(TypeIdOf(f).cls));
      }
    }
  }

  /** Naming a factory or its interface reaches the same stored instance. */
  lemma ConcreteAndInterfaceGetSameInstance(inj: FactoryInjector, decls: Declarations, f: ClassName, i: ClassName)
    requires Implements(decls, f, i)
    ensures HasInterface(decls, Plain(f)) && HasInterface(decls, Plain(i))
    ensures inj.GetFactory(decls, Plain(f)).Success? <==> inj.GetFactory(decls, Plain(i)).Success?
    ensures inj.GetFactory(decls, Plain(f)).Success? ==>
      inj.GetFactory(decls, Plain(f)).value == inj.GetFactory(decls, Plain(i)).value
  {
    ConcreteResolvesToInterface(decls, f, i);
  }

  /** In a valid registry, the instance `GetFactory` returns is of a type filed under `f`'s interface. */
  lemma GetFactoryReturnsFiledInstance(inj: FactoryInjector, decls: Declarations, f: TypeDesc)
    requires inj.Valid(decls)
    requires HasInterface(decls, f)
    requires inj.GetFactory(decls, f).Success?
    ensures GetInterface(decls, inj.GetFactory(decls, f).value.instance.factory) == GetInterface(decls, f)
  {
  }

  /**
   * When every slot was filled with a factory that derives from its interface
   * (as the library's convention guarantees), the instance `GetFactory`
   * returns derives from the interface it is cast to.
   */
  lemma GetFactoryCastIsSound(inj: FactoryInjector, decls: Declarations, f: TypeDesc)
    requires inj.CastsAreSound(decls)
    requires HasInterface(decls, f)
    requires inj.GetFactory(decls, f).Success?
    ensures DerivesFrom(decls, inj.GetFactory(decls, f).value.instance.factory.cls, GetInterface(decls, f).value.cls)
  {
  }

  // ---------------------------------------------------------------------------
  // Sequences of registrations

  /** A call that changes the registry. */
  datatype Call = OverwriteCall(factory: TypeDesc, args: Args) | RegisterCall(factory: TypeDesc, args: Args)

  /** Every call in `calls` compiles: each names a type that has an interface. */
  predicate Compiles(decls: Declarations, calls: seq<Call>)
  {
    forall i :: 0 <= i < |calls| ==> HasInterface(decls, calls[i].factory)
  }

  function KeyOf(decls: Declarations, c: Call): (k: TypeIndex)
    requires HasInterface(decls, c.factory)
  {
    FactoryInjector.GetInterfaceTypeIndex(decls, c.factory)
  }

  function EntryOf(c: Call): (e: Entry)
  {
    Entry(FactoryTraits.GetFactory(c.factory), c.args)
  }

  /** The slots after one call, as `OverwriteFactory` and `RegisterFactory` promise them. */
  function Step(decls: Declarations, s: Slots, c: Call): (s': Slots)
    requires HasInterface(decls, c.factory)
    ensures s'.Keys == s.Keys + {KeyOf(decls, c)}
    ensures forall j :: j in s && j != KeyOf(decls, c) ==> s'[j] == s[j]
  {
    match c
    case OverwriteCall(_, _) => Overwritten(s, KeyOf(decls, c), EntryOf(c))
    case RegisterCall(f, _) => Registered(s, KeyOf(decls, c), EntryOf(c), f.cls).0
  }

  /** The slots after the calls, one after the other. */
  function Run(decls: Declarations, s: Slots, calls: seq<Call>): (s': Slots)
    requires Compiles(decls, calls)
    ensures s.Keys <= s'.Keys
    decreases |calls|
  {
    if calls == [] then s
    else Step(decls, Run(decls, s, calls[..|calls| - 1]), calls[|calls| - 1])
  }

  /** What the last `OverwriteFactory` on slot `k` stored, if there was one. */
  function LastOverwrite(decls: Declarations, calls: seq<Call>, k: TypeIndex): (r: Option<Entry>)
    requires Compiles(decls, calls)
    ensures r.Some? ==> exists i :: 0 <= i < |calls| && calls[i].OverwriteCall? && KeyOf(decls, calls[i]) == k && EntryOf(calls[i]) == r.value
    ensures r.None? ==> forall i :: 0 <= i < |calls| && calls[i].OverwriteCall? ==> KeyOf(decls, calls[i]) != k
    decreases |calls|
  {
    if calls == [] then None
    else
      var c := calls[|calls| - 1];
      if c.OverwriteCall? && KeyOf(decls, c) == k then Some(EntryOf(c))
      else LastOverwrite(decls, calls[..|calls| - 1], k)
  }

  /** What the first `RegisterFactory` on slot `k` stored, if there was one. */
  function FirstRegister(decls: Declarations, calls: seq<Call>, k: TypeIndex): (r: Option<Entry>)
    requires Compiles(decls, calls)
    ensures r.Some? ==> exists i :: 0 <= i < |calls| && calls[i].RegisterCall? && KeyOf(decls, calls[i]) == k && EntryOf(calls[i]) == r.value
    ensures r.None? ==> forall i :: 0 <= i < |calls| && calls[i].RegisterCall? ==> KeyOf(decls, calls[i]) != k
    decreases |calls|
  {
    if calls == [] then None
    else
      var c := calls[|calls| - 1];
      var earlier := FirstRegister(decls, calls[..|calls| - 1], k);
      if earlier.Some? then earlier
      else if c.RegisterCall? && KeyOf(decls, c) == k then Some(EntryOf(c))
      else None
  }

  /**
   * What a slot holds after the calls: the last overwrite wins; without one,
   * what was there before stays; an empty slot goes to the first registration.
   */
  function Expected(decls: Declarations, s: Slots, calls: seq<Call>, k: TypeIndex): (r: Option<Entry>)
    requires Compiles(decls, calls)
    ensures k in s ==> r.Some?
    ensures r.None? <==> k !in s && forall i :: 0 <= i < |calls| ==> KeyOf(decls, calls[i]) != k
  {
    var last := LastOverwrite(decls, calls, k);
    if last.Some? then last
    else if k in s then Some(s[k])
    else FirstRegister(decls, calls, k)
  }

  /** After any sequence of registrations, every slot holds what `Expected` says. */
  lemma {:induction false} RunMatchesExpected(decls: Declarations, s: Slots, calls: seq<Call>, k: TypeIndex)
    requires Compiles(decls, calls)
    ensures k in Run(decls, s, calls) <==> Expected(decls, s, calls, k).Some?
    ensures k in Run(decls, s, calls) ==> Run(decls, s, calls)[k] == Expected(decls, s, calls, k).value
    decreases |calls|
  {
    if calls != [] {
      var prefix := calls[..|calls| - 1];
      assert Compiles(decls, prefix) by {
        forall i | 0 <= i < |prefix| ensures HasInterface(decls, prefix[i].factory) {
          assert prefix[i] == calls[i];
        }
      }
      RunMatchesExpected(decls, s, prefix, k);
    }
  }
}
