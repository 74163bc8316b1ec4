# factories_injector, modelled in Dafny

The factory injector is a registry. It keeps exactly one factory instance per
*interface identity*, so production code asks for "the factory of interface
I" and a test can substitute another factory without touching call sites.
From the C++ header library this project models two parts:

- `FactoryInjector`, in module `Injector` (`factory_injector.dfy`). It is a
  class whose field `instances` is the `mInstanceCont` map from interface
  identity (`TypeIndex`, the model of `std::type_index`) to the stored
  instance (`RealInstance`).
  - `OverwriteFactory` and `RegisterFactory` are methods that change the map.
  - `FindFactory`, `GetFactory` and `CreateObject` are functions that read
    the map. They mirror the `const` members of the C++ class, so they cannot
    change it.
  - The two exceptions become the values of `InjectorError`, returned in
    `Result`/`Outcome`.
  - The functions `Overwritten` and `Registered` describe the
    two-state slot machine on plain values. `Run` and `RunMatchesExpected`
    show what each slot holds after any sequence of registrations.
  - `GetFactory` exposes the instance through the type the code returns,
    `get_interface_const_ref<F>::type`, which is `I&` (see Findings).
- The interface-identity resolver, in module `FactoryTraits`
  (`factory_traits.dfy`). C++ types become `TypeDesc` values: a class name,
  `const`/`volatile` flags and a reference kind. The class hierarchy the
  compiler sees becomes a `Declarations` map. `remove_const_ref`,
  `add_const_ref`, `get_factory`, `get_interface`, `get_interface_const_ref`
  and `FactoryTraits<I, O>` become functions over these values. A class finds
  its `tInterface` by walking up its base classes (`InheritedTraits`).

The hierarchy is compile-time knowledge, not injector state. So every
registry operation takes it as the parameter `decls`, and each one requires
`HasInterface(decls, f)`. That requirement is the C++ compile-time condition
that `get_interface<F>::type` exist.

`injector_scenarios.dfy` replays the five unit tests of
`tests/ut_factory_injector.cpp` as client methods. Their assertions are the
tests' expectations, proved from the contracts alone.

Both errors carry `typeid(TFactory).name()` (src/factory_injector.hpp:240,
266), the name of the type named at the call site, which may be the concrete
factory rather than its interface. `InjectorScenarios.RegisterAlreadyExistentFactory` shows this: the
error names `DummyClass1Factory`.

## Model

| member | source | states |
|---|---|---|
| `FactoryTraits.RemoveConstRef` | src/factory_traits.hpp:55-60 | remove_cv of remove_reference leaves exactly the bare class: no const, no volatile, no reference |
| `FactoryTraits.RemoveConstRefIdempotent` | src/factory_traits.hpp:55-60 | stripping twice is stripping once, and the result is unqualified |
| `FactoryTraits.RemoveAddConstRef` | src/factory_traits.hpp:44-60 | remove_const_ref undoes add_const_ref; for an unqualified T it gives back T |
| `FactoryTraits.GetFactory` | src/factory_traits.hpp:66-71 | the cleaned factory type is the same class, unqualified |
| `FactoryTraits.QualifiersNeverChangeKey` | src/factory_traits.hpp:66-82 | `F`, `const F`, `F&`, `const F&`, `F&&` give the same factory type and the same interface |
| `FactoryTraits.FactoryTraitsOf` | src/factory_traits.hpp:104-114 | `tInterface` and `tObject` of `FactoryTraits<I, O>` are I and O cleaned of const and reference |
| `FactoryTraits.InheritedTraits` | src/factory_traits.hpp:77-82 | the `tInterface` lookup finds something only for a declared class that has a base, and what it finds is unqualified |
| `FactoryTraits.GetInterface` | src/factory_traits.hpp:77-82 | get_interface succeeds exactly when the class inherits `FactoryTraits`; the interface it gives is unqualified |
| `FactoryTraits.InterfaceResolvesToItself` | src/factory_traits.hpp:104-114 | an interface declared as `FactoryTraits<I, O>` resolves to I itself |
| `FactoryTraits.ResolvingTwiceIsStable` | src/factory_traits.hpp:111 | resolving the resolved interface again changes nothing |
| `FactoryTraits.ConcreteResolvesToInterface` | src/factory_traits.hpp:77-82 | a concrete factory derived from interface I resolves to I, the same identity as I's own |
| `FactoryTraits.DistinctInterfacesDistinctKeys` | src/factory_traits.hpp:111 | two different interfaces have different identities, whatever object types they create |
| `FactoryTraits.InheritedTraitsStable` | src/factory_traits.hpp:77-82 | declaring more classes never changes the traits an already resolving class inherits |
| `FactoryTraits.SubclassSharesInterface` | src/factory_traits.hpp:77-82 | a class newly derived from another class (a mock of a concrete factory) is filed under the same interface as its base, or under none if its base has none |
| `FactoryTraits.AddConstRef` | src/factory_traits.hpp:44-49 | as written, add_const_ref gives an lvalue reference to T's own type, const only if T already was |
| `FactoryTraits.GetInterfaceConstRef` | src/factory_traits.hpp:88-93 | as written, get_interface_const_ref is an lvalue reference that strips back to the interface |
| `FactoryTraits.TraitsOwner` | src/factory_traits.hpp:77-82 | the class on the base chain that inherits `FactoryTraits` exists exactly when the `tInterface` lookup succeeds |
| `FactoryTraits.DerivesFrom` | src/factory_injector.hpp:262 | a class that derives from another class than itself is declared with a base class |
| `FactoryTraits.TraitsOwnerIsAncestor` | src/factory_traits.hpp:77-82 | the class supplying `tInterface` is an ancestor of the factory class and declares exactly the traits found |
| `FactoryTraits.ConventionMakesFactoryDeriveFromInterface` | src/factory_traits.hpp:104-114 | when the `FactoryTraits` base names its own class as interface, the factory derives from the interface it is filed under |
| `FactoryTraits.FiledWithoutDerivingFromInterface` | src/factory_traits.hpp:104-114 | the convention is not checked: a class declaring `FactoryTraits<I, O>` for another class I is filed under I without deriving from it |
| `FactoryTraits.DeclaringClassKeepsInterfaces` | src/factory_traits.hpp:77-82 | declaring a new class keeps the interface of every type that already had one |
| `FactoryTraits.ReadOnlyRef` | src/factory_traits.hpp:44-49 | the documented "constant reference": an lvalue reference to const T that strips back to T |
| `FactoryTraits.GetInterfaceReadOnlyRef` | src/factory_traits.hpp:88-93 | the documented return type of GetFactory is a reference to const, and strips back to the interface |
| `FactoryTraits.GetInterfaceConstRefIsNotConst` | src/factory_traits.hpp:88-93 | as written, get_interface_const_ref is `I&`: a reference to the non-const interface |
| `FactoryTraits.GetInterfaceReadOnlyRefIsConst` | src/factory_traits.hpp:88-93 | the corrected form is `const I&` for every factory type |
| `Injector.Overwritten` | src/factory_injector.hpp:217 | storing into one slot adds that key, sets its entry and keeps every other slot |
| `Injector.TypeIdOf` | src/factory_injector.hpp:322 | `typeid` of a type identifies its class, ignoring const, volatile and references |
| `Injector.Registered` | src/factory_injector.hpp:227-242 | on an empty slot, registering is exactly overwriting and passes; on an occupied slot the slots are unchanged and it fails with AlreadyRegistered carrying the given name |
| `Injector.RegisterTwiceKeepsFirst` | src/factory_injector.hpp:227-242 | a second registration on a slot always fails and keeps the slot's earlier entry |
| `Injector.RealInstance.constructor` | src/factory_injector.hpp:99-102 | a stored instance records the concrete type it was built as and its construction arguments |
| `Injector.FactoryInjector.constructor` | src/factory_injector.hpp:194 | a new injector has no slots |
| `Injector.FactoryInjector.Slots` | src/factory_injector.hpp:329 | the abstract slots have exactly the keys of `mInstanceCont` |
| `Injector.FactoryInjector.Valid` | src/factory_injector.hpp:207-218 | in a valid registry every stored factory type is a declared class (each slot holds a type filed under that slot's key) |
| `Injector.FactoryInjector.CastsAreSound` | src/factory_injector.hpp:258-263 | when every stored class derives from its slot's interface, any stored class other than the interface is a declared class |
| `Injector.FactoryInjector.GetInterfaceTypeIndex` | src/factory_injector.hpp:315-323 | the key names exactly the unqualified interface the factory type resolves to |
| `Injector.FactoryInjector.FindFactory` | src/factory_injector.hpp:300-308 | finds an instance exactly when the slot of the type's interface is occupied, and it is that slot's instance |
| `Injector.FactoryInjector.GetFactory` | src/factory_injector.hpp:250-268 | succeeds exactly when the interface's slot is occupied and returns that stored instance viewed through `get_interface_const_ref<F>` (as written, `I&`); otherwise fails with NotRegistered carrying the name of the type named at the call site |
| `Injector.FactoryInjector.CreateObject` | src/factory_injector.hpp:282-289 | equals the factory's Create applied to what GetFactory returns; fails exactly when GetFactory fails (the interface's slot is empty), with the same NotRegistered error |
| `Injector.FactoryInjector.OverwriteFactory` | src/factory_injector.hpp:207-218 | the interface's slot holds a fresh instance of exactly the cleaned factory type with these arguments, whatever was there; every other slot keeps its instance; validity is preserved, and so is sound casting when the factory derives from its interface |
| `Injector.FactoryInjector.RegisterFactory` | src/factory_injector.hpp:227-242 | fails with AlreadyRegistered, naming the call-site type, exactly when the slot was occupied, and then changes nothing; otherwise has exactly OverwriteFactory's effect; preserves validity and sound casting as OverwriteFactory does |
| `Injector.ConcreteAndInterfaceGetSameInstance` | src/factory_injector.hpp:300-323 | GetFactory of a concrete factory and GetFactory of its interface both succeed or both fail, and return the same stored instance |
| `Injector.GetFactoryReturnsFiledInstance` | src/factory_injector.hpp:258-263 | in a valid registry, the instance GetFactory returns is of a type filed under the interface it is viewed as |
| `Injector.GetFactoryCastIsSound` | src/factory_injector.hpp:258-263 | when every stored class derives from its slot's interface, the instance GetFactory casts to the interface derives from that interface |
| `Injector.Step` | src/factory_injector.hpp:207-242 | one Overwrite or Register call adds at most its own key and keeps every other slot |
| `Injector.Run` | src/factory_injector.hpp:207-242 | no sequence of calls empties an occupied slot: there is no operation that unregisters |
| `Injector.LastOverwrite` | src/factory_injector.hpp:207-218 | finds an entry exactly when some overwrite in the sequence targeted the slot, and that entry is one such overwrite's |
| `Injector.FirstRegister` | src/factory_injector.hpp:227-236 | finds an entry exactly when some registration in the sequence targeted the slot, and that entry is one such registration's |
| `Injector.Expected` | src/factory_injector.hpp:207-242 | a slot is expected empty exactly when it was empty and no call in the sequence targets it |
| `Injector.RunMatchesExpected` | src/factory_injector.hpp:207-242 | after any sequence of Overwrite and Register calls, a slot holds the last overwrite's entry; without one, what it held before; if it was empty, the first registration's entry |
| `InjectorScenarios.TestDecls` | tests/ut_factory_injector.cpp:44-92 | the test classes: two concrete factories implement IDummyClassFactory; IOtherClassFactory is an interface too |
| `InjectorScenarios.TestKeys` | tests/ut_factory_injector.cpp:60-92 | both dummy factories and their interface share the key IDummyClassFactory; IOtherClassFactory has its own |
| `InjectorScenarios.RegisterAndGetFactory` | tests/ut_factory_injector.cpp:121-135 | after registering DummyClass1Factory, getting it by class gives a DummyClass1Factory, and getting it by interface gives the same instance |
| `InjectorScenarios.OverwriteAndGetFactory` | tests/ut_factory_injector.cpp:138-155 | after overwriting DummyClass1Factory with DummyClass2Factory, the slot holds a DummyClass2Factory, not a DummyClass1Factory |
| `InjectorScenarios.RegisterAlreadyExistentFactory` | tests/ut_factory_injector.cpp:158-165 | a second registration fails with AlreadyRegistered naming DummyClass1Factory, and GetFactory returns the same as before |
| `InjectorScenarios.GetNotExistentFactory` | tests/ut_factory_injector.cpp:168-175 | with only IDummyClassFactory registered, getting IOtherClassFactory fails with NotRegistered |
| `InjectorScenarios.CreateObject` | tests/ut_factory_injector.cpp:178-190 | creating through DummyClass1Factory, named by class or by interface, gives a DummyClass1 |

## Left out

- The `void*` accessor `GetPtr` and the `static_cast` back to the interface are memory-layout details. The stored value is a `RealInstance` tagged with its concrete type. `CastsAreSound` and `GetFactoryCastIsSound` state when the cast is correct: the stored class derives from the interface. The library does not check this, as `FiledWithoutDerivingFromInterface` shows; under its convention it holds (`ConventionMakesFactoryDeriveFromInterface`).
- `unique_ptr` ownership is not modelled, because the model works on Dafny's garbage-collected heap. This covers the destruction of a replaced instance and the references it leaves dangling.
- Variadic construction and `Create` arguments are one opaque `Args` value, copied into the instance. Exceptions thrown by user constructors or by `Create` are foreign code and are not modelled.
- A factory's `Create` is user code. `CreateObject` takes it as the parameter `create`, a total function of the stored instance and the arguments.
- Exception message text and the spelling of `typeid().name()` are implementation-defined. An error carries only its kind and the class name.
- Several conditions are enforced by the C++ type checker, not at run time, and are not modelled: a constructor for the exact factory type, a `Create` member of the interface, and a non-abstract `TFactory`.
- Only class types with single inheritance are described. Pointers, arrays, multiple inheritance and a class that redeclares `tInterface` itself are not.
- `src/not_copyable_movable.hpp` only deletes copy and move operations. A Dafny class reference already has identity, so nothing is modelled for it.
- `example/main.cpp` and `example/real_obj.hpp` are application wiring and console output, and are not part of this model.
- Concurrency is not modelled: the injector is single-threaded by design.

## Findings

| source | as written | input that shows it | evidently intended | confidence | as-written member | corrected member |
|---|---|---|---|---|---|---|
| src/factory_traits.hpp:44-49 | `add_const_ref<T>` applies `add_const` to `T&`. That has no effect on a reference type, so `get_interface_const_ref`, and the return type of `GetFactory`, is `I&`, a mutable reference. | T = `IDummyClassFactory` gives `IDummyClassFactory&`. tests/ut_factory_injector.cpp:132 compiles only because of this: it copy-assigns into the stored factory through the returned reference. | `const I&`, as the comments at src/factory_traits.hpp:41-47 and src/factory_injector.hpp:248 say: const added before the reference is formed | medium, not executed | `FactoryTraits.GetInterfaceConstRefIsNotConst` | `FactoryTraits.GetInterfaceReadOnlyRefIsConst` |

`Injector.FactoryInjector.GetFactory` keeps the type the code returns, `GetInterfaceConstRef`. The corrected form is `GetInterfaceReadOnlyRef`, built on `ReadOnlyRef`.
