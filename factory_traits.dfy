/**
 * The compile-time type functions of the factory injector, modelled as
 * functions over descriptions of C++ class types: stripping and adding
 * `const` and references, and finding the interface a factory type is filed
 * under (its `tInterface`, inherited from `FactoryTraits`).
 */
module FactoryTraits {
  import opened Wrappers

  /** The name of a C++ class: what `typeid` of the class identifies. */
  type ClassName = string

  /** The reference part of a C++ type. */
  datatype RefKind = NoRef | LValueRef | RValueRef

  /**
   * A C++ type built on a class: `C`, `const C`, `volatile C`, `C&`,
   * `const C&`, `C&&`, ...  When `ref` is not `NoRef`, the cv-qualifiers
   * belong to the referenced type: C++ has no cv-qualified references.
   */
  datatype TypeDesc = TypeDesc(cls: ClassName, isConst: bool, isVolatile: bool, ref: RefKind)
  {
    predicate IsReference() { ref != NoRef }
    predicate IsUnqualified() { !isConst && !isVolatile && ref == NoRef }
  }

  /** The class type itself, without qualifiers or reference. */
  function Plain(cls: ClassName): (t: TypeDesc)
    ensures t.cls == cls && t.IsUnqualified()
  {
    TypeDesc(cls, false, false, NoRef)
  }

  /** `std::remove_reference`: drops the reference, keeps the referenced type's cv. */
  function RemoveReference(t: TypeDesc): (r: TypeDesc)
  {
    t.(ref := NoRef)
  }

  /** `std::remove_cv`: drops top-level const and volatile; a reference type has none. */
  function RemoveCv(t: TypeDesc): (r: TypeDesc)
  {
    if t.IsReference() then t else t.(isConst := false, isVolatile := false)
  }

  /** `std::add_lvalue_reference`: `T` becomes `T&`; `T&` and `T&&` collapse to `T&`. */
  function AddLvalueReference(t: TypeDesc): (r: TypeDesc)
  {
    t.(ref := LValueRef)
  }

  /** `std::add_const`: adds top-level const; on a reference type it does nothing. */
  function AddConst(t: TypeDesc): (r: TypeDesc)
  {
    if t.IsReference() then t else t.(isConst := true)
  }

  /** `remove_const_ref<T>`: remove_cv of remove_reference. */
  function RemoveConstRef(t: TypeDesc): (r: TypeDesc)
    ensures r == Plain(t.cls)
  {
    RemoveCv(RemoveReference(t))
  }

  /**
   * `add_const_ref<T>` as written: add_const applied to add_lvalue_reference.
   * The result is an lvalue reference to T's own type, const only if T was.
   */
  function AddConstRef(t: TypeDesc): (r: TypeDesc)
    ensures r == TypeDesc(t.cls, t.isConst, t.isVolatile, LValueRef)
  {
    AddConst(AddLvalueReference(t))
  }

  /**
   * The reference to const that `add_const_ref` is documented to produce:
   * const is added to the referenced type before the reference is formed.
   */
  function ReadOnlyRef(t: TypeDesc): (r: TypeDesc)
    ensures r.cls == t.cls && r.isConst && r.ref == LValueRef
    ensures RemoveConstRef(r) == RemoveConstRef(t)
  {
    AddLvalueReference(AddConst(RemoveReference(t)))
  }

  /** `get_factory<TFactory>`: the cleaned factory type. */
  function GetFactory(t: TypeDesc): (r: TypeDesc)
    ensures r.IsUnqualified() && r.cls == t.cls
  {
    RemoveConstRef(t)
  }

  /** The member types of `FactoryTraits<TInterface, TObject>`. */
  datatype Traits = Traits(tInterface: TypeDesc, tObject: TypeDesc)

  /** `FactoryTraits<iface, obj>`: both member types are cleaned of const and reference. */
  function FactoryTraitsOf(iface: TypeDesc, obj: TypeDesc): (tr: Traits)
    ensures tr.tInterface == Plain(iface.cls) && tr.tObject == Plain(obj.cls)
  {
    Traits(RemoveConstRef(iface), RemoveConstRef(obj))
  }

  /** How a class is declared, as far as finding its `tInterface` goes (single inheritance). */
  datatype ClassDecl =
    | NoBase                                        // class C { ... }
    | InheritsTraits(iface: TypeDesc, obj: TypeDesc) // class C : public FactoryTraits<iface, obj>
    | Inherits(base: ClassName)                     // class C : public base

  /** The class declarations visible to the compiler. */
  type Declarations = map<ClassName, ClassDecl>

  /**
   * The `FactoryTraits` that class `cls` inherits: what name lookup of the
   * member type `cls::tInterface` finds, walking up the base classes. A class
   * already visited is dropped from the declarations, so a cyclic (ill-formed)
   * hierarchy finds nothing, as does a chain that ends without `FactoryTraits`;
   * both are compile errors in C++.
   */
  function InheritedTraits(decls: Declarations, cls: ClassName): (r: Option<Traits>)
    ensures r.Some? ==> cls in decls && !decls[cls].NoBase?
    ensures r.Some? ==> r.value.tInterface.IsUnqualified() && r.value.tObject.IsUnqualified()
    decreases decls.Keys
  {
    if cls !in decls then None
    else match decls[cls]
      case NoBase => None
      case InheritsTraits(iface, obj) => Some(FactoryTraitsOf(iface, obj))
      case Inherits(base) => InheritedTraits(decls - {cls}, base)
  }

  /** `get_interface<TFactory>`: the `tInterface` of the cleaned factory type, if it has one. */
  function GetInterface(decls: Declarations, t: TypeDesc): (r: Option<TypeDesc>)
    ensures r.Some? ==> r.value.IsUnqualified()
    ensures r.Some? <==> InheritedTraits(decls, t.cls).Some?
  {
    match InheritedTraits(decls, GetFactory(t).cls)
    case None => None
    case Some(tr) => Some(tr.tInterface)
  }

  /** The compile-time requirement of every injector operation on `t`: `t` has a `tInterface`. */
  predicate HasInterface(decls: Declarations, t: TypeDesc)
  {
    GetInterface(decls, t).Some?
  }

  /** `get_interface_const_ref<TFactory>` as written. */
  function GetInterfaceConstRef(decls: Declarations, t: TypeDesc): (r: TypeDesc)
    requires HasInterface(decls, t)
    ensures r.ref == LValueRef && RemoveConstRef(r) == GetInterface(decls, t).value
  {
    AddConstRef(GetInterface(decls, t).value)
  }

  /** The reference to the const interface that `get_interface_const_ref` is documented to be. */
  function GetInterfaceReadOnlyRef(decls: Declarations, t: TypeDesc): (r: TypeDesc)
    requires HasInterface(decls, t)
    ensures r.isConst && r.ref == LValueRef
    ensures RemoveConstRef(r) == GetInterface(decls, t).value
  {
    ReadOnlyRef(GetInterface(decls, t).value)
  }

  /**
   * The class along the base chain of `cls` that inherits `FactoryTraits`
   * directly: the class whose `tInterface` name lookup finds.
   */
  function TraitsOwner(decls: Declarations, cls: ClassName): (r: Option<ClassName>)
    ensures r.Some? <==> InheritedTraits(decls, cls).Some?
    decreases decls.Keys
  {
    if cls !in decls then None
    else match decls[cls]
      case NoBase => None
      case InheritsTraits(_, _) => Some(cls)
      case Inherits(base) => TraitsOwner(decls - {cls}, base)
  }

  /** Class `cls` is class `ancestor` or derives from it, directly or through its bases. */
  predicate DerivesFrom(decls: Declarations, cls: ClassName, ancestor: ClassName)
    ensures DerivesFrom(decls, cls, ancestor) && cls != ancestor ==> cls in decls && decls[cls].Inherits?
    decreases decls.Keys
  {
    cls == ancestor
    || (cls in decls && decls[cls].Inherits? && DerivesFrom(decls - {cls}, decls[cls].base, ancestor))
  }

  /**
   * The library's convention for a factory interface `i`: it inherits
   * `FactoryTraits<i, O>`, naming itself (possibly qualified) as the interface.
   */
  predicate IsFactoryInterface(decls: Declarations, i: ClassName)
  {
    i in decls && decls[i].InheritsTraits? && decls[i].iface.cls == i
  }

  /** Concrete factory `f` derives directly from factory interface `i`. */
  predicate Implements(decls: Declarations, f: ClassName, i: ClassName)
  {
    f in decls && decls[f] == Inherits(i) && IsFactoryInterface(decls, i)
  }

  // ---------------------------------------------------------------------------
  // Qualifiers

  /** remove_const_ref is idempotent. */
  lemma RemoveConstRefIdempotent(t: TypeDesc)
    ensures RemoveConstRef(RemoveConstRef(t)) == RemoveConstRef(t)
    ensures RemoveConstRef(t).IsUnqualified()
  {
  }

  /** Naming `F`, `const F`, `F&`, `const F&`, `F&&` ... gives the same factory and interface. */
  lemma QualifiersNeverChangeKey(decls: Declarations, cls: ClassName, isConst: bool, isVolatile: bool, ref: RefKind)
    ensures GetFactory(TypeDesc(cls, isConst, isVolatile, ref)) == Plain(cls)
    ensures GetInterface(decls, TypeDesc(cls, isConst, isVolatile, ref)) == GetInterface(decls, Plain(cls))
  {
  }

  /** Stripping what add_const_ref added gives back an unqualified type. */
  lemma RemoveAddConstRef(t: TypeDesc)
    ensures RemoveConstRef(AddConstRef(t)) == RemoveConstRef(t)
    ensures t.IsUnqualified() ==> RemoveConstRef(AddConstRef(t)) == t
  {
  }

  // ---------------------------------------------------------------------------
  // Interface identity

  /** An interface declared through FactoryTraits<I, O> resolves to itself. */
  lemma InterfaceResolvesToItself(decls: Declarations, i: ClassName)
    requires IsFactoryInterface(decls, i)
    ensures GetInterface(decls, Plain(i)) == Some(Plain(i))
  {
  }

  /** Resolving an interface a second time changes nothing. */
  lemma ResolvingTwiceIsStable(decls: Declarations, t: TypeDesc)
    requires HasInterface(decls, t)
    requires IsFactoryInterface(decls, GetInterface(decls, t).value.cls)
    ensures GetInterface(decls, GetInterface(decls, t).value) == GetInterface(decls, t)
  {
    InterfaceResolvesToItself(decls, GetInterface(decls, t).value.cls);
  }

  /** A concrete factory resolves to the interface it derives from. */
  lemma ConcreteResolvesToInterface(decls: Declarations, f: ClassName, i: ClassName)
    requires Implements(decls, f, i)
    ensures GetInterface(decls, Plain(f)) == Some(Plain(i))
    ensures GetInterface(decls, Plain(f)) == GetInterface(decls, Plain(i))
  {
    assert f != i;
    var rest := decls - {f};
    assert i in rest && rest[i] == decls[i];
    assert InheritedTraits(rest, i) == Some(FactoryTraitsOf(decls[i].iface, decls[i].obj));
    InterfaceResolvesToItself(decls, i);
  }

  /** Distinct interfaces have distinct identities, even when they create the same object type. */
  lemma DistinctInterfacesDistinctKeys(decls: Declarations, i1: ClassName, i2: ClassName)
    requires IsFactoryInterface(decls, i1) && IsFactoryInterface(decls, i2)
    requires i1 != i2
    ensures GetInterface(decls, Plain(i1)) != GetInterface(decls, Plain(i2))
  {
    InterfaceResolvesToItself(decls, i1);
    InterfaceResolvesToItself(decls, i2);
  }

  /**
   * Declaring more classes never changes the traits a class already
   * inherits: lookup of `tInterface` depends only on the class's own chain of
   * bases.
   */
  lemma {:induction false} InheritedTraitsStable(decls: Declarations, more: Declarations, cls: ClassName)
    requires forall c :: c in decls ==> c in more && more[c] == decls[c]
    requires InheritedTraits(decls, cls).Some?
    ensures InheritedTraits(more, cls) == InheritedTraits(decls, cls)
    decreases decls.Keys
  {
    match decls[cls]
    case InheritsTraits(iface, obj) =>
    case Inherits(base) =>
      InheritedTraitsStable(decls - {cls}, more - {cls}, base);
  }

  /**
   * A class newly derived from another class (a mock derived from a concrete
   * factory, say) is filed under the same interface as its base, or, like
   * its base, under none.
   */
  lemma SubclassSharesInterface(decls: Declarations, sub: ClassName, base: ClassName)
    requires sub !in decls
    ensures GetInterface(decls[sub := Inherits(base)], Plain(sub)) == GetInterface(decls, Plain(base))
  {
    var more := decls[sub := Inherits(base)];
    assert more - {sub} == decls;
  }

  /** Declaring a new class keeps the interface of every type that already had one. */
  lemma DeclaringClassKeepsInterfaces(decls: Declarations, c: ClassName, d: ClassDecl, t: TypeDesc)
    requires c !in decls
    requires HasInterface(decls, t)
    ensures GetInterface(decls[c := d], t) == GetInterface(decls, t)
  {
    InheritedTraitsStable(decls, decls[c := d], t.cls);
  }

  /**
   * The class that supplies the `tInterface` of `cls` is one of its
   * ancestors, and the traits found are the ones that class declares.
   */
  lemma {:induction false} TraitsOwnerIsAncestor(decls: Declarations, cls: ClassName)
    requires InheritedTraits(decls, cls).Some?
    ensures var owner := TraitsOwner(decls, cls).value;
      && owner in decls && decls[owner].InheritsTraits?
      && DerivesFrom(decls, cls, owner)
      && InheritedTraits(decls, cls) == Some(FactoryTraitsOf(decls[owner].iface, decls[owner].obj))
    decreases decls.Keys
  {
    match decls[cls]
    case InheritsTraits(_, _) =>
    case Inherits(base) =>
      TraitsOwnerIsAncestor(decls - {cls}, base);
  }

  /**
   * Under the library's convention (the class that inherits `FactoryTraits`
   * names itself as the interface), a factory type derives from the
   * interface it is filed under, so viewing it as that interface is sound.
   */
  lemma ConventionMakesFactoryDeriveFromInterface(decls: Declarations, t: TypeDesc)
    requires HasInterface(decls, t)
    requires IsFactoryInterface(decls, TraitsOwner(decls, t.cls).value)
    ensures DerivesFrom(decls, t.cls, GetInterface(decls, t).value.cls)
  {
    TraitsOwnerIsAncestor(decls, t.cls);
  }

  /**
   * Nothing checks the convention: a class that inherits `FactoryTraits<I, O>`
   * for some other class I is filed under I without deriving from I.
   */
  lemma FiledWithoutDerivingFromInterface()
    ensures var decls := map["I" := InheritsTraits(Plain("I"), Plain("O")), "X" := InheritsTraits(Plain("I"), Plain("O"))];
      && GetInterface(decls, Plain("X")) == Some(Plain("I"))
      && !DerivesFrom(decls, "X", "I")
  {
    var decls := map["I" := InheritsTraits(Plain("I"), Plain("O")), "X" := InheritsTraits(Plain("I"), Plain("O"))];
    assert "X" != "I";
    assert decls["X"] == InheritsTraits(Plain("I"), Plain("O"));
  }

  // ---------------------------------------------------------------------------
  // The return type of GetFactory

  /**
   * As written, `get_interface_const_ref` is an lvalue reference to the
   * non-const interface: `add_const` applied to a reference type changes
   * nothing.
   */
  lemma GetInterfaceConstRefIsNotConst(decls: Declarations, t: TypeDesc)
    requires HasInterface(decls, t)
    ensures GetInterfaceConstRef(decls, t) == TypeDesc(GetInterface(decls, t).value.cls, false, false, LValueRef)
    ensures !GetInterfaceConstRef(decls, t).isConst
  {
  }

  /** The documented form: a reference to the const interface, for every factory type. */
  lemma GetInterfaceReadOnlyRefIsConst(decls: Declarations, t: TypeDesc)
    requires HasInterface(decls, t)
    ensures GetInterfaceReadOnlyRef(decls, t) == TypeDesc(GetInterface(decls, t).value.cls, true, false, LValueRef)
  {
  }
}
