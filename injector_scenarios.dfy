/**
 * The unit tests of the factory injector, replayed against the contracts of
 * `FactoryInjector`: each method builds the same declarations and calls, and
 * its assertions are the tests' expectations.
 */
module InjectorScenarios {
  import opened Wrappers
  import opened FactoryTraits
  import opened Injector

  /** The classes the unit tests declare. */
  function TestDecls(): (decls: Declarations)
    ensures Implements(decls, "DummyClass1Factory", "IDummyClassFactory")
    ensures Implements(decls, "DummyClass2Factory", "IDummyClassFactory")
    ensures IsFactoryInterface(decls, "IOtherClassFactory")
  {
    map[
      "IDummyClass" := NoBase,
      "DummyClass1" := Inherits("IDummyClass"),
      "DummyClass2" := Inherits("IDummyClass"),
      "IDummyClassFactory" := InheritsTraits(Plain("IDummyClassFactory"), Plain("IDummyClass")),
      "DummyClass1Factory" := Inherits("IDummyClassFactory"),
      "DummyClass2Factory" := Inherits("IDummyClassFactory"),
      "IOtherClassFactory" := InheritsTraits(Plain("IOtherClassFactory"), Plain("IDummyClass"))
    ]
  }

  /** A created object, identified by its dynamic class. */
  datatype Product = Product(cls: ClassName)

  /** `Create` of the two dummy factories, dispatched on the dynamic type of the instance. */
  function DummyCreate(instance: RealInstance, args: Args): (p: Product)
  {
    if instance.factory.cls == "DummyClass1Factory" then Product("DummyClass1") else Product("DummyClass2")
  }

  /** The facts about the test classes that the scenarios need. */
  lemma TestKeys(decls: Declarations)
    requires decls == TestDecls()
    ensures HasInterface(decls, Plain("DummyClass1Factory"))
    ensures HasInterface(decls, Plain("DummyClass2Factory"))
    ensures HasInterface(decls, Plain("IDummyClassFactory"))
    ensures HasInterface(decls, Plain("IOtherClassFactory"))
    ensures FactoryInjector.GetInterfaceTypeIndex(decls, Plain("DummyClass1Factory")) == TypeIndex("IDummyClassFactory")
    ensures FactoryInjector.GetInterfaceTypeIndex(decls, Plain("DummyClass2Factory")) == TypeIndex("IDummyClassFactory")
    ensures FactoryInjector.GetInterfaceTypeIndex(decls, Plain("IDummyClassFactory")) == TypeIndex("IDummyClassFactory")
    ensures FactoryInjector.GetInterfaceTypeIndex(decls, Plain("IOtherClassFactory")) == TypeIndex("IOtherClassFactory")
  {
    ConcreteResolvesToInterface(decls, "DummyClass1Factory", "IDummyClassFactory");
    ConcreteResolvesToInterface(decls, "DummyClass2Factory", "IDummyClassFactory");
    InterfaceResolvesToItself(decls, "IOtherClassFactory");
  }

  /** Registering a factory, then getting it by its own type and by its interface. */
  method RegisterAndGetFactory() returns (byClass: Result<FactoryRef, InjectorError>, byInterface: Result<FactoryRef, InjectorError>)
    ensures byClass.Success? && byClass.value.instance.factory == Plain("DummyClass1Factory")
    ensures byClass.value.instance.factory != Plain("DummyClass2Factory")
    ensures byInterface.Success? && byInterface.value.instance == byClass.value.instance
  {
    var decls := TestDecls();
    TestKeys(decls);
    var fi := new FactoryInjector();
    var r := fi.RegisterFactory(decls, Plain("DummyClass1Factory"), []);
    byClass := fi.GetFactory(decls, Plain("DummyClass1Factory"));
    byInterface := fi.GetFactory(decls, Plain("IDummyClassFactory"));
  }

  /** Overwriting a factory replaces the instance. */
  method OverwriteAndGetFactory() returns (first: Result<FactoryRef, InjectorError>, second: Result<FactoryRef, InjectorError>)
    ensures first.Success? && first.value.instance.factory == Plain("DummyClass1Factory")
    ensures second.Success? && second.value.instance.factory == Plain("DummyClass2Factory")
    ensures second.value.instance.factory != Plain("DummyClass1Factory")
  {
    var decls := TestDecls();
    TestKeys(decls);
    var fi := new FactoryInjector();
    fi.OverwriteFactory(decls, Plain("DummyClass1Factory"), []);
    first := fi.GetFactory(decls, Plain("IDummyClassFactory"));
    fi.OverwriteFactory(decls, Plain("DummyClass2Factory"), []);
    second := fi.GetFactory(decls, Plain("DummyClass2Factory"));
  }

  /** Registering twice fails, naming the factory type, and keeps the first instance. */
  method RegisterAlreadyExistentFactory()
    returns (r1: Outcome<InjectorError>, r2: Outcome<InjectorError>,
             before: Result<FactoryRef, InjectorError>, after: Result<FactoryRef, InjectorError>)
    ensures r1.Pass?
    ensures r2 == Fail(FactoryAlreadyRegistered("DummyClass1Factory"))
    ensures after == before && after.Success? && after.value.instance.factory == Plain("DummyClass1Factory")
  {
    var decls := TestDecls();
    TestKeys(decls);
    var fi := new FactoryInjector();
    r1 := fi.RegisterFactory(decls, Plain("DummyClass1Factory"), []);
    before := fi.GetFactory(decls, Plain("IDummyClassFactory"));
    r2 := fi.RegisterFactory(decls, Plain("DummyClass1Factory"), []);
    after := fi.GetFactory(decls, Plain("IDummyClassFactory"));
  }

  /** A registration under one interface does not satisfy a lookup of another. */
  method GetNotExistentFactory() returns (other: Result<FactoryRef, InjectorError>)
    ensures other == Failure(FactoryNotRegistered("IOtherClassFactory"))
  {
    var decls := TestDecls();
    TestKeys(decls);
    var fi := new FactoryInjector();
    var r := fi.RegisterFactory(decls, Plain("DummyClass1Factory"), []);
    other := fi.GetFactory(decls, Plain("IOtherClassFactory"));
  }

  /** Creating objects through the registered factory, by its type and by its interface. */
  method CreateObject() returns (byClass: Result<Product, InjectorError>, byInterface: Result<Product, InjectorError>)
    ensures byClass == Success(Product("DummyClass1"))
    ensures byInterface == Success(Product("DummyClass1"))
  {
    var decls := TestDecls();
    TestKeys(decls);
    var fi := new FactoryInjector();
    var r := fi.RegisterFactory(decls, Plain("DummyClass1Factory"), []);
    byClass := fi.CreateObject(decls, Plain("DummyClass1Factory"), DummyCreate, []);
    byInterface := fi.CreateObject(decls, Plain("IDummyClassFactory"), DummyCreate, []);
  }
}
