/** The usage the package's tests exercise, replayed against the model: a registry with a
    service without dependencies, one that depends on it, one that depends on an
    unregistered service and one whose factory fails. */
module Scenarios {
  import opened Types
  import opened Signatures
  import opened Semantics
  import opened Di
  import opened Properties

  const Service1: Type := Type("*Service1", Pointer)
  const Service2: Type := Type("*Service2", Pointer)
  const Service3: Type := Type("*Service3", Pointer)
  const Service4: Type := Type("*Service4", Pointer)
  const Service5: Type := Type("*Service5", Pointer)
  /** `Service1` itself, a struct rather than a pointer to one. */
  const Service1Struct: Type := Type("Service1", Other)

  const Factory1: Callable := Func([], [Service1, ErrorType], (args: seq<Value>) => Returned(Value(1), None))
  const Factory2: Callable := Func([Service1], [Service2, ErrorType], (args: seq<Value>) => Returned(Value(2), None))
  const Factory4: Callable := Func([Service3], [Service4, ErrorType], (args: seq<Value>) => Returned(Value(4), None))
  const Factory5: Callable := Func([], [Service5, ErrorType], (args: seq<Value>) => Returned(Value(5), Some(Raised("~"))))

  /** The factory table the tests of `Get` set up. */
  ghost function Table(): map<Type, Callable> {
    map[Service1 := Factory1, Service2 := Factory2, Service4 := Factory4, Service5 := Factory5]
  }

  /** A ranking of that table: `Service2` and `Service4` sit above their dependencies. */
  ghost function Ranks(): map<Type, nat> {
    map[Service1 := 0, Service2 := 1, Service4 := 1, Service5 := 0]
  }

  /** The table is acyclic under `Ranks` and its factories take pointer parameters only. */
  lemma TableResolvable()
    ensures Resolvable(Table(), Ranks()) && ElemParams(Table())
  {
    assert Table().Keys == {Service1, Service2, Service4, Service5};
  }

  /** Resolving the parameter list `[p]` from the instance table `instances`. */
  lemma SingleParameter(instances: map<Type, Value>, p: Type, bound: nat)
    requires Resolvable(Table(), Ranks()) && Height(Table(), Ranks(), p) < bound
    ensures var last := Resolution(Table(), Ranks(), instances, p);
      DepsResolution(Table(), Ranks(), instances, [p], bound)
        == Step(if last.result.Err? then Err(last.result.error) else Ok([last.result.value]),
                last.instances, last.calls)
  {
    assert DepsResolution(Table(), Ranks(), instances, [], bound) == Step(Ok([]), instances, []);
    DepsStep(Table(), Ranks(), instances, [], p, bound);
    assert [] + [p] == [p];
    var last := Resolution(Table(), Ranks(), instances, p);
    assert [] + last.calls == last.calls;
    if last.result.Ok? {
      assert [] + [last.result.value] == [last.result.value];
    }
  }

  /** Getting `Service2` builds `Service1` first, then `Service2`, and caches both. */
  lemma Service2Resolution()
    requires Resolvable(Table(), Ranks())
    ensures Resolution(Table(), Ranks(), map[], Service2)
         == Step(Ok(Value(2)), map[Service1 := Value(1), Service2 := Value(2)],
                 [Invocation(Service1, None), Invocation(Service2, None)])
  {
    var one := map[Service1 := Value(1)];
    assert Resolution(Table(), Ranks(), map[], Service1)
        == Step(Ok(Value(1)), one, [Invocation(Service1, None)]);
    SingleParameter(map[], Service1, 2);
    assert one[Service2 := Value(2)] == map[Service1 := Value(1), Service2 := Value(2)];
  }

  /** Getting `Service4` fails on its unregistered dependency `Service3`. */
  lemma Service4Resolution()
    requires Resolvable(Table(), Ranks())
    ensures Resolution(Table(), Ranks(), map[], Service4) == Step(Err(NotRegistered), map[], [])
  {
    SingleParameter(map[], Service3, 2);
  }

  /** Registering factories of the right and of the wrong shapes: the first registration
      succeeds, and each later one fails with its own error and leaves the table as it was. */
  method RegisterScenario() returns (errs: seq<Option<Error>>, table: map<Type, Callable>)
    ensures errs == [None, Some(Duplicate), Some(FactoryNotAFunction), Some(FactoryWrongSignature(Service1)),
                     Some(FactoryWrongSignature(Service2)), Some(FactoryWrongResultCount)]
    ensures table == map[Service1 := Factory1]
  {
    var injector := new Injector();
    var err := injector.Register(Service1, Factory1);
    errs := [err];
    err := injector.Register(Service1, Factory1);
    errs := errs + [err];
    err := injector.Register(Service2, NotAFunction);
    errs := errs + [err];
    err := injector.Register(Service1, Factory2);
    errs := errs + [err];
    err := injector.Register(Service2, Func([], [Service2, Type("int", Other)], (args: seq<Value>) => Returned(Value(2), None)));
    errs := errs + [err];
    err := injector.Register(Service2, Func([], [Service2], (args: seq<Value>) => Returned(Value(2), None)));
    errs := errs + [err];
    table := injector.factories;
  }

  /** The registry the tests of `Get` start from. */
  method Setup() returns (injector: Injector)
    ensures fresh(injector) && injector.Valid()
    ensures injector.factories == Table() && injector.instances == map[]
    ensures Resolvable(injector.factories, Ranks()) && ElemParams(injector.factories)
  {
    injector := new Injector();
    var err := injector.Register(Service1, Factory1);
    assert err == None;
    err := injector.Register(Service2, Factory2);
    assert err == None;
    err := injector.Register(Service4, Factory4);
    assert err == None;
    err := injector.Register(Service5, Factory5);
    assert err == None;
    TableResolvable();
  }

  /** A struct instead of a pointer is refused, although `*Service1` is registered. */
  method GetNonPointerScenario() returns (r: Result<Value>)
    ensures r == Err(NotAPointer)
  {
    var injector := Setup();
    r := injector.Get(Service1Struct, Ranks());
  }

  /** `Service2` is built on `Service1`, which is built and cached on the way; getting
      `Service1` afterwards gives the cached instance. */
  method GetWithDependencyScenario() returns (second: Result<Value>, first: Result<Value>, cache: map<Type, Value>)
    ensures second == Ok(Value(2)) && first == Ok(Value(1))
    ensures cache == map[Service1 := Value(1), Service2 := Value(2)]
  {
    var injector := Setup();
    Service2Resolution();
    second := injector.Get(Service2, Ranks());
    assert injector.instances == map[Service1 := Value(1), Service2 := Value(2)];
    ResolutionShortcuts(Table(), Ranks(), injector.instances, Service1);
    first := injector.Get(Service1, Ranks());
    cache := injector.instances;
  }

  /** `Service4` depends on the unregistered `Service3`, whose `ErrNotRegistered` it gives. */
  method GetMissingDependencyScenario() returns (r: Result<Value>)
    ensures r == Err(NotRegistered)
  {
    var injector := Setup();
    Service4Resolution();
    r := injector.Get(Service4, Ranks());
  }

  /** `Service3` is not registered. */
  method GetUnregisteredScenario() returns (r: Result<Value>)
    ensures r == Err(NotRegistered)
  {
    var injector := Setup();
    ResolutionShortcuts(Table(), Ranks(), map[], Service3);
    r := injector.Get(Service3, Ranks());
  }

  /** The factory of `Service5` fails: its error comes back and nothing is cached. */
  method GetFailingFactoryScenario() returns (r: Result<Value>, cache: map<Type, Value>)
    ensures r == Err(Raised("~")) && cache == map[]
  {
    var injector := Setup();
    r := injector.Get(Service5, Ranks());
    cache := injector.instances;
  }

  /** InjectF on targets of the wrong shapes. */
  method InjectShapeScenario() returns (errs: seq<Option<Error>>)
    ensures errs == [Some(TargetNotAFunction), Some(TargetWrongResultCount), Some(TargetNotReturningError)]
  {
    var injector := new Injector();
    ghost var rank: map<Type, nat> := map[];
    var err := injector.InjectF(NotAFunction, rank);
    errs := [err];
    err := injector.InjectF(Func([], [], (args: seq<Value>) => Returned(Value(0), None)), rank);
    errs := errs + [err];
    err := injector.InjectF(Func([], [Type("int", Other)], (args: seq<Value>) => Returned(Value(0), None)), rank);
    errs := errs + [err];
  }

  /** InjectF on a function whose dependency is not registered. */
  method InjectMissingDependencyScenario() returns (err: Option<Error>)
    ensures err == Some(NotRegistered)
  {
    var injector := new Injector();
    ghost var rank: map<Type, nat> := map[];
    assert Ceiling(map[], rank, [Service1]) == 1 by {
      assert [Service1][1..] == [];
    }
    DepsStep(map[], rank, map[], [], Service1, 1);
    assert [] + [Service1] == [Service1];
    assert DepsResolution(map[], rank, map[], [Service1], 1) == Step(Err(NotRegistered), map[], []);
    err := injector.InjectF(Func([Service1], [ErrorType], (args: seq<Value>) => Returned(Value(0), None)), rank);
  }

  /** InjectF on a function that returns its own error: that error is the result. */
  method InjectOwnErrorScenario() returns (err: Option<Error>)
    ensures err == Some(Raised("~"))
  {
    var injector := new Injector();
    ghost var rank: map<Type, nat> := map[];
    err := injector.InjectF(Func([], [ErrorType], (args: seq<Value>) => Returned(Value(0), Some(Raised("~")))), rank);
  }
}
