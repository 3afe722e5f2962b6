# A verified model of the `di` dependency-injection registry

The Go package `di` (file `injector.go`) is a registry of singleton services keyed by
runtime type. It holds two tables:

- `factories` maps a type to the factory function that builds it;
- `instances` maps a type to the instance built for it.

It offers three operations:

- `Register(instance, factory)` checks that the factory is a function returning
  `(T, error)` for the instance's type `T`. It refuses a type that already has a factory.
  Otherwise it adds the factory.
- `Get(instance)` resolves the type of its pointer argument. A cached type gives its stored
  instance. An uncached type has the parameters of its factory resolved, in declared order
  and recursively, through `injectFunc`. The factory is then called on them, and its instance
  is cached only when it returns a nil error.
- `InjectF(function)` checks that the function has the shape `func(...) error`. It resolves
  the function's parameters the same way, calls it, and returns the function's own error.
  As written it panics when that error is nil; the model records this under "## Findings"
  and follows the intended behaviour, which returns nil.

The model has five modules:

- `Types` (types.dfy) holds the values the registry handles. A Go type is reduced to its
  name and its kind. An instance is an opaque value. A function is its parameter types,
  its result types and its behaviour, a total function from arguments to the value and
  error it returns.
- `Signatures` (signatures.dfy) holds the shape checks of `Register` and `InjectF`, as
  pure functions that return the first error in the order the source tests for them.
- `Semantics` (semantics.dfy) states what `get`, `injectFunc` and `InjectF` compute, as
  ghost functions:
  - `Resolution` computes `get`, `DepsResolution` the loop of `injectFunc`, and `Injection`
    computes `InjectF`.
  - Each maps the factory table and the instance table before the call to a `Step`. A
    `Step` holds the result, the instance table after the call, and the factory calls the
    call made, in order.
  - The module also proves the facts every resolution obeys (`ResolutionFacts`,
    `DepsFacts`).
- `Di` (injector.dfy) is the registry itself:
  - It is a class `Injector` with the two tables as fields, which its methods update in
    place.
  - A ghost field `log` records every factory call with the error it returned.
  - `Get`, `Resolve`, `InjectFunc` and `InjectF` are each proved to produce exactly the
    `Step` of their semantic function; `Register` is proved against `RegistrationError`.
  - The public methods keep the class invariant `Valid()`: every factory has the right
    shape for its type, only registered types are cached, and the cache holds exactly the
    types whose factory has succeeded, each of which succeeded once.
- `Properties` (properties.dfy) proves what the registry promises its callers about those
  semantic functions: the early exits of `get`, memoisation, error propagation, partial
  progress and the outcomes of `InjectF`.
- `Scenarios` (scenarios.dfy) replays the package's own tests against the class.

Resolution terminates only on an acyclic factory graph. The resolving methods therefore take
a ghost `rank`, a map of registered types to numbers that decrease along every factory
parameter. `Resolvable(factories, rank)` states this.

## Model

| member | source | states |
|---|---|---|
| Signatures.FactoryShapeError | injector.go:65-73 | No error exactly when the factory is a function returning `(t, error)`. A non-function gives not-a-function. A function without exactly two results gives wrong-result-count. A function with two results of the wrong types gives wrong-signature for `t`. |
| Signatures.RegistrationError | injector.go:61-84 | Registration succeeds exactly when the factory has the right shape and the type has no factory yet. A factory of the wrong shape gives its shape error, whether or not the type is registered. `ErrDuplicate` is returned exactly when the shape is right and the type is already registered. |
| Signatures.TargetShapeError | injector.go:89-97 | No error exactly when the target is a function returning just `error`. A non-function gives not-a-function. A function without exactly one result gives wrong-result-count. A function whose one result is not `error` gives not-returning-error. |
| Di.Injector.constructor | injector.go:10-16 | `New` gives empty factory and instance tables, and the invariant holds. |
| Di.Injector.Register | injector.go:61-84 | The returned error is `RegistrationError` of the registered types. On success exactly one entry `t := factory` is added to `factories`. On any error `factories` is unchanged, so the original factory is kept on `ErrDuplicate`. No existing factory is removed or replaced. `instances` and the call log never change. The invariant is kept. |
| Di.Injector.Get | injector.go:30-34 | The result, the new instance table and the factory calls made are exactly those of `Resolution`. On success the instance is cached under `t`. Every instance cached before stays cached with the same value. The factory table is unchanged. The invariant is kept: the cache holds exactly the types whose factory succeeded, and no factory runs for a type after it has succeeded. |
| Di.Injector.Resolve | injector.go:36-59 | `get`, step by step, produces exactly the result, instance table and factory calls of `Resolution`: a non-pointer type fails first; a cached type gives its instance; an unregistered type gives `ErrNotRegistered`; otherwise `injectFunc` runs the factory, and its instance is cached only on a nil error. |
| Di.Injector.InjectFunc | injector.go:106-123 | The loop resolves the parameters in order through `get` and stops at the first failure, whose error it returns. The instance table and factory calls match `DepsResolution`. On success the function is called on the resolved instances, in order. |
| Di.Injector.InjectF | injector.go:86-104 | The result, the new instance table and the factory calls are exactly those of `Injection`, the intended `InjectF` (see "## Findings"). Every instance cached before stays cached. The invariant is kept. |
| Semantics.Resolution | injector.go:36-59 | Definition of `get`: a non-pointer type fails; a cached type gives its instance; an unregistered type fails; otherwise the factory's parameters are resolved, the factory is called and logged, and its instance is cached only when it returns no error. |
| Semantics.DepsResolution | injector.go:112-120 | Definition of `injectFunc`'s loop: the parameters are resolved left to right from the table the previous one left, stopping at the first error. |
| Semantics.Injection | injector.go:86-104 | Definition of the intended `InjectF`: the shape checks, then the parameters' resolution, then the function's own error, nil included. |
| Semantics.InjectionAsWritten | injector.go:86-104 | Definition of `InjectF` as written: as `Injection`, except that a nil result from the function panics. |
| Semantics.ResolutionFacts | injector.go:36-59 | Facts every resolution obeys. Cached instances are never replaced. A factory is called only for a registered type that was not cached before. No factory is called again for a type once it has succeeded. The new cache entries are exactly the types whose factory succeeded. Only the last call may have failed. On success `t` is cached with the returned instance and no factory failed. On failure `t` is not newly cached, and the error is the last failing factory's own error or a lookup error (`NotAPointer`, `ErrNotRegistered`), never wrapped. |
| Semantics.DepsFacts | injector.go:106-120 | Resolving a parameter list obeys the same facts. On success every parameter is cached, and the arguments are the cached instances of the parameters in declared order. On failure the error is passed on unchanged. |
| Semantics.DepsStepAt | injector.go:112-120 | Resolving the first `j + 1` parameters is resolving the first `j` and then parameter `j`, from the instance table the first `j` left. |
| Semantics.DepsStopAtFailure | injector.go:115-118 | Once a prefix of the parameters fails, resolving all of them gives exactly what resolving that prefix gave. Nothing after the failure is resolved or called. |
| Semantics.GrowsKeepsRecord | injector.go:40-56 | A resolution step keeps the call log in agreement with the cache, and keeps the cache within the registered types. |
| Properties.ResolutionShortcuts | injector.go:37-45 | The three early exits of `get` call no factory and leave the instance table unchanged. A non-pointer type gives `NotAPointer` whether or not it is registered or cached. A cached type gives its stored instance. An uncached, unregistered type gives `ErrNotRegistered`. |
| Properties.QuietResolution | injector.go:36-59 | A resolution that called no factory left the instance table exactly as it was. |
| Properties.RepeatedResolution | injector.go:40-57 | Once `t` has been resolved, resolving it again gives the identical instance, calls no factory and changes nothing. |
| Properties.CacheOnlyGrows | injector.go:54-55 | Whatever is resolved, every type cached before stays cached with the same instance. |
| Properties.FreshInstanceFromFactory | injector.go:46-57 | A successful resolution of an uncached type ends with a call of that type's factory that returned no error. The factory was called on the cached instances of its parameters, in order. Its instance is both returned and cached under that type. |
| Properties.FactoryErrorNotCached | injector.go:50-53 | When the factory returns an error, resolution returns that error unchanged. The instance table is the one its dependencies left, and it does not contain the type (there is no negative cache). |
| Properties.DependencyFailure | injector.go:46-49 | When resolving a factory's parameters fails, resolution returns that error unchanged. The factory is not called and the type is not cached. Everything cached before stays cached with the same instance. |
| Properties.FirstFailureFacts | injector.go:112-120 | When resolving a parameter list fails, there is a first failing parameter (`FirstFailure`). Every parameter before it resolved, its own resolution failed, and resolving the list gives exactly what resolving up to it gives. |
| Properties.ResolvedDependenciesStayCached | injector.go:112-120 | When resolving a parameter list fails, the error is the first failing parameter's own error. Every parameter before it stays cached (partial progress is kept). |
| Properties.InjectionOutcomes | injector.go:86-104 | The intended `InjectF` has three outcomes. A target of the wrong shape gives its shape error, with nothing resolved and nothing changed. A dependency failure gives that dependency's error. Otherwise the result is exactly the function's own error, from calling it on the cached instances of its parameters in order. That error may be nil, where the code as written panics (see "## Findings"). |
| Properties.InjectionPanicsOnNil | injector.go:99-103 | `InjectF` as written has the same result, cache and factory calls as the intended one, except that it panics exactly where the intended one returns nil. That happens when the target has the right shape, its dependencies resolve, and it returns nil on their instances in order. |
| Properties.NilTargetPanics | injector.go:103 | On an empty registry, `InjectF(func() error { return nil })` as written panics, while the intended `InjectF` returns nil. |
| Properties.SucceedsAtMostOnce | injector.go:40-56 | In a call history where no factory runs for a type after it has succeeded, each type's factory has succeeded exactly once if it is among the successes, and never otherwise. |
| Properties.CachedExactlyOnce | injector.go:40-56 | Under the registry's invariant, the factory of a cached type has succeeded exactly once, and that of an uncached type never. |
| Scenarios.RegisterScenario | injector_test.go:25-83 | A first registration succeeds. Registering the same type again gives `ErrDuplicate`. A non-function factory, factories returning the wrong service type or a non-`error` second result, and a factory with one result each give their own shape error. The table keeps only the first factory. |
| Scenarios.GetNonPointerScenario | injector_test.go:107-111 | Getting the struct `Service1` rather than a pointer fails with not-a-pointer, although `*Service1` is registered. |
| Scenarios.GetWithDependencyScenario | injector_test.go:113-127 | Getting `Service2` returns its factory's instance, and afterwards `Service1` and `Service2` are both cached. Getting `Service1` then returns the instance cached on the way. |
| Scenarios.GetMissingDependencyScenario | injector_test.go:129-134 | Getting `Service4`, whose dependency is unregistered, gives `ErrNotRegistered`. |
| Scenarios.GetUnregisteredScenario | injector_test.go:136-141 | Getting the unregistered `Service3` gives `ErrNotRegistered`. |
| Scenarios.GetFailingFactoryScenario | injector_test.go:143-148 | Getting `Service5`, whose factory fails, returns that factory's own error and caches nothing. |
| Scenarios.InjectShapeScenario | injector_test.go:152-170 | A non-function target, a function with no result and a function returning `int` give not-a-function, wrong-result-count and not-returning-error respectively. |
| Scenarios.InjectMissingDependencyScenario | injector_test.go:172-176 | Injecting into a function that needs the unregistered `Service1` gives `ErrNotRegistered`. |
| Scenarios.InjectOwnErrorScenario | injector_test.go:178-182 | Injecting into a function that returns its own error gives exactly that error. |
| Scenarios.Setup | injector_test.go:86-105 | Registering the four factories of the `Get` tests succeeds. It gives exactly that factory table, an empty cache and an acyclic graph. |
| Scenarios.Service2Resolution | injector_test.go:121-127 | Getting `Service2` first builds and caches `Service1`, then builds and caches `Service2`, calling each factory once. |
| Scenarios.Service4Resolution | injector_test.go:129-134 | Getting `Service4`, whose dependency `Service3` is unregistered, gives `ErrNotRegistered`, calls no factory and caches nothing. |

## Left out

- Locking. The `sync.RWMutex` is not modelled. Every operation is atomic and sequential.
  Unlike `Get` and `Register`, `InjectF` takes no lock (injector.go:86-104), so its
  resolution can race with them. Concurrency is outside a sequential model.
- Reflection:
  - `reflect.TypeOf`, `reflect.New`, `reflect.Indirect`, `Value.Set` and `Value.Call` are
    replaced by `Type` values and `Callable` bodies.
  - Writing the instance into the caller's pointer (injector.go:57) is the returned `Ok`
    value of `Get`.
  - A type's result is recognised as `error` by equality with `ErrorType` instead of by
    comparing its name with the string `"error"`.
- Di.Injector.InjectFunc, Di.Injector.InjectF: panics of `paramType.Elem()` are excluded by
  preconditions, not modelled (injector.go:114).
  - Go panics there for parameter kinds other than pointer, array, channel, map and slice.
  - The methods require every parameter type of the target and of every registered factory
    to have an element type (`HasElem`, `ElemParams`).
  - Go panics only for parameters it actually reaches. The precondition covers all of them.
- Nil arguments, and values that reflection cannot inspect, are not modelled:
  - `Get(nil)` makes `reflect.TypeOf` return nil, and `get` panics on its `Kind()`.
  - `Register(nil, f)` returns the shape errors as usual while `f` is not a function or does
    not have two results. Once `f` is a function with two results, formatting or comparing
    the nil type panics (injector.go:71-72).
  - A factory may return a nil pointer with a nil error. `reflect.Indirect` of it is the
    zero `reflect.Value`, which `get` stores in `instances` (injector.go:54-55) before
    `Value.Set` panics on it (injector.go:57). Every later `Get` of that type panics too.
  - A factory's returned instance is always a value here.
- Error messages. Only the error kinds are distinguished. The wording of the messages is
  not modelled; for example, `InjectF` reports a result that is not `error` as a problem
  with "the second argument" (injector.go:96). The sentinels `ErrNotRegistered` and
  `ErrDuplicate` are declared elsewhere in the package. That file is not part of this
  model, so they are modelled as distinct constructors.
- User code. Factory and target bodies are total, deterministic functions of their
  arguments. Side effects, panics and non-termination inside them are not modelled.
- Cyclic factory graphs, on which `get` recurses without bound. Di.Injector.Get,
  Di.Injector.Resolve, Di.Injector.InjectFunc and Di.Injector.InjectF require a ghost
  ranking that witnesses acyclicity (`Resolvable`).
- Di.Injector.Get, Di.Injector.Resolve, Di.Injector.InjectFunc, Di.Injector.InjectF:
  `Resolvable` and `ElemParams` are required of the
  whole factory table, not just of the types the call reaches. Go needs acyclicity and
  element types only along the factories it actually runs. A registry with an unrelated
  cycle, or with a factory taking a non-pointer struct parameter, can still serve other
  types in Go, but the model's `Get`, `InjectFunc` and `InjectF` cannot be called on it.
- Di.Injector.InjectF follows the intended behaviour: a nil result from the injected
  function is returned as nil. The code as written panics there; this is modelled
  separately (`InjectionAsWritten`) and recorded under "## Findings".
- Di.Injector.Get: the public `Get` and the recursive `get` are two methods (`Get` and
  `Resolve`). Of these two, only `Get` states the class invariant, because it covers the whole
  recursion; `Resolve` and `InjectFunc` are proved against the semantic functions alone.

## Findings

| source | as written | input that shows it | evidently intended | confidence | as-written member | corrected member |
|---|---|---|---|---|---|---|
| injector.go:103 | `InjectF` converts the injected function's only result to `error` with a single-value type assertion and no nil check. A nil `error` result is a nil interface, and asserting a nil interface panics. | `InjectF(func() error { return nil })` on any registry: the normal successful injection. | Return the function's error, nil included, as `get` does at injector.go:50 with its nil check. | not executed; high (Go's type-assertion rule on a nil interface) | Semantics.InjectionAsWritten, Properties.NilTargetPanics, Properties.InjectionPanicsOnNil | Semantics.Injection, Properties.InjectionOutcomes, Di.Injector.InjectF |
