/** The registry of injector.go: a factory table and an instance table, both keyed by type,
    updated in place by Register and by resolution. */
module Di {
  import opened Types
  import opened Signatures
  import opened Semantics

  class Injector {
    /** Type → factory; entries are added by Register and never removed or replaced. */
    var factories: map<Type, Callable>
    /** Type → singleton instance; entries are added by a successful resolution only. */
    var instances: map<Type, Value>
    /** Every factory call made so far, in order, with the error each returned. */
    ghost var log: seq<Invocation>

    /** The registry's invariant: every factory has the shape `func(...) (T, error)` for the
        type it is registered under; only registered types are cached; and the cache holds
        exactly the types whose factory has succeeded, none of them more than once. */
    ghost predicate Valid()
      reads this
    {
      && (forall t :: t in factories ==> IsFactoryFor(factories[t], t))
      && instances.Keys <= factories.Keys
      && Recorded(instances, log)
    }

    /** `New`: an empty registry. */
    constructor ()
      ensures Valid()
      ensures factories == map[] && instances == map[] && log == []
    {
      factories := map[];
      instances := map[];
      log := [];
    }

    /** `Register`: validate the factory's shape, refuse a type that already has a factory,
        and otherwise add the factory. Nothing is constructed. */
    method Register(t: Type, factory: Callable) returns (err: Option<Error>)
      requires Valid()
      modifies this
      ensures Valid()
      ensures err == RegistrationError(old(factories).Keys, t, factory)
      ensures factories == if err.None? then old(factories)[t := factory] else old(factories)
      ensures forall k :: k in old(factories) ==> k in factories && factories[k] == old(factories)[k]
      ensures instances == old(instances) && log == old(log)
    {
      err := FactoryShapeError(t, factory);
      if err.Some? {
        return;
      }
      if t in factories {
        return Some(Duplicate);
      }
      factories := factories[t := factory];
    }

    /** `Get`: resolve `t` under the registry's lock and hand the instance to the caller
        (the returned `Ok` value). `rank` witnesses that the factory graph has no cycle. */
    method Get(t: Type, ghost rank: map<Type, nat>) returns (r: Result<Value>)
      requires Valid() && Resolvable(factories, rank) && ElemParams(factories)
      modifies this
      ensures Valid() && factories == old(factories)
      ensures var s := Resolution(old(factories), rank, old(instances), t);
        r == s.result && instances == s.instances && log == old(log) + s.calls
      ensures r.Ok? ==> t in instances && instances[t] == r.value
      ensures forall k :: k in old(instances) ==> k in instances && instances[k] == old(instances)[k]
    {
      ResolutionFacts(factories, rank, instances, t);
      ghost var s := Resolution(factories, rank, instances, t);
      GrowsKeepsRecord(factories, rank, instances, s.instances, log, s.calls, Height(factories, rank, t) + 1);
      r := Resolve(t, rank);
    }

    /** `get`: a non-pointer type fails at once; a cached type gives its singleton; an
        unregistered type fails; otherwise the factory is called on its resolved parameters
        and, when it returns no error, its instance is cached. */
    method Resolve(t: Type, ghost rank: map<Type, nat>) returns (r: Result<Value>)
      requires Resolvable(factories, rank) && ElemParams(factories)
      modifies this
      ensures factories == old(factories)
      ensures var s := Resolution(old(factories), rank, old(instances), t);
        r == s.result && instances == s.instances && log == old(log) + s.calls
      decreases Height(factories, rank, t), 1
    {
      if t.kind != Pointer {
        return Err(NotAPointer);
      }
      if t in instances {
        return Ok(instances[t]);
      }
      if t !in factories {
        return Err(NotRegistered);
      }
      var factory := factories[t];
      var vals := InjectFunc(factory, rank, Height(factories, rank, t));
      if vals.Err? {
        return Err(vals.error);
      }
      log := log + [Invocation(t, vals.value.err)];
      if vals.value.err.Some? {
        return Err(vals.value.err.value);
      }
      instances := instances[t := vals.value.value];
      r := Ok(vals.value.value);
    }

    /** `injectFunc`: resolve the parameters of `f` in order, stopping at the first failure,
        then call `f` on them. `bound` lies above the height of every parameter. */
    method InjectFunc(f: Callable, ghost rank: map<Type, nat>, ghost bound: nat) returns (r: Result<Returned>)
      requires Resolvable(factories, rank) && ElemParams(factories)
      requires f.Func? && forall p :: p in f.params ==> HasElem(p) && Height(factories, rank, p) < bound
      modifies this
      ensures factories == old(factories)
      ensures var s := DepsResolution(old(factories), rank, old(instances), f.params, bound);
        && instances == s.instances && log == old(log) + s.calls
        && r == if s.result.Ok? then Ok(f.body(s.result.value)) else Err(s.result.error)
      decreases bound, 0
    {
      ghost var start := instances;
      var deps: seq<Value> := [];
      for j := 0 to |f.params|
        invariant factories == old(factories)
        invariant var s := DepsResolution(factories, rank, start, f.params[..j], bound);
          s.result == Ok(deps) && instances == s.instances && log == old(log) + s.calls
      {
        DepsStepAt(factories, rank, start, f.params, j, bound);
        ghost var prefix := DepsResolution(factories, rank, start, f.params[..j], bound);
        AppendAssoc(old(log), prefix.calls, Resolution(factories, rank, prefix.instances, f.params[j]).calls);
        var d := Resolve(f.params[j], rank);
        if d.Err? {
          DepsStopAtFailure(factories, rank, start, f.params, bound, j + 1);
          return Err(d.error);
        }
        deps := deps + [d.value];
      }
      assert f.params[..|f.params|] == f.params;
      return Ok(f.body(deps));
    }

    /** `InjectF`: check that `f` is a `func(...) error`, resolve its parameters and return
        the error `f` itself returns. */
    method InjectF(f: Callable, ghost rank: map<Type, nat>) returns (err: Option<Error>)
      requires Valid() && Resolvable(factories, rank) && ElemParams(factories)
      requires IsInjectable(f) ==> forall p :: p in f.params ==> HasElem(p)
      modifies this
      ensures Valid() && factories == old(factories)
      ensures var s := Injection(old(factories), rank, old(instances), f);
        err == s.result && instances == s.instances && log == old(log) + s.calls
      ensures forall k :: k in old(instances) ==> k in instances && instances[k] == old(instances)[k]
    {
      if f.Func? {
        DepsFacts(factories, rank, instances, f.params, Ceiling(factories, rank, f.params));
        ghost var s := DepsResolution(factories, rank, instances, f.params, Ceiling(factories, rank, f.params));
        GrowsKeepsRecord(factories, rank, instances, s.instances, log, s.calls, Ceiling(factories, rank, f.params));
      }
      err := TargetShapeError(f);
      if err.Some? {
        return;
      }
      var vals := InjectFunc(f, rank, Ceiling(factories, rank, f.params));
      if vals.Err? {
        return Some(vals.error);
      }
      err := vals.value.err;
    }
  }
}
