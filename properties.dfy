/** What the registry promises its callers, proved of the resolution semantics: the early
    exits of `get`, memoisation, how a factory's output and a factory's error are treated,
    dependency failures, the outcomes of InjectF, and that a factory succeeds at most once. */
module Properties {
  import opened Types
  import opened Signatures
  import opened Semantics

  /** The three early exits of `get`, each of which calls no factory and changes nothing:
      a non-pointer type fails first, whether or not it is registered or cached; a cached
      type gives its stored instance; an uncached, unregistered type gives `ErrNotRegistered`. */
  lemma ResolutionShortcuts(factories: map<Type, Callable>, rank: map<Type, nat>,
                            instances: map<Type, Value>, t: Type)
    requires Resolvable(factories, rank)
    ensures t.kind != Pointer ==>
      Resolution(factories, rank, instances, t) == Step(Err(NotAPointer), instances, [])
    ensures t.kind == Pointer && t in instances ==>
      Resolution(factories, rank, instances, t) == Step(Ok(instances[t]), instances, [])
    ensures t.kind == Pointer && t !in instances && t !in factories ==>
      Resolution(factories, rank, instances, t) == Step(Err(NotRegistered), instances, [])
  {
  }

  /** A resolution that called no factory left the instance table as it was. */
  lemma QuietResolution(factories: map<Type, Callable>, rank: map<Type, nat>,
                        instances: map<Type, Value>, t: Type)
    requires Resolvable(factories, rank)
    ensures var s := Resolution(factories, rank, instances, t);
      s.calls == [] ==> s.instances == instances
  {
    ResolutionFacts(factories, rank, instances, t);
    var s := Resolution(factories, rank, instances, t);
    if s.calls == [] {
      forall k | k in s.instances ensures k in instances {
        assert Invocation(k, None) !in s.calls;
      }
    }
  }

  /** Memoisation: once `t` has been resolved, resolving it again gives the identical
      instance, calls no factory and changes nothing. */
  lemma RepeatedResolution(factories: map<Type, Callable>, rank: map<Type, nat>,
                           instances: map<Type, Value>, t: Type)
    requires Resolvable(factories, rank)
    ensures var s := Resolution(factories, rank, instances, t);
      s.result.Ok? ==> Resolution(factories, rank, s.instances, t) == Step(s.result, s.instances, [])
  {
    ResolutionFacts(factories, rank, instances, t);
  }

  /** A successful resolution keeps the instances resolved earlier: a cached type stays
      cached with the same instance, whatever is resolved later. */
  lemma CacheOnlyGrows(factories: map<Type, Callable>, rank: map<Type, nat>,
                       instances: map<Type, Value>, t: Type, u: Type)
    requires Resolvable(factories, rank)
    requires u in instances
    ensures var s := Resolution(factories, rank, instances, t);
      u in s.instances && s.instances[u] == instances[u]
  {
    ResolutionFacts(factories, rank, instances, t);
  }

  /** A successful resolution of an uncached type: its factory was the last one called and
      returned no error; it was called on the instances of its parameters, in order; and its
      instance is what is returned and what is cached under exactly that type. */
  lemma FreshInstanceFromFactory(factories: map<Type, Callable>, rank: map<Type, nat>,
                                 instances: map<Type, Value>, t: Type)
    requires Resolvable(factories, rank)
    requires t !in instances
    ensures var s := Resolution(factories, rank, instances, t);
      s.result.Ok? ==>
        && t.kind == Pointer && t in factories
        && |s.calls| > 0 && s.calls[|s.calls| - 1] == Invocation(t, None)
        && (forall p :: p in factories[t].params ==> p in s.instances)
        && s.result.value == factories[t].body(Singletons(s.instances, factories[t].params)).value
        && t in s.instances && s.instances[t] == s.result.value
  {
    var s := Resolution(factories, rank, instances, t);
    if s.result.Ok? {
      var f := factories[t];
      var h := Height(factories, rank, t);
      var deps := DepsResolution(factories, rank, instances, f.params, h);
      DepsFacts(factories, rank, instances, f.params, h);
      assert t !in f.params;
      var args := Singletons(deps.instances, f.params);
      assert deps.result.value == args;
      assert Singletons(s.instances, f.params) == args;
    }
  }

  /** A factory that returns an error: that error is what resolution returns, unchanged;
      the type is not cached (there is no negative cache); and the instances its
      dependencies produced stay cached. */
  lemma FactoryErrorNotCached(factories: map<Type, Callable>, rank: map<Type, nat>,
                              instances: map<Type, Value>, t: Type)
    requires Resolvable(factories, rank)
    requires t.kind == Pointer && t !in instances && t in factories
    ensures var deps := DepsResolution(factories, rank, instances, factories[t].params, Height(factories, rank, t));
      var s := Resolution(factories, rank, instances, t);
      deps.result.Ok? && factories[t].body(deps.result.value).err.Some? ==>
        && s.result == Err(factories[t].body(deps.result.value).err.value)
        && s.instances == deps.instances
        && t !in s.instances
  {
    var h := Height(factories, rank, t);
    var deps := DepsResolution(factories, rank, instances, factories[t].params, h);
    DepsFacts(factories, rank, instances, factories[t].params, h);
    assert Invocation(t, None) !in deps.calls by {
      forall i | 0 <= i < |deps.calls| ensures deps.calls[i] != Invocation(t, None) {
        assert Height(factories, rank, deps.calls[i].service) < h;
      }
    }
  }

  /** A dependency that cannot be resolved: its error is what resolution returns,
      unchanged; the factory is not called and the type is not cached; everything cached
      before, and every dependency resolved before the failure, stays cached. */
  lemma DependencyFailure(factories: map<Type, Callable>, rank: map<Type, nat>,
                          instances: map<Type, Value>, t: Type)
    requires Resolvable(factories, rank)
    requires t.kind == Pointer && t !in instances && t in factories
    ensures var deps := DepsResolution(factories, rank, instances, factories[t].params, Height(factories, rank, t));
      var s := Resolution(factories, rank, instances, t);
      deps.result.Err? ==>
        && s == Step(Err(deps.result.error), deps.instances, deps.calls)
        && (forall i :: 0 <= i < |s.calls| ==> s.calls[i].service != t)
        && t !in s.instances
        && (forall k :: k in instances ==> k in s.instances && s.instances[k] == instances[k])
  {
    var h := Height(factories, rank, t);
    var deps := DepsResolution(factories, rank, instances, factories[t].params, h);
    DepsFacts(factories, rank, instances, factories[t].params, h);
    forall i | 0 <= i < |deps.calls| ensures deps.calls[i].service != t {
      assert Height(factories, rank, deps.calls[i].service) < h;
    }
  }

  /** The position of the parameter whose resolution failed first, when resolving `ps`
      failed. */
  ghost function FirstFailure(factories: map<Type, Callable>, rank: map<Type, nat>,
                              instances: map<Type, Value>, ps: seq<Type>, bound: nat): (k: nat)
    requires Resolvable(factories, rank)
    requires forall p :: p in ps ==> Height(factories, rank, p) < bound
    requires DepsResolution(factories, rank, instances, ps, bound).result.Err?
    ensures k < |ps|
    decreases |ps|
  {
    var init := ps[..|ps| - 1];
    assert forall p :: p in init ==> p in ps;
    if DepsResolution(factories, rank, instances, init, bound).result.Err? then
      FirstFailure(factories, rank, instances, init, bound)
    else
      |ps| - 1
  }

  /** Resolution of parameters stops at the first failure: the parameters before it were
      resolved, its own resolution failed, and resolving `ps` gives exactly what resolving
      the parameters up to it gives; nothing after it is resolved. */
  lemma {:induction false} FirstFailureFacts(factories: map<Type, Callable>, rank: map<Type, nat>,
                                             instances: map<Type, Value>, ps: seq<Type>, bound: nat)
    requires Resolvable(factories, rank)
    requires forall p :: p in ps ==> Height(factories, rank, p) < bound
    requires DepsResolution(factories, rank, instances, ps, bound).result.Err?
    ensures var k := FirstFailure(factories, rank, instances, ps, bound);
      && (forall p :: p in ps[..k + 1] ==> p in ps)
      && var prefix := DepsResolution(factories, rank, instances, ps[..k], bound);
      && prefix.result.Ok?
      && Resolution(factories, rank, prefix.instances, ps[k]).result.Err?
      && DepsResolution(factories, rank, instances, ps, bound)
         == DepsResolution(factories, rank, instances, ps[..k + 1], bound)
    decreases |ps|
  {
    var init := ps[..|ps| - 1];
    assert forall p :: p in init ==> p in ps;
    var k := FirstFailure(factories, rank, instances, ps, bound);
    if DepsResolution(factories, rank, instances, init, bound).result.Err? {
      FirstFailureFacts(factories, rank, instances, init, bound);
      assert init[..k] == ps[..k] && init[..k + 1] == ps[..k + 1];
      StopsAt(factories, rank, instances, ps, bound, k);
    } else {
      assert ps[..k] == init && ps[..k + 1] == ps;
      DepsStepAt(factories, rank, instances, ps, k, bound);
    }
  }

  /** Once parameter `k` fails after the ones before it succeeded, resolving `ps` gives what
      resolving the parameters up to `k` gives. */
  lemma StopsAt(factories: map<Type, Callable>, rank: map<Type, nat>,
                instances: map<Type, Value>, ps: seq<Type>, bound: nat, k: nat)
    requires Resolvable(factories, rank)
    requires forall p :: p in ps ==> Height(factories, rank, p) < bound
    requires k < |ps| && forall p :: p in ps[..k] ==> p in ps
    requires var prefix := DepsResolution(factories, rank, instances, ps[..k], bound);
      prefix.result.Ok? && Resolution(factories, rank, prefix.instances, ps[k]).result.Err?
    ensures forall p :: p in ps[..k + 1] ==> p in ps
    ensures DepsResolution(factories, rank, instances, ps, bound)
         == DepsResolution(factories, rank, instances, ps[..k + 1], bound)
  {
    DepsStepAt(factories, rank, instances, ps, k, bound);
    DepsStopAtFailure(factories, rank, instances, ps, bound, k + 1);
  }

  /** Partial progress is kept: when resolving `ps` fails, the failure is the failing
      parameter's own error, and every parameter before it is cached. */
  lemma {:induction false} ResolvedDependenciesStayCached(factories: map<Type, Callable>, rank: map<Type, nat>,
                                                         instances: map<Type, Value>, ps: seq<Type>, bound: nat)
    requires Resolvable(factories, rank)
    requires forall p :: p in ps ==> Height(factories, rank, p) < bound
    requires DepsResolution(factories, rank, instances, ps, bound).result.Err?
    ensures var k := FirstFailure(factories, rank, instances, ps, bound);
      var prefix := DepsResolution(factories, rank, instances, ps[..k], bound);
      var s := DepsResolution(factories, rank, instances, ps, bound);
      && Resolution(factories, rank, prefix.instances, ps[k]).result == Err(s.result.error)
      && forall i :: 0 <= i < k ==> ps[i] in s.instances
  {
    var k := FirstFailure(factories, rank, instances, ps, bound);
    var prefix := DepsResolution(factories, rank, instances, ps[..k], bound);
    FirstFailureFacts(factories, rank, instances, ps, bound);
    DepsStepAt(factories, rank, instances, ps, k, bound);
    DepsFacts(factories, rank, instances, ps[..k], bound);
    ResolutionFacts(factories, rank, prefix.instances, ps[k]);
    forall i | 0 <= i < k ensures ps[i] in prefix.instances {
      assert ps[..k][i] == ps[i];
    }
  }

  /** The three outcomes of InjectF: a target of the wrong shape gives its shape error with
      nothing resolved; a dependency that cannot be resolved gives that dependency's error;
      otherwise the result is exactly the error the function itself returns (`None` for
      nil, as intended rather than as written: see `InjectionPanicsOnNil`), called on the
      instances of its parameters in order. */
  lemma InjectionOutcomes(factories: map<Type, Callable>, rank: map<Type, nat>,
                          instances: map<Type, Value>, f: Callable)
    requires Resolvable(factories, rank)
    ensures var s := Injection(factories, rank, instances, f);
      && (!IsInjectable(f) ==> s == Step(TargetShapeError(f), instances, []) && s.result.Some?)
      && (IsInjectable(f) ==>
            var deps := DepsResolution(factories, rank, instances, f.params, Ceiling(factories, rank, f.params));
            && (deps.result.Err? ==> s.result == Some(deps.result.error) && Blames(s.calls, deps.result.error))
            && (deps.result.Ok? ==>
                  && (forall p :: p in f.params ==> p in s.instances)
                  && s.result == f.body(Singletons(s.instances, f.params)).err
                  && AllSucceeded(s.calls)))
  {
    if IsInjectable(f) {
      DepsFacts(factories, rank, instances, f.params, Ceiling(factories, rank, f.params));
    }
  }

  /** InjectF as written agrees with InjectF as intended, in its result, its cache and its
      factory calls, except that it panics exactly where the intended one returns nil:
      whenever the target has the right shape, its dependencies resolve and the target,
      called on their instances in order, returns nil. That is every successful injection. */
  lemma InjectionPanicsOnNil(factories: map<Type, Callable>, rank: map<Type, nat>,
                             instances: map<Type, Value>, f: Callable)
    requires Resolvable(factories, rank)
    ensures var s := Injection(factories, rank, instances, f);
      InjectionAsWritten(factories, rank, instances, f)
        == Step(if s.result.None? then Panics else Returns(s.result), s.instances, s.calls)
    ensures InjectionAsWritten(factories, rank, instances, f).result == Panics <==>
      && IsInjectable(f)
      && var deps := DepsResolution(factories, rank, instances, f.params, Ceiling(factories, rank, f.params));
      && deps.result.Ok?
      && (forall p :: p in f.params ==> p in deps.instances)
      && f.body(Singletons(deps.instances, f.params)).err.None?
  {
    if IsInjectable(f) {
      DepsFacts(factories, rank, instances, f.params, Ceiling(factories, rank, f.params));
    }
  }

  /** A target that takes nothing and returns nil: the normal successful injection. */
  const NilTarget: Callable := Func([], [ErrorType], (args: seq<Value>) => Returned(Value(0), None))

  /** On an empty registry, InjectF as written panics on `NilTarget`; as intended it returns nil. */
  lemma NilTargetPanics()
    ensures Resolvable(map[], map[])
    ensures InjectionAsWritten(map[], map[], map[], NilTarget) == Step(Panics, map[], [])
    ensures Injection(map[], map[], map[], NilTarget) == Step(None, map[], [])
  {
    assert DepsResolution(map[], map[], map[], [], 0) == Step(Ok([]), map[], []);
  }

  /** How many times the factory of `t` succeeded in `calls`. */
  ghost function SuccessCount(calls: seq<Invocation>, t: Type): nat {
    if calls == [] then 0
    else SuccessCount(calls[..|calls| - 1], t) + (if calls[|calls| - 1] == Invocation(t, None) then 1 else 0)
  }

  /** A factory succeeds at most once per type: in a history where no factory ran again for
      a type after succeeding for it, each type's factory succeeded once if the type is
      among the successes, and never otherwise. */
  lemma {:induction false} SucceedsAtMostOnce(calls: seq<Invocation>, t: Type)
    requires SingleSuccess(calls)
    ensures SuccessCount(calls, t) == if t in Succeeded(calls) then 1 else 0
  {
    if calls != [] {
      var init, last := calls[..|calls| - 1], calls[|calls| - 1];
      assert calls == init + [last];
      SucceededSnoc(init, last);
      SucceedsAtMostOnce(init, t);
      if last == Invocation(t, None) {
        forall i | 0 <= i < |init| ensures init[i] != Invocation(t, None) {
          assert calls[i] == init[i];
        }
        SucceededIff(init, t);
      }
    }
  }

  /** The registry's own statement of the same: the cached types are exactly those whose
      factory succeeded, and each of them succeeded exactly once. */
  lemma CachedExactlyOnce(instances: map<Type, Value>, log: seq<Invocation>, t: Type)
    requires Recorded(instances, log)
    ensures SuccessCount(log, t) == if t in instances then 1 else 0
  {
    SucceedsAtMostOnce(log, t);
  }
}
