/** The meaning of resolving a service: a recursive, depth-first, memoising walk of the
    factory table, stated as ghost functions over the two tables. The class in module Di
    runs this walk in place; here it is a function from the instance table before the walk
    to the table after it, together with the factory calls the walk made. */
module Semantics {
  import opened Types
  import opened Signatures

  /** A resolution's result, the instance table after it, and the factory calls it made, in order. */
  datatype Step<T> = Step(result: T, instances: map<Type, Value>, calls: seq<Invocation>)

  /** The factory graph is acyclic, witnessed by `rank`: every registered type is ranked
      strictly above every registered type its factory takes as a parameter. */
  ghost predicate Resolvable(factories: map<Type, Callable>, rank: map<Type, nat>) {
    forall t :: t in factories ==>
      && factories[t].Func?
      && t in rank
      && forall p :: p in factories[t].params && p in factories ==> p in rank && rank[p] < rank[t]
  }

  /** Every parameter type of every registered factory has an element type, so the
      `Elem()` that injectFunc takes of it does not panic. */
  ghost predicate ElemParams(factories: map<Type, Callable>) {
    forall t :: t in factories && factories[t].Func? ==>
      forall p :: p in factories[t].params ==> HasElem(p)
  }

  /** How deep in the factory graph `t` sits; 0 for a type without a factory. */
  ghost function Height(factories: map<Type, Callable>, rank: map<Type, nat>, t: Type): nat {
    if t in factories && t in rank then rank[t] + 1 else 0
  }

  /** A bound strictly above the height of every type in `ps`. */
  ghost function Ceiling(factories: map<Type, Callable>, rank: map<Type, nat>, ps: seq<Type>): (b: nat)
    ensures forall p :: p in ps ==> Height(factories, rank, p) < b
  {
    if ps == [] then 0
    else
      var b := Ceiling(factories, rank, ps[1..]);
      var h := Height(factories, rank, ps[0]);
      assert forall p :: p in ps ==> p == ps[0] || p in ps[1..];
      if h < b then b else h + 1
  }

  /** Once a factory has succeeded for a type, no factory is called for that type again. */
  ghost predicate SingleSuccess(calls: seq<Invocation>) {
    forall i, j :: 0 <= i < j < |calls| && calls[i].err.None? ==> calls[j].service != calls[i].service
  }

  /** The types whose factory succeeded in `calls`. */
  ghost function Succeeded(calls: seq<Invocation>): set<Type>
  {
    if calls == [] then {}
    else
      var last := calls[|calls| - 1];
      Succeeded(calls[..|calls| - 1]) + (if last.err.None? then {last.service} else {})
  }

  /** A type is among the successes of `calls` exactly when a successful call for it is. */
  lemma {:induction false} SucceededIff(calls: seq<Invocation>, k: Type)
    ensures k in Succeeded(calls) <==> Invocation(k, None) in calls
  {
    if calls != [] {
      var init := calls[..|calls| - 1];
      SucceededIff(init, k);
      assert calls == init + [calls[|calls| - 1]];
    }
  }

  /** Appending one call adds its type to the successes exactly when it succeeded. */
  lemma SucceededSnoc(calls: seq<Invocation>, c: Invocation)
    ensures Succeeded(calls + [c]) == Succeeded(calls) + (if c.err.None? then {c.service} else {})
  {
    assert (calls + [c])[..|calls|] == calls;
  }

  ghost predicate AllSucceeded(calls: seq<Invocation>) {
    forall i :: 0 <= i < |calls| ==> calls[i].err.None?
  }

  /** The error `e` that ended a resolution is passed on unchanged: it is the error the last
      factory called returned, or, when no factory failed, a lookup error of the registry. */
  ghost predicate Blames(calls: seq<Invocation>, e: Error) {
    if AllSucceeded(calls) then e == NotAPointer || e == NotRegistered
    else calls[|calls| - 1].err == Some(e)
  }

  /** What every resolution step does to the tables, going from the instance table
      `before` to `after` through the factory calls `calls`, when every factory it calls
      sits below height `h`: cached singletons are never replaced; a factory is called only
      for a registered, uncached type; no factory runs again once it succeeded; the new cache
      entries are exactly the types whose factory succeeded; and only the last call may have
      failed. */
  ghost predicate Grows(factories: map<Type, Callable>, rank: map<Type, nat>,
                        before: map<Type, Value>, after: map<Type, Value>,
                        calls: seq<Invocation>, h: nat)
  {
    && (forall k :: k in before ==> k in after && after[k] == before[k])
    && (forall i :: 0 <= i < |calls| ==>
          && calls[i].service in factories
          && calls[i].service !in before
          && Height(factories, rank, calls[i].service) < h)
    && SingleSuccess(calls)
    && (forall k :: k in after && k !in before <==> Invocation(k, None) in calls)
    && (forall i :: 0 <= i < |calls| - 1 ==> calls[i].err.None?)
  }

  /** Two steps in a row, the first of which called no failing factory, make one step. */
  lemma GrowsChain(factories: map<Type, Callable>, rank: map<Type, nat>,
                   i0: map<Type, Value>, i1: map<Type, Value>, i2: map<Type, Value>,
                   c1: seq<Invocation>, c2: seq<Invocation>, h2: nat, h: nat)
    requires Grows(factories, rank, i0, i1, c1, h) && AllSucceeded(c1)
    requires Grows(factories, rank, i1, i2, c2, h2) && h2 <= h
    ensures Grows(factories, rank, i0, i2, c1 + c2, h)
  {
    var c := c1 + c2;
    forall i, j | 0 <= i < j < |c| && c[i].err.None?
      ensures c[j].service != c[i].service
    {
      if i < |c1| && j >= |c1| {
        assert Invocation(c[i].service, None) == c1[i];
        assert c[i].service in i1;
      }
    }
  }

  /** A factory call for `t`, uncached and above every call of the step before it, extends that step. */
  lemma GrowsCall(factories: map<Type, Callable>, rank: map<Type, nat>,
                  i0: map<Type, Value>, i1: map<Type, Value>, i2: map<Type, Value>,
                  c1: seq<Invocation>, t: Type, err: Option<Error>, v: Value)
    requires Grows(factories, rank, i0, i1, c1, Height(factories, rank, t)) && AllSucceeded(c1)
    requires t in factories && t !in i0
    requires i2 == if err.None? then i1[t := v] else i1
    ensures Grows(factories, rank, i0, i2, c1 + [Invocation(t, err)], Height(factories, rank, t) + 1)
    ensures t in i2 <==> err.None?
  {
    assert Invocation(t, None) !in c1 by {
      forall i | 0 <= i < |c1| ensures c1[i] != Invocation(t, None) {
        assert Height(factories, rank, c1[i].service) < Height(factories, rank, t);
      }
    }
  }

  /** A step below height `h` is also a step below any greater height. */
  lemma GrowsLoosen(factories: map<Type, Callable>, rank: map<Type, nat>,
                    i0: map<Type, Value>, i1: map<Type, Value>, c: seq<Invocation>, h: nat, h': nat)
    requires Grows(factories, rank, i0, i1, c, h) && h <= h'
    ensures Grows(factories, rank, i0, i1, c, h')
  {
  }

  /** A failure after steps that all succeeded is still blamed on the same error. */
  lemma BlamesChain(c1: seq<Invocation>, c2: seq<Invocation>, e: Error)
    requires AllSucceeded(c1) && Blames(c2, e)
    ensures Blames(c1 + c2, e)
  {
    if AllSucceeded(c2) {
      assert AllSucceeded(c1 + c2);
    } else {
      var i :| 0 <= i < |c2| && c2[i].err.Some?;
      assert (c1 + c2)[|c1| + i] == c2[i];
    }
  }

  /** The call history agrees with the cache: the cached types are exactly those whose
      factory has succeeded, and no factory has succeeded twice for the same type. */
  ghost predicate Recorded(instances: map<Type, Value>, log: seq<Invocation>) {
    instances.Keys == Succeeded(log) && SingleSuccess(log)
  }

  /** The successes of two histories in a row are the successes of each. */
  lemma {:induction false} SucceededAppend(c1: seq<Invocation>, c2: seq<Invocation>)
    ensures Succeeded(c1 + c2) == Succeeded(c1) + Succeeded(c2)
  {
    if c2 == [] {
      assert c1 + c2 == c1;
    } else {
      var init, last := c2[..|c2| - 1], c2[|c2| - 1];
      SucceededAppend(c1, init);
      assert c2 == init + [last];
      assert c1 + c2 == (c1 + init) + [last];
      SucceededSnoc(c1 + init, last);
      SucceededSnoc(init, last);
    }
  }

  /** A resolution step keeps the history in agreement with the cache, and keeps the cache
      within the registered types. */
  lemma GrowsKeepsRecord(factories: map<Type, Callable>, rank: map<Type, nat>,
                         before: map<Type, Value>, after: map<Type, Value>,
                         log: seq<Invocation>, calls: seq<Invocation>, h: nat)
    requires Grows(factories, rank, before, after, calls, h)
    requires Recorded(before, log) && before.Keys <= factories.Keys
    ensures Recorded(after, log + calls) && after.Keys <= factories.Keys
  {
    SucceededAppend(log, calls);
    forall k | k in after && k !in before
      ensures k in Succeeded(calls) && k in factories
    {
      SucceededIff(calls, k);
      var i :| 0 <= i < |calls| && calls[i] == Invocation(k, None);
    }
    forall k | k in Succeeded(calls) ensures k in after {
      SucceededIff(calls, k);
    }
    var c := log + calls;
    forall i, j | 0 <= i < j < |c| && c[i].err.None?
      ensures c[j].service != c[i].service
    {
      if i < |log| && j >= |log| {
        assert Invocation(c[i].service, None) == log[i];
        SucceededIff(log, c[i].service);
        assert c[j] == calls[j - |log|];
      }
    }
  }

  /** Concatenating call histories is associative. */
  lemma AppendAssoc(a: seq<Invocation>, b: seq<Invocation>, c: seq<Invocation>)
    ensures (a + b) + c == a + (b + c)
  {
  }

  /** The cached instances of `ps`, in order: the arguments a function is called with. */
  ghost function Singletons(instances: map<Type, Value>, ps: seq<Type>): (args: seq<Value>)
    requires forall p :: p in ps ==> p in instances
  {
    seq(|ps|, i requires 0 <= i < |ps| => instances[ps[i]])
  }

  /** Appending the instance of one more parameter to the arguments of the ones before it. */
  lemma SingletonsSnoc(i1: map<Type, Value>, i2: map<Type, Value>, ps: seq<Type>, p: Type)
    requires forall q :: q in ps ==> q in i1
    requires forall k :: k in i1 ==> k in i2 && i2[k] == i1[k]
    requires p in i2
    ensures forall q :: q in ps + [p] ==> q in i2
    ensures Singletons(i1, ps) + [i2[p]] == Singletons(i2, ps + [p])
  {
    var a, b := Singletons(i1, ps) + [i2[p]], Singletons(i2, ps + [p]);
    forall i | 0 <= i < |a| ensures a[i] == b[i] {
      if i < |ps| {
        assert ps[i] in ps;
      }
    }
  }

  /** Resolving `t` (injector.go `get`): a non-pointer type fails first; a cached type
      gives its instance; an unregistered type fails; otherwise the factory's parameters
      are resolved in order, the factory is called on them, and its instance is cached
      when it returns no error. */
  ghost function Resolution(factories: map<Type, Callable>, rank: map<Type, nat>,
                            instances: map<Type, Value>, t: Type): Step<Result<Value>>
    requires Resolvable(factories, rank)
    decreases Height(factories, rank, t), 1, 0
  {
    if t.kind != Pointer then Step(Err(NotAPointer), instances, [])
    else if t in instances then Step(Ok(instances[t]), instances, [])
    else if t !in factories then Step(Err(NotRegistered), instances, [])
    else
      var f := factories[t];
      var deps := DepsResolution(factories, rank, instances, f.params, Height(factories, rank, t));
      if deps.result.Err? then Step(Err(deps.result.error), deps.instances, deps.calls)
      else
        var out := f.body(deps.result.value);
        var calls := deps.calls + [Invocation(t, out.err)];
        if out.err.Some? then Step(Err(out.err.value), deps.instances, calls)
        else Step(Ok(out.value), deps.instances[t := out.value], calls)
  }

  /** Resolving the parameter types `ps` in order (the loop of injectFunc), stopping at the
      first failure. `bound` lies above the height of every parameter. */
  ghost function DepsResolution(factories: map<Type, Callable>, rank: map<Type, nat>,
                                instances: map<Type, Value>, ps: seq<Type>, bound: nat)
    : Step<Result<seq<Value>>>
    requires Resolvable(factories, rank)
    requires forall p :: p in ps ==> Height(factories, rank, p) < bound
    decreases bound, 0, |ps|
  {
    if ps == [] then Step(Ok([]), instances, [])
    else
      var init := ps[..|ps| - 1];
      assert forall p :: p in init ==> p in ps;
      var prefix := DepsResolution(factories, rank, instances, init, bound);
      if prefix.result.Err? then prefix
      else
        var last := Resolution(factories, rank, prefix.instances, ps[|ps| - 1]);
        var calls := prefix.calls + last.calls;
        if last.result.Err? then Step(Err(last.result.error), last.instances, calls)
        else Step(Ok(prefix.result.value + [last.result.value]), last.instances, calls)
  }

  /** What resolving `t` promises: the step obeys `Grows`; on success `t` is cached with the
      returned instance and no factory failed; on failure `t` is not newly cached (there is
      no negative cache) and the error is passed on unchanged. */
  lemma {:induction false} ResolutionFacts(factories: map<Type, Callable>, rank: map<Type, nat>,
                                           instances: map<Type, Value>, t: Type)
    requires Resolvable(factories, rank)
    ensures var s := Resolution(factories, rank, instances, t);
      && Grows(factories, rank, instances, s.instances, s.calls, Height(factories, rank, t) + 1)
      && (s.result.Ok? ==> t in s.instances && s.instances[t] == s.result.value && AllSucceeded(s.calls))
      && (s.result.Err? ==> (t in s.instances <==> t in instances) && Blames(s.calls, s.result.error))
    decreases Height(factories, rank, t), 1, 0
  {
    if t.kind == Pointer && t !in instances && t in factories {
      var f := factories[t];
      var h := Height(factories, rank, t);
      var deps := DepsResolution(factories, rank, instances, f.params, h);
      DepsFacts(factories, rank, instances, f.params, h);
      if deps.result.Err? {
        assert Invocation(t, None) !in deps.calls by {
          forall i | 0 <= i < |deps.calls| ensures deps.calls[i] != Invocation(t, None) {
            assert Height(factories, rank, deps.calls[i].service) < h;
          }
        }
        GrowsLoosen(factories, rank, instances, deps.instances, deps.calls, h, h + 1);
      } else {
        var out := f.body(deps.result.value);
        var calls := deps.calls + [Invocation(t, out.err)];
        var after := if out.err.Some? then deps.instances else deps.instances[t := out.value];
        GrowsCall(factories, rank, instances, deps.instances, after, deps.calls, t, out.err, out.value);
        if out.err.Some? {
          assert !AllSucceeded([Invocation(t, out.err)]) by { assert [Invocation(t, out.err)][0].err.Some?; }
          BlamesChain(deps.calls, [Invocation(t, out.err)], out.err.value);
        } else {
          assert AllSucceeded(calls) by {
            forall i | 0 <= i < |calls| ensures calls[i].err.None? {
              if i < |deps.calls| { assert calls[i] == deps.calls[i]; }
            }
          }
        }
      }
    }
  }

  /** What resolving the parameters `ps` promises of its step `s`: the step obeys `Grows`;
      on success every parameter is cached and the arguments are their instances, in order,
      and no factory failed; on failure the error is passed on unchanged. */
  ghost predicate DepsOutcome(factories: map<Type, Callable>, rank: map<Type, nat>,
                              instances: map<Type, Value>, ps: seq<Type>, bound: nat,
                              s: Step<Result<seq<Value>>>)
  {
    && Grows(factories, rank, instances, s.instances, s.calls, bound)
    && (s.result.Ok? ==>
          && (forall p :: p in ps ==> p in s.instances)
          && s.result.value == Singletons(s.instances, ps)
          && AllSucceeded(s.calls))
    && (s.result.Err? ==> Blames(s.calls, s.result.error))
  }

  /** Resolving parameters keeps the promises of `DepsOutcome`. */
  lemma {:induction false} DepsFacts(factories: map<Type, Callable>, rank: map<Type, nat>,
                                     instances: map<Type, Value>, ps: seq<Type>, bound: nat)
    requires Resolvable(factories, rank)
    requires forall p :: p in ps ==> Height(factories, rank, p) < bound
    ensures DepsOutcome(factories, rank, instances, ps, bound,
                        DepsResolution(factories, rank, instances, ps, bound))
    decreases bound, 0, |ps|, 1
  {
    if ps != [] {
      var init, p := ps[..|ps| - 1], ps[|ps| - 1];
      assert ps == init + [p];
      assert forall q :: q in init ==> q in ps;
      DepsFacts(factories, rank, instances, init, bound);
      if DepsResolution(factories, rank, instances, init, bound).result.Ok? {
        DepsFactsSnoc(factories, rank, instances, init, p, bound);
      }
    }
  }

  /** One more parameter after a prefix that succeeded keeps the promises of `DepsOutcome`. */
  lemma DepsFactsSnoc(factories: map<Type, Callable>, rank: map<Type, nat>,
                      instances: map<Type, Value>, init: seq<Type>, p: Type, bound: nat)
    requires Resolvable(factories, rank)
    requires forall q :: q in init + [p] ==> Height(factories, rank, q) < bound
    requires var prefix := DepsResolution(factories, rank, instances, init, bound);
      prefix.result.Ok? && DepsOutcome(factories, rank, instances, init, bound, prefix)
    ensures DepsOutcome(factories, rank, instances, init + [p], bound,
                        DepsResolution(factories, rank, instances, init + [p], bound))
    decreases bound, 0, |init| + 1, 0
  {
    assert forall q :: q in init ==> q in init + [p];
    assert p in init + [p];
    var prefix := DepsResolution(factories, rank, instances, init, bound);
    var last := Resolution(factories, rank, prefix.instances, p);
    DepsStep(factories, rank, instances, init, p, bound);
    ResolutionFacts(factories, rank, prefix.instances, p);
    GrowsChain(factories, rank, instances, prefix.instances, last.instances,
               prefix.calls, last.calls, Height(factories, rank, p) + 1, bound);
    if last.result.Err? {
      BlamesChain(prefix.calls, last.calls, last.result.error);
    } else {
      SingletonsSnoc(prefix.instances, last.instances, init, p);
    }
  }

  /** Resolving one more parameter after a prefix that succeeded: the prefix's arguments are
      extended with that parameter's instance, or its failure is the result. */
  lemma DepsStep(factories: map<Type, Callable>, rank: map<Type, nat>,
                 instances: map<Type, Value>, ps: seq<Type>, p: Type, bound: nat)
    requires Resolvable(factories, rank)
    requires forall q :: q in ps ==> Height(factories, rank, q) < bound
    requires Height(factories, rank, p) < bound
    requires DepsResolution(factories, rank, instances, ps, bound).result.Ok?
    ensures forall q :: q in ps + [p] ==> Height(factories, rank, q) < bound
    ensures var prefix := DepsResolution(factories, rank, instances, ps, bound);
      var last := Resolution(factories, rank, prefix.instances, p);
      DepsResolution(factories, rank, instances, ps + [p], bound)
        == Step(if last.result.Err? then Err(last.result.error) else Ok(prefix.result.value + [last.result.value]),
                last.instances, prefix.calls + last.calls)
  {
    assert (ps + [p])[..|ps|] == ps;
  }

  /** `DepsStep` for the prefixes of one parameter list: resolving the first `j + 1`
      parameters extends resolving the first `j` by parameter `j`. */
  lemma DepsStepAt(factories: map<Type, Callable>, rank: map<Type, nat>,
                   instances: map<Type, Value>, ps: seq<Type>, j: nat, bound: nat)
    requires Resolvable(factories, rank)
    requires forall p :: p in ps ==> Height(factories, rank, p) < bound
    requires j < |ps|
    requires DepsResolution(factories, rank, instances, ps[..j], bound).result.Ok?
    ensures var prefix := DepsResolution(factories, rank, instances, ps[..j], bound);
      var last := Resolution(factories, rank, prefix.instances, ps[j]);
      DepsResolution(factories, rank, instances, ps[..j + 1], bound)
        == Step(if last.result.Err? then Err(last.result.error) else Ok(prefix.result.value + [last.result.value]),
                last.instances, prefix.calls + last.calls)
  {
    assert ps[..j + 1] == ps[..j] + [ps[j]];
    assert ps[j] in ps;
    DepsStep(factories, rank, instances, ps[..j], ps[j], bound);
  }

  /** Resolving parameters stops at the first failure: once a prefix of `ps` fails, resolving
      all of `ps` gives exactly what resolving that prefix gave. */
  lemma {:induction false} DepsStopAtFailure(factories: map<Type, Callable>, rank: map<Type, nat>,
                                             instances: map<Type, Value>, ps: seq<Type>, bound: nat, k: nat)
    requires Resolvable(factories, rank)
    requires forall p :: p in ps ==> Height(factories, rank, p) < bound
    requires k <= |ps|
    requires DepsResolution(factories, rank, instances, ps[..k], bound).result.Err?
    ensures DepsResolution(factories, rank, instances, ps, bound)
         == DepsResolution(factories, rank, instances, ps[..k], bound)
  {
    if k < |ps| {
      var init := ps[..|ps| - 1];
      assert init[..k] == ps[..k];
      assert forall p :: p in init ==> p in ps;
      DepsStopAtFailure(factories, rank, instances, init, bound, k);
    } else {
      assert ps[..k] == ps;
    }
  }

  /** InjectF as written: a target of the wrong shape is refused before anything is
      resolved; otherwise its parameters are resolved in order and, if that succeeds, the
      function is called on them. Its result is then asserted to be an `error` with no nil
      check, so a nil result panics, after the dependencies have been resolved and cached. */
  ghost function InjectionAsWritten(factories: map<Type, Callable>, rank: map<Type, nat>,
                                    instances: map<Type, Value>, f: Callable): Step<Outcome>
    requires Resolvable(factories, rank)
  {
    var shape := TargetShapeError(f);
    if shape.Some? then Step(Returns(shape), instances, [])
    else
      var deps := DepsResolution(factories, rank, instances, f.params, Ceiling(factories, rank, f.params));
      if deps.result.Err? then Step(Returns(Some(deps.result.error)), deps.instances, deps.calls)
      else
        var err := f.body(deps.result.value).err;
        if err.None? then Step(Panics, deps.instances, deps.calls)
        else Step(Returns(err), deps.instances, deps.calls)
  }

  /** InjectF as intended, which the registry class follows: as `InjectionAsWritten`, except
      that a nil result from the function is returned as nil instead of panicking. */
  ghost function Injection(factories: map<Type, Callable>, rank: map<Type, nat>,
                           instances: map<Type, Value>, f: Callable): (s: Step<Option<Error>>)
    requires Resolvable(factories, rank)
  {
    var shape := TargetShapeError(f);
    if shape.Some? then Step(shape, instances, [])
    else
      var deps := DepsResolution(factories, rank, instances, f.params, Ceiling(factories, rank, f.params));
      if deps.result.Err? then Step(Some(deps.result.error), deps.instances, deps.calls)
      else Step(f.body(deps.result.value).err, deps.instances, deps.calls)
  }
}
