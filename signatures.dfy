/** The shape checks that Register and InjectF perform before touching the registry. */
module Signatures {
  import opened Types

  /** `f` has the shape Register accepts for the service type `t`: `func(...) (t, error)`. */
  predicate IsFactoryFor(f: Callable, t: Type) {
    f.Func? && |f.results| == 2 && f.results[0] == t && f.results[1] == ErrorType
  }

  /** `f` has the shape InjectF accepts: `func(...) error`. */
  predicate IsInjectable(f: Callable) {
    f.Func? && f.results == [ErrorType]
  }

  /** The first shape test that the factory fails, in the order Register performs them:
      kind, then result count, then result types. */
  function FactoryShapeError(t: Type, f: Callable): (r: Option<Error>)
    ensures r.None? <==> IsFactoryFor(f, t)
    ensures !f.Func? ==> r == Some(FactoryNotAFunction)
    ensures f.Func? && |f.results| != 2 ==> r == Some(FactoryWrongResultCount)
    ensures f.Func? && |f.results| == 2 && !IsFactoryFor(f, t) ==> r == Some(FactoryWrongSignature(t))
  {
    if !f.Func? then Some(FactoryNotAFunction)
    else if |f.results| != 2 then Some(FactoryWrongResultCount)
    else if f.results[1] != ErrorType || f.results[0] != t then Some(FactoryWrongSignature(t))
    else None
  }

  /** The error Register returns for registering `f` under `t` when `registered` are the
      types that already have a factory: a shape error first, a duplicate only after that. */
  function RegistrationError(registered: set<Type>, t: Type, f: Callable): (r: Option<Error>)
    ensures r.None? <==> IsFactoryFor(f, t) && t !in registered
    ensures r == Some(Duplicate) <==> IsFactoryFor(f, t) && t in registered
    ensures FactoryShapeError(t, f).Some? ==> r == FactoryShapeError(t, f)
  {
    var shape := FactoryShapeError(t, f);
    if shape.Some? then shape
    else if t in registered then Some(Duplicate)
    else None
  }

  /** The first shape test that an InjectF target fails, in the order InjectF performs them. */
  function TargetShapeError(f: Callable): (r: Option<Error>)
    ensures r.None? <==> IsInjectable(f)
    ensures !f.Func? ==> r == Some(TargetNotAFunction)
    ensures f.Func? && |f.results| != 1 ==> r == Some(TargetWrongResultCount)
    ensures f.Func? && |f.results| == 1 && !IsInjectable(f) ==> r == Some(TargetNotReturningError)
  {
    if !f.Func? then Some(TargetNotAFunction)
    else if |f.results| != 1 then Some(TargetWrongResultCount)
    else if f.results[0] != ErrorType then Some(TargetNotReturningError)
    else None
  }
}
