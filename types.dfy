/** Values the registry manipulates: runtime types, opaque instances, callables and errors.
    Go's reflection is reduced to what injector.go actually inspects. */
module Types {

  /** The kind of a Go type, as far as the registry tells kinds apart: `get` accepts
      pointers only, and `injectFunc` takes `Elem()` of every parameter type, which Go
      defines for pointers, arrays, channels, maps and slices and panics on for the rest. */
  datatype Kind = Pointer | Array | Chan | Map | Slice | Other

  /** A Go runtime type (a `reflect.Type`), reduced to its identity and its kind.
      Two requests for the same Go type give the same `Type`. */
  datatype Type = Type(name: string, kind: Kind)

  /** `Elem()` is defined on `t`: taking it does not panic. */
  predicate HasElem(t: Type) {
    t.kind != Other
  }

  /** The predeclared interface type `error`, which the registry recognises by its name. */
  const ErrorType: Type := Type("error", Other)

  /** An instance of a service: the struct a service pointer points to. Only its identity
      matters to the registry. */
  datatype Value = Value(id: nat)

  datatype Option<+T> = None | Some(value: T)

  /** The outcome of a resolution: a value, or the Go `error` that stopped it. */
  datatype Result<+T> = Ok(value: T) | Err(error: Error)

  /** The errors the registry returns, one constructor per distinct error it can produce,
      plus the errors that user code (factories and injected functions) returns. */
  datatype Error =
    | NotAPointer                       // get: the requested type is not a pointer type
    | FactoryNotAFunction               // Register: the factory is not a function
    | FactoryWrongResultCount           // Register: the factory does not return two values
    | FactoryWrongSignature(expected: Type)  // Register: the factory is not `func(...) (T, error)`
    | Duplicate                         // ErrDuplicate
    | NotRegistered                     // ErrNotRegistered
    | TargetNotAFunction                // InjectF: the argument is not a function
    | TargetWrongResultCount            // InjectF: the function does not return exactly one value
    | TargetNotReturningError           // InjectF: the one result is not `error`
    | Raised(message: string)           // an error built and returned by user code

  /** What one call of a user function returns. For a factory `func(...) (T, error)`,
      `value` is the instance its first result points to and `err` its second result
      (`None` for nil). For a function `func(...) error` given to InjectF, `err` is its
      only result and `value` is meaningless. */
  datatype Returned = Returned(value: Value, err: Option<Error>)

  /** How a call of InjectF ends: it returns an error (`None` for nil), or it panics. */
  datatype Outcome = Returns(err: Option<Error>) | Panics

  /** A value passed where the registry expects a function: either not a function at all,
      or a function with its parameter types, its result types and its (deterministic)
      behaviour on the arguments it is called with. */
  datatype Callable =
    | NotAFunction
    | Func(params: seq<Type>, results: seq<Type>, body: seq<Value> -> Returned)

  /** One call of a registered factory during resolution: the service it was called for
      and the error it returned (`None` when it succeeded). */
  datatype Invocation = Invocation(service: Type, err: Option<Error>)
}
