/** Values shared by the builder, the cache and the client: nullable references,
    C#'s 32-bit int, runtime types of objects and the exceptions the core throws. */
module Values {

  /** A C# reference that may be null: None stands for null. */
  datatype Option<+T> = None | Some(value: T)

  /** C#'s `int`. */
  newtype int32 = x: int | -0x8000_0000 <= x < 0x8000_0000

  /** The runtime type of an object. Every class derives from `object`. */
  datatype TypeTag = ObjectType | ClassType(name: string)

  /** An object on the heap, seen through its runtime type and an opaque state. */
  datatype Obj = Obj(runtimeType: TypeTag, state: string)

  /** `o is T`: the runtime type is `T` itself, or `T` is `object`. */
  predicate IsA(actual: TypeTag, target: TypeTag)
  {
    target == ObjectType || actual == target
  }

  /** `o as T`: the object itself when it is a `T`, null otherwise (never throws). */
  function As(o: Option<Obj>, target: TypeTag): (r: Option<Obj>)
    ensures r.Some? <==> o.Some? && IsA(o.value.runtimeType, target)
    ensures r.Some? ==> r == o
  {
    if o.Some? && IsA(o.value.runtimeType, target) then o else None
  }

  /** The exceptions the core raises. */
  datatype Error =
    | ArgumentNull(paramName: string)        // ArgumentNullException
    | ArgumentOutOfRange(paramName: string)  // ArgumentOutOfRangeException
    | InvalidOperation                       // "Collection was modified" from a List enumerator

  /** How a call that returns nothing ended: normally, or with an exception. */
  datatype Outcome = Pass | Fail(error: Error)

  /** How a call that returns a value ended. */
  datatype Result<+T> = Ok(value: T) | Err(error: Error)
}
