/**
 * The type-erased value container `Any` of threadpool.h.  The C++ class stores a
 * `Derive<T>` behind a `Base` pointer and recovers it with `dynamic_cast`; here the
 * stored value carries its type tag and extraction compares tags.
 */
module AnyValue {
  import opened CInts

  /** The payload types the pool's clients store: `int`, `unsigned long long`
      (the demonstration tasks' sums), `const char*` (the literal `""` that a
      rejected Result returns) and `std::string`. */
  datatype TypeTag = IntType | ULongLongType | CStringType | StdStringType

  datatype Value =
    | IntValue(i: Int32)
    | ULongLongValue(u: ULongLong)
    | CStringValue(chars: string)
    | StdStringValue(text: string)

  /** The static type `T` that `Any(T data)` was instantiated with. */
  function TypeOf(v: Value): TypeTag
  {
    match v
    case IntValue(_) => IntType
    case ULongLongValue(_) => ULongLongType
    case CStringValue(_) => CStringType
    case StdStringValue(_) => StdStringType
  }

  /** `Empty` is a default-constructed (or moved-from) `Any`, whose `base_` is null;
      `Holding(v)` is `Any(v)`, which stores exactly `v`. */
  datatype Any = Empty | Holding(data: Value)

  /** `TypeMismatch` is the `throw "type is unmatch!"` of `cast_`. */
  datatype CastResult = Ok(value: Value) | TypeMismatch

  /** `cast_<T>()`: succeeds exactly when a value is stored and its type is `t`,
      and then yields the stored value. */
  function Cast(a: Any, t: TypeTag): (r: CastResult)
    ensures r.Ok? <==> a.Holding? && TypeOf(a.data) == t
    ensures r.Ok? ==> a == Holding(r.value) && TypeOf(r.value) == t
  {
    match a
    case Empty => TypeMismatch
    case Holding(v) => if TypeOf(v) == t then Ok(v) else TypeMismatch
  }

  /** What `Result::get` returns for a rejected submission: `return "";` builds an
      `Any` from a `const char*`. */
  const EmptySentinel: Any := Holding(CStringValue(""))

  /** Storing a value and extracting it under its own type gives it back; under
      any other type the extraction fails. */
  lemma ConstructThenCast(v: Value, t: TypeTag)
    ensures Cast(Holding(v), t) == if t == TypeOf(v) then Ok(v) else TypeMismatch
  {
  }

  /** The sentinel extracts only as a C string, so a client that casts a rejected
      Result to the task's own result type (`cast_<ULL>()`) gets the mismatch. */
  lemma SentinelCastsOnlyAsCString(t: TypeTag)
    ensures Cast(EmptySentinel, t).Ok? <==> t == CStringType
    ensures t == CStringType ==> Cast(EmptySentinel, t) == Ok(CStringValue(""))
  {
  }
}
