/** `Optional<T>`: a value struct that either holds a value or is undefined
    (the default struct). Equality, hashing and rendering of the held value
    belong to `T`; hashing and rendering are passed in as functions. */
module Optionals {

  datatype Optional<T> = Undefined | Defined(value: T) {
    predicate HasValue() { Defined? }
  }

  /** `new Optional<T>(value)`, also the implicit conversion from `T`. */
  function Create<T>(value: T): (r: Optional<T>)
    ensures r.HasValue() && r.value == value
  {
    Defined(value)
  }

  /** `Equals(Optional<T>)` and the `==` operator between two optionals. */
  function Equals<T(==)>(a: Optional<T>, e: Optional<T>): (r: bool)
    ensures r <==> a == e
    ensures !a.HasValue() && !e.HasValue() ==> r
    ensures a.HasValue() != e.HasValue() ==> !r
  {
    if !a.HasValue() && !e.HasValue() then true
    else a.HasValue() == e.HasValue() && a.value == e.value
  }

  /** The `!=` operator between two optionals. */
  function NotEquals<T(==)>(a: Optional<T>, e: Optional<T>): (r: bool)
    ensures r <==> a != e
  {
    !Equals(a, e)
  }

  /** `Equals(T)` and the `==` operator against a bare value. */
  function EqualsValue<T(==)>(a: Optional<T>, other: T): (r: bool)
    ensures r <==> a == Create(other)
    ensures !a.HasValue() ==> !r
  {
    a.HasValue() && a.value == other
  }

  /** What `Equals(object)` may be handed. */
  datatype Boxed<T> = BoxedValue(v: T) | BoxedOptional(o: Optional<T>) | BoxedOther

  /** `Equals(object)`: a `T` is compared as a value, an `Optional<T>` as an
      optional, anything else is unequal. */
  function EqualsObject<T(==)>(a: Optional<T>, obj: Boxed<T>): (r: bool)
    ensures obj.BoxedOther? ==> !r
    ensures obj.BoxedValue? ==> (r <==> a == Defined(obj.v))
    ensures obj.BoxedOptional? ==> (r <==> a == obj.o)
  {
    match obj
    case BoxedValue(t) => EqualsValue(a, t)
    case BoxedOptional(opt) => Equals(a, opt)
    case BoxedOther => false
  }

  /** `GetHashCode()` with the value's own hash `hash`. */
  function GetHashCode<T>(a: Optional<T>, hash: T -> int): (r: int)
    ensures !a.HasValue() ==> r == 0
    ensures a.HasValue() ==> r == hash(a.value)
  {
    if a.HasValue() then hash(a.value) else 0
  }

  /** Equal optionals hash alike, whatever the value's hash. */
  lemma EqualsHashCode<T>(a: Optional<T>, e: Optional<T>, hash: T -> int)
    requires Equals(a, e)
    ensures GetHashCode(a, hash) == GetHashCode(e, hash)
  {
  }

  /** `Equals(Optional<T>)` is an equivalence. */
  lemma EqualsEquivalence<T>(a: Optional<T>, b: Optional<T>, c: Optional<T>)
    ensures Equals(a, a)
    ensures Equals(a, b) == Equals(b, a)
    ensures Equals(a, b) && Equals(b, c) ==> Equals(a, c)
  {
  }

  /** `ToString()` with the value's own rendering `show` (a null value renders as ""). */
  function ToString<T>(a: Optional<T>, show: T -> string): (r: string)
    ensures !a.HasValue() ==> r == "<undefined>"
    ensures a.HasValue() ==> r == show(a.value)
  {
    if a.HasValue() then show(a.value) else "<undefined>"
  }

  /** `IfPresent(f, otherwise)`. */
  function IfPresent<T, U>(a: Optional<T>, f: T -> U, otherwise: U): (r: U)
    ensures a.HasValue() ==> r == f(a.value)
    ensures !a.HasValue() ==> r == otherwise
  {
    if a.HasValue() then f(a.value) else otherwise
  }

  /** `IfPresent(f)`: `default` when undefined or when the held value is null
      (`isNull`), `f(value)` otherwise. */
  function IfPresentOrDefault<T, U>(a: Optional<T>, f: T -> U, isNull: T -> bool, default: U): (r: U)
    ensures a.HasValue() && !isNull(a.value) ==> r == f(a.value)
    ensures !a.HasValue() || isNull(a.value) ==> r == default
  {
    if a.HasValue() && !isNull(a.value) then f(a.value) else default
  }

  /** The two `IfPresent` overloads agree except on a held null value. */
  lemma IfPresentOverloads<T, U>(a: Optional<T>, f: T -> U, isNull: T -> bool, default: U)
    requires !(a.HasValue() && isNull(a.value))
    ensures IfPresentOrDefault(a, f, isNull, default) == IfPresent(a, f, default)
  {
  }

  // ---- OptionalExtensions ----

  /** `GetValueOrDefault()`, also what the explicit conversion to `T` reads;
      `default` is `default(T)`. */
  function GetValueOrDefault<T>(a: Optional<T>, default: T): (r: T)
    ensures a.HasValue() ==> r == a.value
    ensures !a.HasValue() ==> r == default
  {
    if a.HasValue() then a.value else default
  }

  /** `ToOptional()`: always defined, null included. */
  function ToOptional<T>(value: T): (r: Optional<T>)
    ensures r.HasValue()
    ensures Equals(r, Create(value))
  {
    Create(value)
  }

  /** `x.ToOptional().GetValueOrDefault() == x`, whatever the default. */
  lemma ToOptionalRoundTrip<T>(x: T, default: T)
    ensures GetValueOrDefault(ToOptional(x), default) == x
  {
  }

  /** A defined optional is rebuilt from its value. */
  lemma GetValueRoundTrip<T>(a: Optional<T>, default: T)
    requires a.HasValue()
    ensures ToOptional(GetValueOrDefault(a, default)) == a
  {
  }
}
