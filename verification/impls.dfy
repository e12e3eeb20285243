/** The inherent operations on `Null<T>` (src/impls.rs): inspection,
    extraction, containment, the two transformers and the patch primitive.
    Rust's borrows and `FnOnce` closures become plain values and total
    Dafny functions; "`f` is never called" becomes "the result does not
    depend on `f`". */
module Impls {
  import opened Options
  import opened Nulls

  /** `is_undefined`: the field was not mentioned. */
  function IsUndefined<T>(s: Null<T>): (r: bool)
    ensures r <==> Discriminant(s) == 0
  {
    s.Undefined?
  }

  /** `is_null`: the field was explicitly cleared. */
  function IsNull<T>(s: Null<T>): (r: bool)
    ensures r <==> Discriminant(s) == 1
  {
    s.Null?
  }

  /** `is_value`: the field was set. */
  function IsValue<T>(s: Null<T>): (r: bool)
    ensures r <==> Discriminant(s) == 2
  {
    s.Value?
  }

  /** Every `Null<T>` is in exactly one of the three states. */
  lemma ExactlyOneState<T>(s: Null<T>)
    ensures IsUndefined(s) || IsNull(s) || IsValue(s)
    ensures !(IsUndefined(s) && IsNull(s))
    ensures !(IsUndefined(s) && IsValue(s))
    ensures !(IsNull(s) && IsValue(s))
  {
  }

  /** `value`: the payload of a `Value`, `None` for the other two states. */
  function ValueOf<T>(s: Null<T>): (r: Option<T>)
    ensures r.Some? <==> IsValue(s)
    ensures r.Some? ==> s == Value(r.value)
  {
    match s
    case Value(v) => Some(v)
    case _ => None
  }

  /** `take`: consumes the container and yields its payload. */
  function Take<T>(s: Null<T>): (r: Option<T>)
    ensures r == ValueOf(s)
  {
    match s
    case Value(v) => Some(v)
    case _ => None
  }

  /** `take` cannot tell a cleared field from an unmentioned one. */
  lemma TakeForgetsNull<T>()
    ensures Take<T>(Null) == Take<T>(Undefined) == None
  {
  }

  /** `contains_value`: the field holds a payload that `x` equals, where
      `eq` is the `PartialEq<T>` implementation of `x`'s type. */
  function ContainsValue<U, T>(s: Null<T>, x: U, eq: (U, T) -> bool): (r: bool)
    ensures r <==> ValueOf(s).Some? && eq(x, ValueOf(s).value)
  {
    match s
    case Value(y) => eq(x, y)
    case _ => false
  }

  /** `contains`: a cleared field contains `None`, a set field contains
      `Some(v)` of an equal `v`, and an unmentioned field contains nothing. */
  function Contains<U, T>(s: Null<T>, x: Option<U>, eq: (U, T) -> bool): (r: bool)
    ensures IsUndefined(s) ==> !r
    ensures IsNull(s) ==> (r <==> x.None?)
    ensures IsValue(s) ==> (r <==> x.Some? && eq(x.value, s.value))
  {
    match s
    case Value(y) => x.Some? && eq(x.value, y)
    case Null => x.None?
    case Undefined => false
  }

  /** `contains_value(x)` is `contains(Some(x))`: the two checks agree on
      every state, and `Undefined` satisfies neither. */
  lemma ContainsValueIsContainsSome<U, T>(s: Null<T>, x: U, eq: (U, T) -> bool)
    ensures ContainsValue(s, x, eq) <==> Contains(s, Some(x), eq)
  {
  }

  /** `map`: `f` sees `Some(v)` for a set field and `None` for a cleared
      one, and its answer decides between `Value` and `Null`; an unmentioned
      field stays unmentioned. */
  function Map<T, U>(s: Null<T>, f: Option<T> -> Option<U>): (r: Null<U>)
    ensures IsUndefined(s) <==> IsUndefined(r)
    ensures !IsUndefined(s) ==> ValueOf(r) == f(ValueOf(s))
  {
    match s
    case Value(v) =>
      (match f(Some(v))
       case Some(u) => Value(u)
       case None => Null)
    case Null =>
      (match f(None)
       case Some(u) => Value(u)
       case None => Null)
    case Undefined => Undefined
  }

  /** `map` never consults `f` on an unmentioned field. */
  lemma MapUndefinedIgnoresF<T, U>(f: Option<T> -> Option<U>, g: Option<T> -> Option<U>)
    ensures Map(Undefined, f) == Map(Undefined, g) == Undefined
  {
  }

  /** `map_value`: applies `f` to the payload and keeps the state. */
  function MapValue<T, U>(s: Null<T>, f: T -> U): (r: Null<U>)
    ensures Discriminant(r) == Discriminant(s)
    ensures ValueOf(r) == OptionMap(ValueOf(s), f)
  {
    match s
    case Value(v) => Value(f(v))
    case Null => Null
    case Undefined => Undefined
  }

  /** `map_value` is `map` with a function that keeps `None` and maps
      under `Some`: it can never turn a set field into a cleared one. */
  lemma MapValueIsMap<T, U>(s: Null<T>, f: T -> U)
    ensures MapValue(s, f) == Map(s, (o: Option<T>) => OptionMap(o, f))
  {
  }

  /** `map_value` with the identity changes nothing. */
  lemma MapValueIdentity<T>(s: Null<T>)
    ensures MapValue(s, (v: T) => v) == s
  {
  }

  /** `map_value` never consults `f` outside `Value`. */
  lemma MapValueIgnoresF<T, U>(s: Null<T>, f: T -> U, g: T -> U)
    requires !IsValue(s)
    ensures MapValue(s, f) == MapValue(s, g)
  {
  }

  /** Two `map_value`s in a row are one `map_value` of the composition. */
  lemma MapValueComposes<T, U, W>(s: Null<T>, f: T -> U, g: U -> W)
    ensures MapValue(MapValue(s, f), g) == MapValue(s, (v: T) => g(f(v)))
  {
  }

  /** `update_to`: applies the patch to a slot and returns the new slot.
      An unmentioned field leaves the slot alone, a cleared field empties
      it, a set field overwrites it. */
  function UpdateTo<T>(s: Null<T>, slot: Option<T>): (r: Option<T>)
    ensures IsUndefined(s) ==> r == slot
    ensures !IsUndefined(s) ==> r == ValueOf(s)
  {
    match s
    case Value(v) => Some(v)
    case Null => None
    case Undefined => slot
  }

  /** The default patch is the identity on every slot. */
  lemma DefaultLeavesSlot<T>(slot: Option<T>)
    ensures UpdateTo(Default(), slot) == slot
  {
  }

  /** Applying the same patch twice is applying it once. */
  lemma UpdateToIdempotent<T>(s: Null<T>, slot: Option<T>)
    ensures UpdateTo(s, UpdateTo(s, slot)) == UpdateTo(s, slot)
  {
  }

  /** A later patch that mentions the field wins over an earlier one; a
      later unmentioned one keeps whatever the earlier one wrote. */
  lemma UpdateToLastWins<T>(first: Null<T>, second: Null<T>, slot: Option<T>)
    ensures UpdateTo(second, UpdateTo(first, slot))
         == UpdateTo(if IsUndefined(second) then first else second, slot)
  {
  }
}
