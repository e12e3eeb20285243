/** The tri-state optional `Null<T>` itself (src/lib.rs): the three
    variants, the `Default` value, and the total order the compiler derives
    from the declaration order of the variants. */
module Nulls {

  /** A field that was not mentioned (`Undefined`), explicitly cleared
      (`Null`), or set to a value (`Value`). Exactly one holds. */
  datatype Null<+T> = Undefined | Null | Value(value: T)

  /** `Default::default()`: a field nobody mentioned. */
  function Default<T>(): (r: Null<T>)
    ensures !r.Null? && !r.Value?
  {
    Undefined
  }

  /** Rust's `std::cmp::Ordering`. */
  datatype Ordering = Less | Equal | Greater

  /** The discriminant of a variant: its position in the declaration. */
  function Discriminant<T>(s: Null<T>): nat
  {
    match s
    case Undefined => 0
    case Null => 1
    case Value(_) => 2
  }

  /** The derived `Ord::cmp`: variants compare by declaration order, and two
      `Value`s compare by `T`'s own comparator `cmp`. */
  function Compare<T>(a: Null<T>, b: Null<T>, cmp: (T, T) -> Ordering): (r: Ordering)
    ensures a.Undefined? && !b.Undefined? ==> r == Less
    ensures a.Null? && b.Value? ==> r == Less
    ensures b.Undefined? && !a.Undefined? ==> r == Greater
    ensures b.Null? && a.Value? ==> r == Greater
    ensures a.Value? && b.Value? ==> r == cmp(a.value, b.value)
    ensures !a.Value? && a == b ==> r == Equal
  {
    match (a, b)
    case (Value(x), Value(y)) => cmp(x, y)
    case _ =>
      if Discriminant(a) < Discriminant(b) then Less
      else if Discriminant(a) > Discriminant(b) then Greater
      else Equal
  }

  /** The derived `PartialOrd::le`, for a `T` that is `Ord`: states in
      different variants are ordered by declaration, two `Value`s by `T`,
      and every non-`Value` state is below or equal to itself. */
  function LessOrEqual<T>(a: Null<T>, b: Null<T>, cmp: (T, T) -> Ordering): (r: bool)
    ensures Discriminant(a) != Discriminant(b) ==> (r <==> Discriminant(a) < Discriminant(b))
    ensures a.Value? && b.Value? ==> (r <==> cmp(a.value, b.value) != Greater)
    ensures !a.Value? && a == b ==> r
  {
    Compare(a, b, cmp) != Greater
  }

  /** What `Ord` demands of a comparator: `Equal` exactly on equal values,
      `Less` and `Greater` mirror each other, and `Less` is transitive. */
  ghost predicate IsTotalOrder<T(!new)>(cmp: (T, T) -> Ordering)
  {
    && (forall x, y :: cmp(x, y) == Equal <==> x == y)
    && (forall x, y :: cmp(x, y) == Less <==> cmp(y, x) == Greater)
    && (forall x, y, z :: cmp(x, y) == Less && cmp(y, z) == Less ==> cmp(x, z) == Less)
  }

  /** `Undefined < Null < Value(v)` for every `v`, whatever `T`'s order. */
  lemma DeclarationOrder<T>(v: T, cmp: (T, T) -> Ordering)
    ensures Compare(Undefined, Null, cmp) == Less
    ensures Compare(Null, Value(v), cmp) == Less
    ensures Compare(Undefined, Value(v), cmp) == Less
  {
  }

  /** Two `Value`s are ordered exactly as their payloads are. */
  lemma ValueOrder<T>(x: T, y: T, cmp: (T, T) -> Ordering)
    ensures LessOrEqual(Value(x), Value(y), cmp) <==> cmp(x, y) != Greater
  {
  }

  /** Derived equality: same variant and, for `Value`, equal payloads. */
  lemma DerivedEquality<T>(a: Null<T>, b: Null<T>)
    ensures a == b <==> Discriminant(a) == Discriminant(b) && (a.Value? ==> a.value == b.value)
  {
  }

  /** The comparator the derive builds from `T`'s comparator `cmp`. */
  function Lifted<T>(cmp: (T, T) -> Ordering): (lifted: (Null<T>, Null<T>) -> Ordering)
  {
    (a: Null<T>, b: Null<T>) => Compare(a, b, cmp)
  }

  /** The derived comparator is a total order exactly when `T`'s is: the
      `Value` variant embeds `T`'s order unchanged, and the other two
      variants sit below it in declaration order. */
  lemma CompareIsTotalOrder<T(!new)>(cmp: (T, T) -> Ordering)
    ensures IsTotalOrder(cmp) <==> IsTotalOrder(Lifted(cmp))
  {
    var lifted := Lifted(cmp);
    if IsTotalOrder(cmp) {
      forall a: Null<T>, b: Null<T>
        ensures lifted(a, b) == Equal <==> a == b
        ensures lifted(a, b) == Less <==> lifted(b, a) == Greater
      {
        if a.Value? && b.Value? {
          assert lifted(a, b) == cmp(a.value, b.value);
          assert lifted(b, a) == cmp(b.value, a.value);
        }
      }
      forall a: Null<T>, b: Null<T>, c: Null<T> | lifted(a, b) == Less && lifted(b, c) == Less
        ensures lifted(a, c) == Less
      {
        if a.Value? && b.Value? && c.Value? {
          assert cmp(a.value, b.value) == Less && cmp(b.value, c.value) == Less;
        }
      }
    }
    if IsTotalOrder(lifted) {
      forall x: T, y: T
        ensures cmp(x, y) == Equal <==> x == y
        ensures cmp(x, y) == Less <==> cmp(y, x) == Greater
      {
        assert lifted(Value(x), Value(y)) == cmp(x, y);
        assert lifted(Value(y), Value(x)) == cmp(y, x);
      }
      forall x: T, y: T, z: T | cmp(x, y) == Less && cmp(y, z) == Less
        ensures cmp(x, z) == Less
      {
        assert lifted(Value(x), Value(y)) == Less && lifted(Value(y), Value(z)) == Less;
        assert lifted(Value(x), Value(z)) == cmp(x, z);
      }
    }
  }
}
