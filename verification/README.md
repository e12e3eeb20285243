# Null<T>: a tri-state optional for PATCH-style updates

A Dafny model of the Rust crate that defines `Null<T>`, an optional with
three states: `Undefined` (the field was not mentioned), `Null` (the field
was explicitly cleared) and `Value(v)` (the field was set). Update APIs need
to keep these three apart: an unmentioned field leaves the stored value
alone, a cleared field erases it, and a set field replaces it.

The model has four modules:

- `Options` (options.dfy): Rust's `Option`, `Result` and the driver's
  one-field `Json` wrapper, with `Option::map` and `Result::ok`.
- `Nulls` (nulls.dfy): the datatype, its `Default` (`Undefined`), and the
  derived `Ord`. Variants are ordered by declaration, so
  `Undefined < Null < Value(_)`, and two `Value`s compare by `T`. `T`'s
  comparator is a parameter `cmp`. The main result is that the derived
  comparator is a total order exactly when `cmp` is.
- `Impls` (impls.dfy): the predicates, `value`, `take`, `contains_value`,
  `contains`, `map`, `map_value` and the patch primitive `update_to`. The
  `PartialEq<T>` implementation of the argument's type is a parameter
  `eq`. Closures are total Dafny functions. `update_to` returns the new slot
  rather than writing through `&mut`.
- `Conversions` (conversions.dfy): the lossless bijection with
  `Option<Option<T>>`, the lossy conversions from `Option<T>` and from a
  driver `Result`, and the JSON policy. A JSON value has the six kinds of
  section 3 of RFC 8259. The decoder receives either a JSON value or
  `Unreadable`, which stands for malformed input and for a field missing
  from the surrounding object. `T`'s own serializer and parser are the parameters `encodeT`
  and `parseT`.

Several lemmas relate the conversions to each other, and
`EncodeDecodeRoundTrip` characterises what the wire format loses. An
unmentioned field is written as `null` and read back as `Null`. Every other
field comes back intact, provided `T`'s parser inverts its encoder and `T`
does not itself encode to `null`. `EncodeDecodeNullPayload` states the
exception: a payload such as `None: Option<X>` or `()` encodes to `null`,
so `Value` of it is read back as `Null`.

## Model

| member | source | states |
|---|---|---|
| Nulls.Default | src/lib.rs:11-15 | the default field is neither cleared nor set, so it is the unmentioned one |
| Nulls.Compare | src/lib.rs:4-9 | the derived comparison puts `Undefined` below `Null` below every `Value`, equates equal non-`Value` states, and orders two `Value`s exactly as `T` orders their payloads |
| Nulls.DeclarationOrder | src/lib.rs:4-9 | `Undefined < Null < Value(v)` for every payload and every comparator of `T` |
| Nulls.LessOrEqual | src/lib.rs:4-9 | the derived `<=`: a state in an earlier-declared variant is below one in a later variant and never above it, two `Value`s compare as `T` orders their payloads, and `Undefined` and `Null` are each below or equal to themselves |
| Nulls.ValueOrder | src/lib.rs:4 | `Value(a) <= Value(b)` iff `a` is not greater than `b` in `T`'s order |
| Nulls.DerivedEquality | src/lib.rs:4-9 | two fields are equal iff they are in the same state and, when set, their payloads are equal |
| Nulls.CompareIsTotalOrder | src/lib.rs:4-9 | the derived comparator of `Null<T>` is a total order (equal iff `Equal`, antisymmetric, transitive) if and only if `T`'s comparator is |
| Impls.IsUndefined | src/impls.rs:4-6 | true exactly for the first declared state |
| Impls.IsNull | src/impls.rs:8-10 | true exactly for the second declared state |
| Impls.IsValue | src/impls.rs:12-14 | true exactly for the third declared state |
| Impls.ExactlyOneState | src/impls.rs:4-14 | exactly one of the three predicates holds of every field |
| Impls.ValueOf | src/impls.rs:16-21 | a payload is returned iff the field is set, and it is the field's own payload; `None` otherwise |
| Impls.Take | src/impls.rs:23-28 | `take` returns the same as `value`, so it cannot distinguish a cleared field from an unmentioned one |
| Impls.TakeForgetsNull | src/impls.rs:23-28 | `take` of `Null` and `take` of `Undefined` are both `None` |
| Impls.ContainsValue | src/impls.rs:30-38 | true iff the field has a payload and `x` equals it under the given `PartialEq`; false for `Null` and `Undefined` |
| Impls.Contains | src/impls.rs:40-49 | an unmentioned field contains nothing, a cleared field contains exactly `None`, and a set field contains exactly `Some` of an equal value |
| Impls.ContainsValueIsContainsSome | src/impls.rs:30-49 | `contains_value(x)` agrees with `contains(Some(x))` on every state |
| Impls.Map | src/impls.rs:51-63 | the result is unmentioned iff the input is; otherwise the result's payload is what `f` returns on the input's payload option, so `Some(u)` gives `Value(u)` and `None` gives `Null` |
| Impls.MapUndefinedIgnoresF | src/impls.rs:61 | `map` of `Undefined` is `Undefined` whatever the function |
| Impls.MapValue | src/impls.rs:65-71 | the state is preserved and the payload option is `Option::map` of `f` over the input's |
| Impls.MapValueIsMap | src/impls.rs:51-71 | `map_value(f)` equals `map` with `Option::map(f)`, so it never turns a set field into a cleared one |
| Impls.MapValueIdentity | src/impls.rs:65-71 | `map_value` with the identity function returns its input |
| Impls.MapValueIgnoresF | src/impls.rs:68-69 | outside `Value` the result of `map_value` does not depend on the function |
| Impls.MapValueComposes | src/impls.rs:65-71 | two `map_value`s in a row equal one `map_value` of the composed function |
| Impls.UpdateTo | src/impls.rs:73-79 | an unmentioned field leaves the slot unchanged; any other field sets the slot to its `value` (`None` when cleared, `Some(v)` when set) |
| Impls.DefaultLeavesSlot | src/impls.rs:73-79 | applying the default field leaves every slot unchanged |
| Impls.UpdateToIdempotent | src/impls.rs:73-79 | applying the same field twice has the effect of applying it once |
| Impls.UpdateToLastWins | src/impls.rs:73-79 | of two fields applied in turn, the later one decides the slot unless it is unmentioned |
| Conversions.ToNested | src/conversions.rs:39-47 | the outer option is absent iff the field is unmentioned, and otherwise it holds the field's `value` (`None` when cleared) |
| Conversions.FromNested | src/conversions.rs:49-57 | the field is unmentioned iff the outer option is absent, and otherwise its `value` is the inner option |
| Conversions.NestedRoundTrip | src/conversions.rs:39-57 | converting to the nested optional and back gives the original field |
| Conversions.NestedRoundTripBack | src/conversions.rs:39-57 | converting from the nested optional and back gives the original nested optional |
| Conversions.ContainsIsNestedSome | src/impls.rs:40-49 | with `==` as equality, `contains(x)` holds iff the nested form of the field is `Some(x)` |
| Conversions.MapIsNestedMap | src/impls.rs:51-63 | `map(f)` equals `Option::map(f)` applied to the nested form |
| Conversions.UpdateToIsNested | src/impls.rs:73-79 | `update_to` writes the inner option when the outer one is present and keeps the slot otherwise |
| Conversions.FromOption | src/conversions.rs:59-66 | never yields `Null`, and the result's `value` is the original option (`Some(v)` gives `Value(v)`, `None` gives `Undefined`) |
| Conversions.FromOptionIsNested | src/conversions.rs:59-66 | converting from `Option<T>` is the nested conversion of the `Some`-wrapped option |
| Conversions.FromOptionAfterTake | src/conversions.rs:59-66 | `take` followed by the conversion from `Option<T>` restores a field iff it is not `Null`; `Null` comes back as `Undefined` |
| Conversions.FromResult | src/conversions.rs:69-76 | never yields `Undefined`; `Ok(v)` gives `Value(v)` and every error gives `Null` |
| Conversions.FromResultForgetsError | src/conversions.rs:69-76 | any two errors convert to the same `Null` |
| Conversions.FromJsonResult | src/conversions.rs:78-85 | never yields `Undefined`; `Ok(Json(v))` gives `Value(v)` and every error gives `Null` |
| Conversions.FromJsonResultUnwraps | src/conversions.rs:69-85 | converting a wrapped result equals unwrapping the payload and then converting the plain result |
| Conversions.Encode | src/conversions.rs:7-14 | a set field is written exactly as its payload would be; a cleared or unmentioned field is written as JSON `null` |
| Conversions.EncodeForgetsUndefined | src/conversions.rs:7-14 | `Null` and `Undefined` have the same encoding, JSON `null` |
| Conversions.Decode | src/conversions.rs:16-37 | decoding never fails: `null` gives `Null`, a non-null value that `T` parses to `v` gives `Value(v)`, and unreadable input or a value `T` rejects gives `Undefined` |
| Conversions.EncodeDecodeRoundTrip | src/conversions.rs:7-37 | if `T`'s parser inverts its encoder and the payload does not encode to `null`, a field survives encode-then-decode iff it is not `Undefined`, and `Undefined` comes back as `Null` |
| Conversions.EncodeDecodeNullPayload | src/conversions.rs:7-37 | a set field whose payload encodes to `null` comes back as `Null` |
| Conversions.DecodeEncodeRoundTrip | src/conversions.rs:7-37 | a JSON value that decodes to `Null` or `Value` is re-encoded unchanged, given that `T`'s encoder inverts its parser on it |

## Left out

- Persistence-layer behaviour (the database driver's `Type`, `Encode` and `Decode` for a column of `Null<T>`): no implementation of it appears in src/lib.rs, src/impls.rs or src/conversions.rs, so it is not part of this model.
- The serde `Serializer`/`Deserializer` plumbing and the internals of `serde_json::Value`. A JSON value is a concrete datatype with the six kinds of section 3 of RFC 8259, but only `null` is interpreted. `T`'s serializer and parser are the parameters `encodeT` and `parseT`. A failed read of the raw input, including a field missing from the surrounding object, is the `Unreadable` case of `Input`.
- Conversions.Encode: `T`'s serializer is a total function `encodeT`, so an error that `T`'s `serialize` might return is not modelled.
- The contents of the driver's `Error` type: the error is a type parameter that is never inspected, and `Json<T>` is a one-field wrapper.
- The `Copy`, `Clone`, `Debug` and `Hash` derives, and Rust ownership and borrowing. `value` returns the payload rather than a reference, and `update_to` maps the old slot to the new slot.
- Nulls.LessOrEqual: only `T: Ord` is modelled, through a comparator `cmp` that always returns an ordering. The derive also makes `Null<T>: PartialOrd` for a `T` that is only `PartialOrd` (such as `f64`), where `partial_cmp` can return `None` and `<=` can fail both ways (`Value(NaN)`); that case is not modelled.
- Nulls.CompareIsTotalOrder: `T`'s equality is Dafny's structural `==`, so the lemma covers a `T` whose `Eq` is identity on its values (or a `T` represented by canonical forms). A Rust `Ord` that is consistent with a coarser `PartialEq` is not covered. `Impls`, by contrast, takes `PartialEq` as a parameter.
- Nulls.DerivedEquality: also uses Dafny's structural `==` for the payloads, rather than `T`'s own `PartialEq`.
- A separate strict decoder that reports malformed input as an error: the source has only the lenient one, which turns such input into `Undefined`.
