/** Conversions of `Null<T>` (src/conversions.rs): to and from the nested
    optional `Option<Option<T>>`, from `Option<T>` and from a driver's
    `Result`, and the JSON encode/decode policy. */
module Conversions {
  import opened Options
  import opened Nulls
  import opened Impls

  // ---------------------------------------------------------------------
  // The nested optional: the same three states, spelled `Option<Option<T>>`

  /** `From<Null<T>> for Option<Option<T>>`: outer `None` for an unmentioned
      field, inner `None` for a cleared one. */
  function ToNested<T>(s: Null<T>): (r: Option<Option<T>>)
    ensures r.None? <==> IsUndefined(s)
    ensures r.Some? ==> r.value == ValueOf(s)
  {
    match s
    case Undefined => None
    case Null => Some(None)
    case Value(v) => Some(Some(v))
  }

  /** `From<Option<Option<T>>> for Null<T>`. */
  function FromNested<T>(o: Option<Option<T>>): (r: Null<T>)
    ensures IsUndefined(r) <==> o.None?
    ensures o.Some? ==> ValueOf(r) == o.value
  {
    match o
    case Some(Some(v)) => Value(v)
    case Some(None) => Null
    case None => Undefined
  }

  /** Nothing is lost going to the nested optional and back. */
  lemma NestedRoundTrip<T>(s: Null<T>)
    ensures FromNested(ToNested(s)) == s
  {
  }

  /** Nothing is lost coming from the nested optional and back. */
  lemma NestedRoundTripBack<T>(o: Option<Option<T>>)
    ensures ToNested(FromNested(o)) == o
  {
  }

  /** With `==` as the equality, `contains(x)` holds exactly when the
      nested form of the field is `Some(x)`. */
  lemma ContainsIsNestedSome<T>(s: Null<T>, x: Option<T>)
    ensures Contains(s, x, (a: T, b: T) => a == b) <==> ToNested(s) == Some(x)
  {
  }

  /** `map` is `Option::map` of `f` over the nested form. */
  lemma MapIsNestedMap<T, U>(s: Null<T>, f: Option<T> -> Option<U>)
    ensures Map(s, f) == FromNested(OptionMap(ToNested(s), f))
  {
  }

  /** `update_to` writes the inner option when the outer one is present. */
  lemma UpdateToIsNested<T>(s: Null<T>, slot: Option<T>)
    ensures UpdateTo(s, slot) == (if ToNested(s).Some? then ToNested(s).value else slot)
  {
  }

  // ---------------------------------------------------------------------
  // Lossy conversions into `Null<T>`

  /** `From<Option<T>>`: `None` means "not mentioned", never "cleared". */
  function FromOption<T>(o: Option<T>): (r: Null<T>)
    ensures !IsNull(r)
    ensures ValueOf(r) == o
  {
    match o
    case Some(v) => Value(v)
    case None => Undefined
  }

  /** `From<Option<T>>` is the nested conversion of `Some`-wrapped values. */
  lemma FromOptionIsNested<T>(o: Option<T>)
    ensures FromOption(o) == FromNested(OptionMap(o, (v: T) => Some(v)))
  {
  }

  /** `take` then `From<Option<T>>` restores every state but `Null`, which
      comes back as `Undefined`. */
  lemma FromOptionAfterTake<T>(s: Null<T>)
    ensures FromOption(Take(s)) == s <==> !IsNull(s)
    ensures IsNull(s) ==> FromOption(Take(s)) == Undefined
  {
  }

  /** `From<Result<T, Error>>`: a success is a value and any error is an
      explicit `Null`, never `Undefined`. */
  function FromResult<T, E>(res: Result<T, E>): (r: Null<T>)
    ensures !IsUndefined(r)
    ensures ValueOf(r) == ResultOk(res)
  {
    match res
    case Ok(data) => Value(data)
    case Err(_) => Null
  }

  /** The error's contents are discarded: all errors become the same `Null`. */
  lemma FromResultForgetsError<T, E>(e1: E, e2: E)
    ensures FromResult<T, E>(Err(e1)) == FromResult<T, E>(Err(e2)) == Null
  {
  }

  /** `From<Result<Json<T>, Error>>`: as `FromResult`, after taking the
      payload out of the wrapper. */
  function FromJsonResult<T, E>(res: Result<Json<T>, E>): (r: Null<T>)
    ensures !IsUndefined(r)
    ensures ValueOf(r) == OptionMap(ResultOk(res), (j: Json<T>) => j.inner)
  {
    match res
    case Ok(data) => Value(data.inner)
    case Err(_) => Null
  }

  /** Unwrapping first and converting second gives the same field. */
  lemma FromJsonResultUnwraps<T, E>(res: Result<Json<T>, E>)
    ensures FromJsonResult(res)
         == FromResult(match res case Ok(j) => Ok(j.inner) case Err(e) => Err(e))
  {
  }

  // ---------------------------------------------------------------------
  // JSON (section 3 of RFC 8259): a value is null, a boolean, a number,
  // a string, an array or an object. Only `null` matters to the policy.

  datatype JsonValue =
    | JNull
    | JBool(b: bool)
    | JNumber(text: string)
    | JString(chars: string)
    | JArray(items: seq<JsonValue>)
    | JObject(members: seq<(string, JsonValue)>)

  /** What the decoder is handed: a JSON value, or nothing it can read as
      one. `Unreadable` covers malformed input and also a field missing from
      the surrounding object, for which reading a JSON value fails too. */
  datatype Input = Unreadable | Readable(json: JsonValue)

  /** `Serialize`: a set field is written as its payload would be (by
      `encodeT`), the other two as JSON `null`. */
  function Encode<T>(s: Null<T>, encodeT: T -> JsonValue): (r: JsonValue)
    ensures !IsValue(s) ==> r.JNull?
    ensures IsValue(s) ==> r == encodeT(s.value)
  {
    match s
    case Value(v) => encodeT(v)
    case _ => JNull
  }

  /** On the wire a cleared field and an unmentioned one look the same. */
  lemma EncodeForgetsUndefined<T>(encodeT: T -> JsonValue)
    ensures Encode(Undefined, encodeT) == Encode(Null, encodeT) == JNull
  {
  }

  /** `Deserialize`: `null` is a cleared field, a value `T` parses (by
      `parseT`) is a set field, and everything else (a missing field,
      unreadable input, or a value `T` rejects) is silently an unmentioned
      field. Never an error. */
  function Decode<T>(input: Input, parseT: JsonValue -> Option<T>): (r: Null<T>)
    ensures IsNull(r) <==> input == Readable(JNull)
    ensures IsValue(r) <==> input.Readable? && !input.json.JNull? && parseT(input.json).Some?
    ensures IsValue(r) ==> parseT(input.json) == Some(r.value)
    ensures IsUndefined(r) <==>
              input.Unreadable? || (!input.json.JNull? && parseT(input.json).None?)
  {
    match input
    case Readable(json) =>
      (match json
       case JNull => Null
       case _ =>
         (match parseT(json)
          case Some(v) => Value(v)
          case None => Undefined))
    case Unreadable => Undefined
  }

  /** Encoding then decoding gives back exactly the fields that were
      mentioned, provided `T`'s own parser inverts its encoder on the payload
      and that encoding is not itself `null`; an unmentioned field comes
      back as `Null`. */
  lemma EncodeDecodeRoundTrip<T>(s: Null<T>, encodeT: T -> JsonValue, parseT: JsonValue -> Option<T>)
    requires IsValue(s) ==> parseT(encodeT(s.value)) == Some(s.value) && !encodeT(s.value).JNull?
    ensures Decode(Readable(Encode(s, encodeT)), parseT) == s <==> !IsUndefined(s)
    ensures IsUndefined(s) ==> Decode(Readable(Encode(s, encodeT)), parseT) == Null
  {
  }

  /** A payload whose own encoding is `null` (a `T` such as `Option<X>`
      holding `None`, or `()`) cannot survive the trip: it comes back as a
      cleared field. */
  lemma EncodeDecodeNullPayload<T>(v: T, encodeT: T -> JsonValue, parseT: JsonValue -> Option<T>)
    requires encodeT(v).JNull?
    ensures Decode(Readable(Encode(Value(v), encodeT)), parseT) == Null
  {
  }

  /** Decoding then encoding a mentioned field gives back the input, given
      that `T`'s encoder inverts its parser on that input. */
  lemma DecodeEncodeRoundTrip<T>(json: JsonValue, encodeT: T -> JsonValue, parseT: JsonValue -> Option<T>)
    requires parseT(json).Some? ==> encodeT(parseT(json).value) == json
    ensures !IsUndefined(Decode(Readable(json), parseT)) ==>
              Encode(Decode(Readable(json), parseT), encodeT) == json
  {
  }
}
