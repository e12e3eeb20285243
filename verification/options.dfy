/** The standard-library shapes the tri-state type converts to and from:
    Rust's `Option<T>`, `Result<T, E>`, and the one-field `Json<T>` wrapper
    a database driver puts around JSON columns. Only what the conversions
    need is defined here. */
module Options {

  /** Rust's `Option<T>`. */
  datatype Option<+T> = None | Some(value: T)

  /** Rust's `Result<T, E>`; the error payload is never inspected. */
  datatype Result<+T, +E> = Ok(value: T) | Err(error: E)

  /** A transparent single-field wrapper (the driver's `Json<T>`). */
  datatype Json<+T> = Json(inner: T)

  /** `Option::map`: applies `f` under `Some`, leaves `None` alone. */
  function OptionMap<T, U>(o: Option<T>, f: T -> U): (r: Option<U>)
    ensures r.None? <==> o.None?
    ensures o.Some? ==> r.value == f(o.value)
  {
    match o
    case None => None
    case Some(v) => Some(f(v))
  }

  /** `Result::ok`: keeps the success value, drops the error. */
  function ResultOk<T, E>(res: Result<T, E>): (r: Option<T>)
    ensures r.Some? <==> res.Ok?
    ensures res.Ok? ==> r.value == res.value
  {
    match res
    case Ok(v) => Some(v)
    case Err(_) => None
  }
}
