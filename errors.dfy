/** The domain error type of the platform and the standard unwrap chain of Go errors. */
module Errors {
  import opened Wrappers

  /** The six domain error codes. */
  datatype Code = NotFound | Conflict | Invalid | Forbidden | Unauthorized | Internal

  /** The string value of each code. */
  function CodeName(c: Code): string
  {
    match c
    case NotFound => "NOT_FOUND"
    case Conflict => "CONFLICT"
    case Invalid => "INVALID"
    case Forbidden => "FORBIDDEN"
    case Unauthorized => "UNAUTHORIZED"
    case Internal => "INTERNAL"
  }

  /** The six codes have six different string values. */
  lemma CodeNamesDistinct(c: Code, d: Code)
    ensures CodeName(c) == CodeName(d) <==> c == d
  {
  }

  /**
   * A non-nil Go `error`:
   * - `Domain` is the platform's `*Error` (code, message, wrapped error);
   * - `Wrapped` is what `fmt.Errorf("<prefix>: %w", cause)` returns;
   * - `Foreign` is any other error (driver, context, `fmt.Errorf` without `%w`).
   */
  datatype Error =
    | Domain(code: Code, message: string, cause: Option<Error>)
    | Wrapped(prefix: string, cause: Option<Error>)
    | Foreign(text: string)

  /** `Error()`: a domain error shows its message only; `%w` of nil prints "%!w(<nil>)". */
  function Text(e: Error): string
  {
    match e
    case Domain(_, message, _) => message
    case Wrapped(prefix, None) => prefix + ": %!w(<nil>)"
    case Wrapped(prefix, Some(inner)) => prefix + ": " + Text(inner)
    case Foreign(text) => text
  }

  /** `Unwrap()`: the wrapped error, possibly nil. */
  function Unwrap(e: Error): Option<Error>
  {
    match e
    case Domain(_, _, cause) => cause
    case Wrapped(_, cause) => cause
    case Foreign(_) => None
  }

  /** `E(code, msg, err)` builds a domain error whose accessors give back exactly its arguments. */
  function E(code: Code, msg: string, err: Option<Error>): (r: Error)
    ensures r.Domain? && r.code == code
    ensures Text(r) == msg
    ensures Unwrap(r) == err
  {
    Domain(code, msg, err)
  }

  /** The unwrap chain: the error itself, then what `Unwrap` yields, repeatedly. */
  function Chain(e: Error): (c: seq<Error>)
    ensures |c| >= 1 && c[0] == e
    ensures Unwrap(e).None? ==> c == [e]
    ensures Unwrap(e).Some? ==> c == [e] + Chain(Unwrap(e).value)
  {
    match e
    case Domain(_, _, Some(inner)) => [e] + Chain(inner)
    case Wrapped(_, Some(inner)) => [e] + Chain(inner)
    case _ => [e]
  }

  /** `errors.Is(e, target)`: the target occurs somewhere on the chain. */
  function Is(e: Error, target: Error): (r: bool)
    ensures r <==> e == target || (Unwrap(e).Some? && target in Chain(Unwrap(e).value))
  {
    target in Chain(e)
  }

  /** `errors.As(e, &d)` with a `*Error` target: the first domain error on the chain. */
  function As(e: Error): (r: Option<Error>)
    ensures r.Some? ==> r.value.Domain? && r.value in Chain(e)
    ensures r.None? <==> forall x :: x in Chain(e) ==> !x.Domain?
  {
    match e
    case Domain(_, _, _) => Some(e)
    case Wrapped(_, Some(inner)) => As(inner)
    case Wrapped(_, None) => None
    case Foreign(_) => None
  }

  /** What `As` finds is the FIRST domain error on the chain: nothing before it is one. */
  lemma {:induction false} AsFindsFirstDomain(e: Error)
    requires As(e).Some?
    ensures exists k :: 0 <= k < |Chain(e)| && Chain(e)[k] == As(e).value
                        && forall j :: 0 <= j < k ==> !Chain(e)[j].Domain?
  {
    match e
    case Domain(_, _, _) =>
      assert Chain(e)[0] == As(e).value;
    case Wrapped(_, Some(inner)) =>
      AsFindsFirstDomain(inner);
      var k :| 0 <= k < |Chain(inner)| && Chain(inner)[k] == As(inner).value
                && forall j :: 0 <= j < k ==> !Chain(inner)[j].Domain?;
      assert Chain(e) == [e] + Chain(inner);
      assert Chain(e)[k + 1] == As(e).value;
      forall j | 0 <= j < k + 1
        ensures !Chain(e)[j].Domain?
      {
        if j > 0 { assert Chain(e)[j] == Chain(inner)[j - 1]; }
      }
  }

  /** Wrapping with `fmt.Errorf("...: %w", inner)` keeps `inner`'s domain classification. */
  lemma WrappingKeepsDomain(prefix: string, inner: Error)
    ensures As(Wrapped(prefix, Some(inner))) == As(inner)
  {
  }
}
