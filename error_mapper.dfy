/** Translation of a domain error into an RPC status at the transport boundary. */
module ErrorMapper {
  import opened Wrappers
  import Errors

  /** The RPC status codes the mapper can produce. */
  datatype GrpcCode = NotFound | AlreadyExists | InvalidArgument | PermissionDenied | Unauthenticated | Internal

  /** An RPC status error: a code and the message shown to the client. */
  datatype Status = Status(code: GrpcCode, message: string)

  const GenericMessage: string := "internal server error"

  /** The status code a domain code is exposed as; `Internal` hides the message. */
  function Exposed(c: Errors.Code): Option<GrpcCode>
  {
    match c
    case NotFound => Some(GrpcCode.NotFound)
    case Conflict => Some(AlreadyExists)
    case Invalid => Some(InvalidArgument)
    case Forbidden => Some(PermissionDenied)
    case Unauthorized => Some(Unauthenticated)
    case Internal => None
  }

  /**
   * `ToStatus`: nil stays nil; otherwise the first domain error on the unwrap chain
   * decides the code and, unless it is internal, supplies the message.
   */
  function ToStatus(err: Option<Errors.Error>): (r: Option<Status>)
    ensures r.None? <==> err.None?
    ensures r.Some? && r.value.code == Internal ==> r.value.message == GenericMessage
    ensures r.Some? && r.value.code != Internal ==>
              exists d :: d in Errors.Chain(err.value) && d.Domain? && d.message == r.value.message
    ensures err.Some? && Errors.As(err.value).None? ==> r == Some(Status(Internal, GenericMessage))
    ensures err.Some? && Errors.As(err.value).Some? ==>
              var d := Errors.As(err.value).value;
              r == Some(if Exposed(d.code).Some? then Status(Exposed(d.code).value, d.message)
                        else Status(Internal, GenericMessage))
  {
    match err
    case None => None
    case Some(e) =>
      match Errors.As(e)
      case None => Some(Status(Internal, GenericMessage))
      case Some(d) =>
        match Exposed(d.code)
        case Some(code) => Some(Status(code, d.message))
        case None => Some(Status(Internal, GenericMessage))
  }

  /** The full table: each domain code against the status produced and the message kept or hidden. */
  lemma ToStatusTable(code: Errors.Code, msg: string, cause: Option<Errors.Error>)
    ensures var r := ToStatus(Some(Errors.E(code, msg, cause))).value;
      && (code == Errors.Code.NotFound ==> r == Status(GrpcCode.NotFound, msg))
      && (code == Errors.Code.Conflict ==> r == Status(AlreadyExists, msg))
      && (code == Errors.Code.Invalid ==> r == Status(InvalidArgument, msg))
      && (code == Errors.Code.Forbidden ==> r == Status(PermissionDenied, msg))
      && (code == Errors.Code.Unauthorized ==> r == Status(Unauthenticated, msg))
      && (code == Errors.Code.Internal ==> r == Status(Internal, GenericMessage))
  {
  }

  /** Distinct exposed domain codes reach the client as distinct status codes. */
  lemma ExposedInjective(c: Errors.Code, d: Errors.Code)
    requires Exposed(c).Some? && Exposed(c) == Exposed(d)
    ensures c == d
  {
  }

  /** An error with no domain error anywhere on its chain is reported as internal. */
  lemma ForeignIsInternal(text: string)
    ensures ToStatus(Some(Errors.Foreign(text))) == Some(Status(Internal, GenericMessage))
  {
  }

  /**
   * Any stack of `fmt.Errorf("...: %w", ...)` wrappers around an error leaves its status
   * unchanged: the wrapped cancel-order lookup failure is still reported by its inner kind.
   */
  lemma {:induction false} WrappersKeepStatus(prefixes: seq<string>, inner: Errors.Error)
    ensures ToStatus(Some(WrapAll(prefixes, inner))) == ToStatus(Some(inner))
  {
    if prefixes != [] {
      WrappersKeepStatus(prefixes[1..], inner);
      Errors.WrappingKeepsDomain(prefixes[0], WrapAll(prefixes[1..], inner));
    }
  }

  /** `inner` wrapped by one `fmt.Errorf` per prefix, outermost first. */
  function WrapAll(prefixes: seq<string>, inner: Errors.Error): Errors.Error
  {
    if prefixes == [] then inner else Errors.Wrapped(prefixes[0], Some(WrapAll(prefixes[1..], inner)))
  }
}
