/** Option and Result, and the exceptions the Python code raises, as values. */
module Wrappers {

  datatype Option<T> = None | Some(value: T)

  /** The exception classes the modelled code raises or catches. */
  datatype Exception =
    | ValueError(msg: string)
    | KeyError(key: string)
    | TypeError(msg: string)
    | AttributeError(msg: string)
      /** SoapRepositoryError and its subclasses */
    | RepositoryError(msg: string)
    | EndpointNotReachable(url: string, reason: string)
    | InvalidResponse(msg: string)
    | AuthenticationFailed(msg: string)
      /** HttpClientError of the HTTP client adapters */
    | HttpClientError(msg: string)
    | XmlParserError(msg: string)
  {
    /** `except SoapRepositoryError` catches exactly these. */
    predicate IsRepositoryError() {
      RepositoryError? || EndpointNotReachable? || InvalidResponse? || AuthenticationFailed?
    }

    /** `str(e)` */
    function Message(): string {
      match this
      case ValueError(m) => m
      case KeyError(k) => "'" + k + "'"
      case TypeError(m) => m
      case AttributeError(m) => m
      case RepositoryError(m) => m
      case EndpointNotReachable(u, r) => "Endpoint " + u + " nicht erreichbar: " + r
      case InvalidResponse(m) => m
      case AuthenticationFailed(m) => m
      case HttpClientError(m) => m
      case XmlParserError(m) => m
    }
  }

  datatype Result<T> = Ok(value: T) | Fail(error: Exception)

  /** The outcome of a call that returns nothing: it completes, or raises. */
  datatype Outcome = Done | Raised(error: Exception)
}
