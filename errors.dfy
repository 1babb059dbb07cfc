/** The single error kind of the CORS engine, the lookup error a missing key raises,
    and the error `unicode()` raises on a byte string that is not ASCII. */
module Errors {

  import opened Wrappers
  import opened Http

  /** Why access was refused; each case carries what the message reports. */
  datatype Reason =
    | OriginNotAllowed(origin: string)
    | MethodNotAllowed(verb: string)
    | HeadersNotAllowed(prohibited: set<string>)
    | HeaderNotAccessible(name: string)

  datatype Error =
    | AccessControlError(reason: Reason, url: Option<string>, verb: Option<string>, headers: Option<Headers>)
    | KeyError(key: string)
    | UnicodeDecodeError

  /** An access-control error carrying the request's url, method and headers. */
  function Denied(reason: Reason, req: Request): Error
  {
    AccessControlError(reason, Some(req.url), Some(req.verb), Some(req.headers))
  }
}
