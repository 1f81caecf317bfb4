/** Optional values, and the outcome of a Python call that either returns or raises. */
module Wrappers {

  datatype Option<+T> = None | Some(value: T)

  /** The Python exceptions the pipeline raises, catches or lets escape. */
  datatype Exception =
    | KeyError
    | ValueError
    | AttributeError
    | TypeError
    | NameError
      /** requests.HTTPError carrying the response's status code */
    | HttpError(status: int)
      /** any other failure reported by an external service (network, queue, database) */
    | ServiceError

  /** A call that returned `value`, or raised `exc`. */
  datatype Result<+T> = Ok(value: T) | Raised(exc: Exception)

  const TooManyRequests: int := 429
}
