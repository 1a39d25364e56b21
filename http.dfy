/**
 * What a route hands back to the web framework: a normal return with its
 * status code, an `HTTPException` the handler raised, or one of the ways a
 * request ends before or outside the handler's own code.
 */
module Http {

  datatype Response<+T> =
    | Ok(status: int, body: T)
      // the handler returned normally (200, or the route's declared status)
    | Raised(status: int, detail: string)
      // the handler raised `HTTPException(status_code, detail)`
    | Unprocessable
      // 422: the framework rejected the body, query or path parameters
    | Forbidden
      // 403: the role guard dependency refused the current user
    | TokenRejected
      // the token decoder raised; its status and detail belong to the token service
    | Crashed
      // an uncaught exception inside the handler: the framework answers 500

}
