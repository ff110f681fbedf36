/** The vocabulary of the HTTP boundary: the failures the backend throws and the
    responses it sends. The AppError class (backend/src/errors/AppError.ts) is not
    part of this model beyond the three fields the error handler reads. */
module Http {
  import opened Types
  import opened UserSchema

  /** The closed set of failures that reach the error handler. */
  datatype Error =
    | AppError(message: string, statusCode: int, details: Option<Json>)  // thrown by the service
    | ZodError(issues: seq<Issue>)                                        // thrown by a schema's parse
    | PrismaKnown(code: string, meta: Option<Json>)                       // a known store error
    | Other                                                               // anything else

  /** A response body. */
  datatype Body =
    | UserBody(user: User)
    | PageBody(page: PaginatedUsers)
    | MessageDetails(message: string, details: Option<Json>)
    | ValidationBody(message: string, errors: seq<Issue>)
    | MessageMeta(message: string, meta: Option<Json>)
    | MessageOnly(message: string)
    | NoBody

  datatype Response = Response(status: int, body: Body)
}
