/** The central error handler of backend/src/middlewares/errorHandler.ts: a first-match
    classification of a failure into a status code and a body. The logging call is an
    effect and is left out. */
module ErrorHandler {
  import opened Types
  import opened Http

  const ValidationMessage := "Error de validación"
  const UniqueConflictMessage := "Ya existe un registro con ese valor único"
  const NotFoundMessage := "Recurso no encontrado"
  const InternalMessage := "Error interno del servidor"

  const UniqueViolation := "P2002"
  const RecordNotFound := "P2025"

  /** The handler's response to a failure, branch by branch. */
  function ErrorResponse(e: Error): (r: Response)
    ensures e.AppError? ==> r == Response(e.statusCode, MessageDetails(e.message, e.details))
    ensures e.ZodError? ==> r == Response(400, ValidationBody(ValidationMessage, e.issues))
    ensures e.PrismaKnown? && e.code == UniqueViolation ==> r == Response(409, MessageMeta(UniqueConflictMessage, e.meta))
    ensures e.PrismaKnown? && e.code == RecordNotFound ==> r == Response(404, MessageMeta(NotFoundMessage, e.meta))
    ensures e.Other? || (e.PrismaKnown? && e.code != UniqueViolation && e.code != RecordNotFound)
            ==> r == Response(500, MessageOnly(InternalMessage))
  {
    match e
    case AppError(message, statusCode, details) =>
      Response(statusCode, MessageDetails(message, details))
    case ZodError(issues) =>
      Response(400, ValidationBody(ValidationMessage, issues))
    case PrismaKnown(code, meta) =>
      if code == UniqueViolation then Response(409, MessageMeta(UniqueConflictMessage, meta))
      else if code == RecordNotFound then Response(404, MessageMeta(NotFoundMessage, meta))
      else Response(500, MessageOnly(InternalMessage))
    case Other =>
      Response(500, MessageOnly(InternalMessage))
  }

  /** The error taxonomy: validation, not found, conflict, internal,
      plus the application's own errors, which carry their status. */
  datatype Kind = Validation | NotFound | Conflict | Internal | Domain(status: int)

  function KindOf(e: Error): Kind
  {
    if e.AppError? then Domain(e.statusCode)
    else if e.ZodError? then Validation
    else if e.PrismaKnown? && e.code == UniqueViolation then Conflict
    else if e.PrismaKnown? && e.code == RecordNotFound then NotFound
    else Internal
  }

  function KindStatus(k: Kind): int
  {
    match k
    case Validation => 400
    case NotFound => 404
    case Conflict => 409
    case Internal => 500
    case Domain(s) => s
  }

  /** Every failure gets the status of its kind in the taxonomy, and a failure that is
      not the application's own is answered with one of 400, 404, 409 and 500. */
  lemma StatusFollowsTaxonomy(e: Error)
    ensures ErrorResponse(e).status == KindStatus(KindOf(e))
    ensures !e.AppError? ==> ErrorResponse(e).status in {400, 404, 409, 500}
  {
  }

  /** A 500 for anything but an application error exposes nothing but the generic
      message: no detail, no meta, no issue list. */
  lemma InternalErrorsLeakNothing(e: Error)
    requires !e.AppError? && ErrorResponse(e).status == 500
    ensures ErrorResponse(e).body == MessageOnly(InternalMessage)
  {
  }
}
