/** The application's last two handlers: the error middleware that turns a
    thrown error into a status and message by its name (and, for cast
    errors, its kind), and the catch-all 404 for unmatched routes. Logging
    the error is not part of this model. */
module ErrorMapper {
  import opened Http

  /** The fields of a thrown error the middleware reads. */
  datatype AppError = AppError(name: string, kind: string, message: string)

  /** `process.env.NODE_ENV === 'production'`. */
  predicate IsProduction(nodeEnv: string) {
    nodeEnv == "production"
  }

  function MapError(err: AppError, nodeEnv: string): (r: Response)
    ensures r.status in {400, 401, 500}
    ensures r.payload == NoPayload && !r.limitReached
  {
    if err.name == "ValidationError" then Failure(400, "Validation Error", err.message)
    else if err.name == "JsonWebTokenError" then Failure(401, "Invalid token", "Authentication failed")
    else if err.name == "TokenExpiredError" then Failure(401, "Token expired", "Please login again")
    else if err.name == "CastError" && err.kind == "ObjectId" then Failure(400, "Invalid ID", "Please provide a valid ID")
    else Failure(500, "Internal Server Error", if IsProduction(nodeEnv) then "Something went wrong" else err.message)
  }

  /** The status depends on the name (and a cast error's kind) only: 400 for
      validation errors and ObjectId cast errors, 401 for the two token
      errors, 500 for everything else. */
  lemma MapErrorStatus(err: AppError, nodeEnv: string)
    ensures MapError(err, nodeEnv).status == 400 <==>
              err.name == "ValidationError" || (err.name == "CastError" && err.kind == "ObjectId")
    ensures MapError(err, nodeEnv).status == 401 <==>
              err.name == "JsonWebTokenError" || err.name == "TokenExpiredError"
    ensures MapError(err, nodeEnv).status == 500 <==>
              !(err.name in {"ValidationError", "JsonWebTokenError", "TokenExpiredError"})
              && !(err.name == "CastError" && err.kind == "ObjectId")
  {
  }

  /** A cast error of any other kind is an internal error. */
  lemma CastErrorOtherKind(message: string, kind: string, nodeEnv: string)
    requires kind != "ObjectId"
    ensures MapError(AppError("CastError", kind, message), nodeEnv).status == 500
  {
  }

  /** An internal error's own message is shown exactly outside production. */
  lemma InternalMessageHidden(err: AppError, nodeEnv: string)
    requires MapError(err, nodeEnv).status == 500
    requires err.message != "Something went wrong"
    ensures MapError(err, nodeEnv).message == err.message <==> !IsProduction(nodeEnv)
  {
  }

  /** Only validation errors and internal errors outside production pass
      the error's message on; every other answer is fixed. */
  lemma MessageLeaksOnly(err: AppError, nodeEnv: string)
    ensures MapError(err, nodeEnv).message != err.message ==>
              !(err.name == "ValidationError") && !(MapError(err, nodeEnv).status == 500 && !IsProduction(nodeEnv))
    ensures IsProduction(nodeEnv) && err.name != "ValidationError" ==> MapError(err, nodeEnv) == MapError(err.(message := ""), nodeEnv)
  {
  }

  /** The catch-all: 404 naming the original URL. */
  function NotFound(originalUrl: string): (r: Response)
    ensures r.status == 404 && r.error == "Not Found"
    ensures |r.message| == |originalUrl| + 16
    ensures r.message[..6] == "Route " && r.message[6..6 + |originalUrl|] == originalUrl
    ensures r.message[6 + |originalUrl|..] == " not found"
  {
    Failure(404, "Not Found", "Route " + originalUrl + " not found")
  }
}
