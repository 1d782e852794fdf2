/** An optional value: a JSON field that may be missing or null. */
module Wrappers {
  datatype Option<+T> = None | Some(value: T) {
    /** The value, or `default` when there is none (JavaScript's `x || default` on objects). */
    function GetOr(default: T): T {
      match this
      case Some(v) => v
      case None => default
    }
  }
}

/** The HTTP status codes the two servers answer with. */
module Http {
  type Status = int

  const OK: Status := 200
  const Created: Status := 201
  const BadRequest: Status := 400
  const Unauthorized: Status := 401
  const NotFound: Status := 404
  const Conflict: Status := 409
  const InternalError: Status := 500
  /** Sent by the Prisma server for a user name that is already taken. */
  const GatewayTimeout: Status := 504
}
