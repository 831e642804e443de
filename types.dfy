/**
 * Vocabulary shared by the order and authentication code: the two roles,
 * the three order statuses, the identity a verified token yields, and the
 * HTTP exceptions the handlers throw.
 */
module Types {

  /** `Role`: the value every user and every token carries. */
  datatype Role = Delivery | Client

  /** `OrderStatus`: the three values the status column may hold. */
  datatype OrderStatus = Pending | InProgress | Delivered

  /** `AuthenticatedUser`: the caller as the token strategy reports it. */
  datatype Identity = Identity(id: int, email: string, role: Role)

  /** The framework exceptions the core throws, each with its message. */
  datatype HttpError =
    | Unauthorized(message: string)   // 401
    | Forbidden(message: string)      // 403
    | NotFound(message: string)       // 404

  /** What a handler produces: its value, or the exception it throws. */
  datatype Outcome<+T> = Ok(value: T) | Err(error: HttpError)

  /** A value that may be absent (`null` in the source). */
  datatype Option<+T> = None | Some(value: T)
}
