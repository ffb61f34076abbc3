/** The JSON responses the gate and the account handlers write: a status code and a body. */
module Responses {
  import opened Common
  import opened UserModel

  const STATUS_OK: int := 200
  const STATUS_CREATED: int := 201
  const STATUS_BAD_REQUEST: int := 400
  const STATUS_UNAUTHORIZED: int := 401
  const STATUS_NOT_FOUND: int := 404
  const STATUS_CONFLICT: int := 409
  const STATUS_INTERNAL_ERROR: int := 500

  datatype Body =
      /** `{"error": ...}`; where the source adds `"details"` echoing a collaborator's
          error text, that text is not modelled. */
    | ErrorBody(error: string)
      /** `{"error": "Validation failed", "details": ...}`, the details being the
          composed validator's error text. */
    | ValidationFailed(details: string)
      /** A message and one user; registration puts it under "user", the profile
          handlers under "data". */
    | UserBody(message: string, user: UserResponse)
      /** `"Retrieved <count> users"` and the users. */
    | UsersBody(count: nat, users: seq<UserResponse>)
      /** A message and, under "data", a token, the user, its lifetime in seconds and
          its type. */
    | LoginBody(message: string, token: Bytes, user: UserResponse, expiresIn: int64, tokenType: string)
      /** A message and, under "data", a token, its lifetime in seconds and its type. */
    | TokenBody(message: string, token: Bytes, expiresIn: int64, tokenType: string)
    | MessageBody(message: string)

  datatype Response = Response(status: int, body: Body)

  /** The body gin's binding failure gets, in every handler that binds one. */
  const INVALID_REQUEST: string := "Invalid request format"
  /** The refusal of a handler behind the gate that finds no identity in the context. */
  const NOT_AUTHENTICATED: string := "User not authenticated"

  function Error(status: int, message: string): Response {
    Response(status, ErrorBody(message))
  }
}
