/** What a handler sends back: a status code and a payload standing for
    the JSON that `respondWithJSON` or `respondWithError` writes. */
module Responses {
  import opened Auth
  import opened Database

  const StatusOK := 200
  const StatusCreated := 201
  const StatusNoContent := 204
  const StatusBadRequest := 400
  const StatusUnauthorized := 401
  const StatusForbidden := 403
  const StatusNotFound := 404
  const StatusInternalServerError := 500

  const MsgMissingToken := "Missing or malformed token"
  const MsgInvalidToken := "Invalid or expired token"
  const MsgCannotDecode := "Couldn't decode parameters"
  const MsgChirpNotFound := "chirp not found"
  const MsgBadCredentials := "Incorrect email or password"
  const MsgCannotHash := "Couldn't hash password"

  /** The `User` of users.go: id, timestamps and email, no password hash. */
  datatype UserView = UserView(id: Uuid, createdAt: int, updatedAt: int, email: string)

  function ViewOf(u: User): UserView {
    UserView(u.id, u.createdAt, u.updatedAt, u.email)
  }

  datatype Payload =
    | NoBody
    | ErrorBody(error: string)
    | ChirpBody(chirp: Chirp)
    | ChirpList(chirps: seq<Chirp>)
    | UserBody(user: UserView)
    | AuthenticatedUser(user: UserView, token: string, refreshToken: string)
    | TokenBody(token: string)

  datatype Response = Response(status: int, payload: Payload)

  /** `respondWithError`: the status and `{"error": msg}`. */
  function RespondWithError(status: int, msg: string): Response {
    Response(status, ErrorBody(msg))
  }
}
