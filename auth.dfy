/** The functions of the `internal/auth` package that the handlers call.
    Their code is not part of this model: each is given as the answer it
    gives during the one request being handled, and the properties the
    handlers rely on are stated as predicates that a caller may assume. */
module Auth {
  import opened Wrappers

  /** A 128-bit UUID. */
  type Uuid = x: int | 0 <= x < 0x1_0000_0000_0000_0000_0000_0000_0000_0000

  /** `uuid.Parse`: a partial function from text to UUIDs. */
  type UuidParser = string -> Option<Uuid>

  datatype Package = Package(
    /** `auth.ValidateJWT(token, cfg.secret)` at the current instant: the
        token's subject, or `None` for a malformed, tampered or expired token. */
    validateJWT: string -> Option<Uuid>,
    /** `auth.MakeJWT(userID, cfg.secret)` at the current instant. */
    makeJWT: Uuid -> Option<string>,
    /** `auth.HashPassword(password)` on this call (the salt is random). */
    hashPassword: string -> Option<string>,
    /** `auth.CheckPasswordHash(password, hash) == nil`. */
    checkPasswordHash: (string, string) -> bool)

  /** A hash verifies against the password it was made from. */
  ghost predicate HashesVerify(auth: Package) {
    forall password :: auth.hashPassword(password).Some? ==>
      auth.checkPasswordHash(password, auth.hashPassword(password).value)
  }

  /** A freshly minted access token validates to its subject. */
  ghost predicate MintedTokensVerify(auth: Package) {
    forall id: Uuid :: auth.makeJWT(id).Some? ==> auth.validateJWT(auth.makeJWT(id).value) == Some(id)
  }

  /** The check every protected handler opens with: `auth.GetBearerToken`
      (whose outcome is `bearer`) and, only when it succeeded,
      `auth.ValidateJWT`. The authenticated user's id, if any. */
  function Authenticate(auth: Package, bearer: Option<string>): (id: Option<Uuid>)
    ensures id.Some? <==> bearer.Some? && auth.validateJWT(bearer.value).Some?
    ensures id.Some? ==> auth.validateJWT(bearer.value) == id
  {
    match bearer
    case None => None
    case Some(token) => auth.validateJWT(token)
  }

  /** A bearer token that `MakeJWT` minted for a user authenticates as
      that user. */
  lemma MintedTokenAuthenticates(auth: Package, id: Uuid)
    requires MintedTokensVerify(auth)
    requires auth.makeJWT(id).Some?
    ensures Authenticate(auth, Some(auth.makeJWT(id).value)) == Some(id)
  {
  }
}
