/** Clients that run several handlers in a row against one store, in the
    manner of a session: what a caller can conclude from the handlers'
    contracts alone. */
module Scenarios {
  import opened Wrappers
  import opened Auth
  import opened Database
  import opened Responses
  import Chirps
  import Handlers
  import Users

  /** Signing up and then logging in with the same email and password gets
      past the credential check, provided a hash verifies against the
      password it was made from and the login's user query does not fail. */
  method SignUpThenLogIn(db: Store, auth: Package, email: string, password: string,
                         newId: Uuid, refreshToken: Option<string>, now: int, lookupFault: bool)
    returns (signUp: Response, logIn: Response)
    requires db.Valid() && HashesVerify(auth)
    modifies db
    ensures db.Valid()
    ensures signUp.status == StatusCreated && !lookupFault ==> logIn.status != StatusUnauthorized
    ensures signUp.status == StatusCreated && logIn.status == StatusOK ==>
      logIn.payload.AuthenticatedUser? && logIn.payload.user.id == newId
  {
    signUp := Users.CreateUsersHandler(db, auth, Some(Users.UserParameters(password, email)), newId, now, false);
    if signUp.status == StatusCreated {
      assert db.users[newId].email == email;
      assert db.UserWithEmail(email) == Some(db.users[newId]);
      assert auth.checkPasswordHash(password, db.users[newId].hashedPassword);
    }
    logIn := Handlers.LoginHandler(db, auth, Some(Handlers.LoginParameters(password, email)), refreshToken, now, lookupFault, false);
  }

  /** The refresh token a login hands out is accepted until its lifetime
      has passed, and mints access tokens for the user who logged in.
      `later` is the instant of the refresh, `authLater` the auth package
      as it answers then, `refreshLookupFault` whether the refresh
      handler's token query fails. */
  method LogInThenRefresh(db: Store, auth: Package, authLater: Package, params: Handlers.LoginParameters,
                          refreshToken: Option<string>, now: int, later: int, refreshLookupFault: bool)
    returns (logIn: Response, refresh: Response)
    requires db.Valid()
    modifies db
    ensures db.Valid()
    ensures logIn.status == StatusOK && later <= now + RefreshTokenLifetime && !refreshLookupFault ==>
      && logIn.payload.AuthenticatedUser?
      && refresh.status != StatusUnauthorized
      && (refresh.status == StatusOK <==> authLater.makeJWT(logIn.payload.user.id).Some?)
      && (refresh.status == StatusOK ==> refresh.payload == TokenBody(authLater.makeJWT(logIn.payload.user.id).value))
  {
    logIn := Handlers.LoginHandler(db, auth, Some(params), refreshToken, now, false, false);
    if logIn.status == StatusOK {
      assert db.refreshTokens[refreshToken.value].userId == logIn.payload.user.id;
    }
    refresh := Handlers.RefreshHandler(db, authLater, refreshToken, later, refreshLookupFault);
  }

  /** After a successful revocation the token is refused, at any instant,
      whether or not the refresh handler's token query fails. */
  method RevokeThenRefresh(db: Store, auth: Package, token: string, now: int, later: int, lookupFault: bool)
    returns (revoke: Response, refresh: Response)
    requires db.Valid()
    modifies db
    ensures db.Valid()
    ensures revoke.status == StatusNoContent
    ensures refresh == RespondWithError(StatusUnauthorized, MsgMissingToken)
  {
    revoke := Handlers.RevokeHandler(db, Some(token), now, false);
    refresh := Handlers.RefreshHandler(db, auth, Some(token), later, lookupFault);
  }

  /** Revoking twice is answered the same way both times and leaves the
      token revoked. */
  method RevokeTwice(db: Store, token: string, now: int, later: int)
    returns (first: Response, second: Response)
    requires db.Valid()
    modifies db
    ensures db.Valid()
    ensures first == second == Response(StatusNoContent, NoBody)
    ensures token in db.refreshTokens <==> token in old(db.refreshTokens)
    ensures token in db.refreshTokens ==> db.refreshTokens[token].revokedAt.Some?
  {
    first := Handlers.RevokeHandler(db, Some(token), now, false);
    second := Handlers.RevokeHandler(db, Some(token), later, false);
  }

  /** The access token a login returns lets its holder post, and the chirp
      is recorded under the user who logged in, provided minted tokens
      validate to their subject. */
  method LogInThenPostChirp(db: Store, auth: Package, params: Handlers.LoginParameters,
                            refreshToken: Option<string>, body: string, chirpId: Uuid, now: int,
                            lookupFault: bool)
    returns (logIn: Response, post: Response)
    requires db.Valid() && MintedTokensVerify(auth)
    modifies db
    ensures db.Valid()
    ensures logIn.status == StatusOK ==>
      && logIn.payload.AuthenticatedUser?
      && post.status != StatusUnauthorized
      && (post.status == StatusCreated ==>
            post.payload.ChirpBody? && post.payload.chirp.userId == logIn.payload.user.id)
  {
    logIn := Handlers.LoginHandler(db, auth, Some(params), refreshToken, now, lookupFault, false);
    var bearer := if logIn.payload.AuthenticatedUser? then Some(logIn.payload.token) else None;
    if logIn.status == StatusOK {
      assert auth.makeJWT(logIn.payload.user.id).Some?;
      assert auth.validateJWT(logIn.payload.token) == Some(logIn.payload.user.id);
    }
    post := Chirps.CreateChirpHandler(db, auth, bearer, Some(Chirps.ChirpParameters(body)), chirpId, now, false);
  }
}
