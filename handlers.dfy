/** The session handlers of handlers.go: log in, refresh, revoke. */
module Handlers {
  import opened Wrappers
  import opened Auth
  import opened Database
  import opened Responses

  /** The decoded JSON body of a login request. */
  datatype LoginParameters = LoginParameters(password: string, email: string)

  /** A refresh token may be exchanged for an access token when it is
      stored, has not been revoked, and its expiry is not before `now`. */
  predicate RefreshTokenUsable(token: Option<RefreshToken>, now: int): (r: bool)
    ensures r <==> token.Some? && token.value.revokedAt.None? && now <= token.value.expiresAt
  {
    && token.Some?
    && !(token.value.expiresAt < now)
    && token.value.revokedAt.None?
  }

  /** A usable token stays usable at every earlier instant, up to and
      including the instant it expires, and is refused one second later. */
  lemma UsableUntilExpiry(token: RefreshToken, now: int)
    requires RefreshTokenUsable(Some(token), now)
    ensures forall earlier :: earlier <= now ==> RefreshTokenUsable(Some(token), earlier)
    ensures RefreshTokenUsable(Some(token), token.expiresAt)
    ensures !RefreshTokenUsable(Some(token), token.expiresAt + 1)
  {
  }

  /** The token the assumed `CreateRefreshToken` stores at `now` is usable
      for exactly RefreshTokenLifetime seconds (an assumed 60 days). */
  lemma FreshTokenLifetime(token: string, userId: Uuid, now: int, later: int)
    ensures var t := RefreshToken(token, now, now, userId, now + RefreshTokenLifetime, None);
      now <= later ==> (RefreshTokenUsable(Some(t), later) <==> later - now <= 60 * 24 * 60 * 60)
  {
  }

  /** `loginHandler`. `refreshToken` is the outcome of
      `auth.MakeRefreshToken`, `now` the current instant; `lookupFault`
      says whether the user query fails, `fault` whether the insert does. */
  method LoginHandler(db: Store, auth: Package, params: Option<LoginParameters>,
                      refreshToken: Option<string>, now: int, lookupFault: bool, fault: bool)
    returns (resp: Response)
    requires db.Valid()
    modifies db
    ensures db.Valid()
    ensures params.None? ==> resp == RespondWithError(StatusInternalServerError, MsgCannotDecode)
    // an unknown email and a wrong password get the very same answer
    ensures params.Some? && old(db.GetUserByEmail(params.value.email, lookupFault)).None? ==>
      resp == RespondWithError(StatusUnauthorized, MsgBadCredentials)
    ensures (&& params.Some? && old(db.GetUserByEmail(params.value.email, lookupFault)).Some?
             && !auth.checkPasswordHash(params.value.password, old(db.GetUserByEmail(params.value.email, lookupFault)).value.hashedPassword)) ==>
      resp == RespondWithError(StatusUnauthorized, MsgBadCredentials)
    ensures (&& params.Some? && old(db.GetUserByEmail(params.value.email, lookupFault)).Some?
             && var user := old(db.GetUserByEmail(params.value.email, lookupFault)).value;
             && auth.checkPasswordHash(params.value.password, user.hashedPassword)
             && auth.makeJWT(user.id).None?) ==>
      resp == RespondWithError(StatusInternalServerError, "Couldn't create JWT token")
    ensures (&& params.Some? && old(db.GetUserByEmail(params.value.email, lookupFault)).Some?
             && var user := old(db.GetUserByEmail(params.value.email, lookupFault)).value;
             && auth.checkPasswordHash(params.value.password, user.hashedPassword)
             && auth.makeJWT(user.id).Some? && refreshToken.None?) ==>
      resp == RespondWithError(StatusInternalServerError, "Couldn't create refresh token")
    ensures (&& params.Some? && old(db.GetUserByEmail(params.value.email, lookupFault)).Some?
             && var user := old(db.GetUserByEmail(params.value.email, lookupFault)).value;
             && auth.checkPasswordHash(params.value.password, user.hashedPassword)
             && auth.makeJWT(user.id).Some? && refreshToken.Some?
             && (fault || refreshToken.value in old(db.refreshTokens))) ==>
      resp == RespondWithError(StatusInternalServerError, "Couldn't create refresh token in database")
    ensures resp.status == StatusOK <==>
      && params.Some? && old(db.GetUserByEmail(params.value.email, lookupFault)).Some?
      && var user := old(db.GetUserByEmail(params.value.email, lookupFault)).value;
      && auth.checkPasswordHash(params.value.password, user.hashedPassword)
      && auth.makeJWT(user.id).Some? && refreshToken.Some?
      && !fault && refreshToken.value !in old(db.refreshTokens)
    ensures resp.status == StatusOK ==>
      var user := old(db.GetUserByEmail(params.value.email, lookupFault)).value;
      && resp == Response(StatusOK, AuthenticatedUser(ViewOf(user), auth.makeJWT(user.id).value, refreshToken.value))
      && db.refreshTokens == old(db.refreshTokens)[refreshToken.value :=
           RefreshToken(refreshToken.value, now, now, user.id, now + RefreshTokenLifetime, None)]
      && db.users == old(db.users) && db.chirps == old(db.chirps)
    // no token leaves the handler and none is stored unless the login succeeds
    ensures resp.status != StatusOK ==> resp.payload.ErrorBody? && unchanged(db)
  {
    if params.None? {
      return RespondWithError(StatusInternalServerError, MsgCannotDecode);
    }
    var user := db.GetUserByEmail(params.value.email, lookupFault);
    if user.None? {
      return RespondWithError(StatusUnauthorized, MsgBadCredentials);
    }
    if !auth.checkPasswordHash(params.value.password, user.value.hashedPassword) {
      return RespondWithError(StatusUnauthorized, MsgBadCredentials);
    }
    var accessToken := auth.makeJWT(user.value.id);
    if accessToken.None? {
      return RespondWithError(StatusInternalServerError, "Couldn't create JWT token");
    }
    if refreshToken.None? {
      return RespondWithError(StatusInternalServerError, "Couldn't create refresh token");
    }
    var stored := db.CreateRefreshToken(refreshToken.value, user.value.id, now, fault);
    if stored.None? {
      return RespondWithError(StatusInternalServerError, "Couldn't create refresh token in database");
    }
    resp := Response(StatusOK, AuthenticatedUser(ViewOf(user.value), accessToken.value, refreshToken.value));
  }

  /** `refreshHandler`: exchanges a usable refresh token for an access
      token of its owner. It only reads the store. */
  method RefreshHandler(db: Store, auth: Package, bearer: Option<string>, now: int, lookupFault: bool)
    returns (resp: Response)
    requires db.Valid()
    ensures bearer.None? ==> resp == RespondWithError(StatusUnauthorized, MsgMissingToken)
    ensures bearer.Some? && !RefreshTokenUsable(db.GetRefreshTokenByToken(bearer.value, lookupFault), now) ==>
      resp == RespondWithError(StatusUnauthorized, MsgMissingToken)
    ensures (&& bearer.Some? && RefreshTokenUsable(db.GetRefreshTokenByToken(bearer.value, lookupFault), now)
             && auth.makeJWT(db.refreshTokens[bearer.value].userId).None?) ==>
      resp == RespondWithError(StatusInternalServerError, "Couldn't create JWT token")
    ensures resp.status == StatusOK <==>
      && bearer.Some? && RefreshTokenUsable(db.GetRefreshTokenByToken(bearer.value, lookupFault), now)
      && auth.makeJWT(db.refreshTokens[bearer.value].userId).Some?
    ensures resp.status == StatusOK ==>
      resp == Response(StatusOK, TokenBody(auth.makeJWT(db.refreshTokens[bearer.value].userId).value))
    ensures resp.status != StatusOK ==> resp.payload.ErrorBody?
  {
    if bearer.None? {
      return RespondWithError(StatusUnauthorized, MsgMissingToken);
    }
    var tokenString := bearer.value;
    var token := db.GetRefreshTokenByToken(tokenString, lookupFault);
    if token.None? || token.value.expiresAt < now || token.value.revokedAt.Some? {
      return RespondWithError(StatusUnauthorized, MsgMissingToken);
    }
    var jwtToken := auth.makeJWT(token.value.userId);
    if jwtToken.None? {
      return RespondWithError(StatusInternalServerError, "Couldn't create JWT token");
    }
    resp := Response(StatusOK, TokenBody(jwtToken.value));
  }

  /** `revokeHandler`: revokes whatever token is presented; it does not
      check that the token exists or is still live. */
  method RevokeHandler(db: Store, bearer: Option<string>, now: int, fault: bool)
    returns (resp: Response)
    requires db.Valid()
    modifies db
    ensures db.Valid()
    ensures bearer.None? ==> resp == RespondWithError(StatusUnauthorized, MsgMissingToken) && unchanged(db)
    ensures bearer.Some? && fault ==>
      resp == RespondWithError(StatusInternalServerError, "Couldn't revoke refresh token") && unchanged(db)
    ensures bearer.Some? && !fault ==>
      && resp == Response(StatusNoContent, NoBody)
      && db.refreshTokens == (if bearer.value in old(db.refreshTokens)
           then old(db.refreshTokens)[bearer.value := old(db.refreshTokens)[bearer.value].(revokedAt := Some(now), updatedAt := now)]
           else old(db.refreshTokens))
      && db.users == old(db.users) && db.chirps == old(db.chirps)
    // once revoked, the token is refused at every later instant
    ensures resp.status == StatusNoContent ==>
      forall later, lookupFault :: !RefreshTokenUsable(db.GetRefreshTokenByToken(bearer.value, lookupFault), later)
  {
    if bearer.None? {
      return RespondWithError(StatusUnauthorized, MsgMissingToken);
    }
    var tokenString := bearer.value;
    var ok := db.RevokeRefreshToken(tokenString, now, fault);
    if !ok {
      return RespondWithError(StatusInternalServerError, "Couldn't revoke refresh token");
    }
    resp := Response(StatusNoContent, NoBody);
  }
}
