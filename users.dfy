/** The user handlers of users.go: sign up and change credentials. */
module Users {
  import opened Wrappers
  import opened Auth
  import opened Database
  import opened Responses

  /** The decoded JSON body of a create or update request. */
  datatype UserParameters = UserParameters(password: string, email: string)

  /** `createUsersHandler`: stores the hash of the password, never the
      password itself, and answers with the user's public fields.
      `newId` is the id the store gives the new row. */
  method CreateUsersHandler(db: Store, auth: Package, params: Option<UserParameters>,
                            newId: Uuid, now: int, fault: bool)
    returns (resp: Response)
    requires db.Valid()
    modifies db
    ensures db.Valid()
    ensures params.None? ==> resp == RespondWithError(StatusInternalServerError, MsgCannotDecode)
    ensures params.Some? && auth.hashPassword(params.value.password).None? ==>
      resp == RespondWithError(StatusInternalServerError, MsgCannotHash)
    ensures (&& params.Some? && auth.hashPassword(params.value.password).Some?
             && (fault || newId in old(db.users) || old(db.UserWithEmail(params.value.email)).Some?)) ==>
      resp == RespondWithError(StatusInternalServerError, "Couldn't create user")
    ensures resp.status == StatusCreated <==>
      && params.Some? && auth.hashPassword(params.value.password).Some?
      && !fault && newId !in old(db.users) && old(db.UserWithEmail(params.value.email)).None?
    ensures resp.status == StatusCreated ==>
      var user := User(newId, now, now, params.value.email, auth.hashPassword(params.value.password).value, false);
      && resp == Response(StatusCreated, UserBody(UserView(newId, now, now, params.value.email)))
      && db.users == old(db.users)[newId := user]
      && db.chirps == old(db.chirps) && db.refreshTokens == old(db.refreshTokens)
    ensures resp.status != StatusCreated ==> resp.payload.ErrorBody? && unchanged(db)
  {
    if params.None? {
      return RespondWithError(StatusInternalServerError, MsgCannotDecode);
    }
    var hashedPassword := auth.hashPassword(params.value.password);
    if hashedPassword.None? {
      return RespondWithError(StatusInternalServerError, MsgCannotHash);
    }
    var user := db.CreateUser(newId, now, params.value.email, hashedPassword.value, fault);
    if user.None? {
      return RespondWithError(StatusInternalServerError, "Couldn't create user");
    }
    resp := Response(StatusCreated, UserBody(ViewOf(user.value)));
  }

  /** `updateUserHandler`: changes the email and password of the user the
      access token names, and of no one else. */
  method UpdateUserHandler(db: Store, auth: Package, bearer: Option<string>,
                           params: Option<UserParameters>, now: int, fault: bool)
    returns (resp: Response)
    requires db.Valid()
    modifies db
    ensures db.Valid()
    ensures bearer.None? ==> resp == RespondWithError(StatusUnauthorized, MsgMissingToken)
    ensures bearer.Some? && auth.validateJWT(bearer.value).None? ==>
      resp == RespondWithError(StatusUnauthorized, MsgInvalidToken)
    ensures Authenticate(auth, bearer).Some? && params.None? ==>
      resp == RespondWithError(StatusInternalServerError, MsgCannotDecode)
    ensures Authenticate(auth, bearer).Some? && params.Some? && auth.hashPassword(params.value.password).None? ==>
      resp == RespondWithError(StatusInternalServerError, MsgCannotHash)
    ensures resp.status == StatusOK <==>
      && Authenticate(auth, bearer).Some? && params.Some? && auth.hashPassword(params.value.password).Some?
      && !fault && Authenticate(auth, bearer).value in old(db.users)
      && (old(db.UserWithEmail(params.value.email)).Some? ==>
            old(db.UserWithEmail(params.value.email)).value.id == Authenticate(auth, bearer).value)
    ensures (&& Authenticate(auth, bearer).Some? && params.Some? && auth.hashPassword(params.value.password).Some?
             && resp.status != StatusOK) ==>
      resp == RespondWithError(StatusInternalServerError, "Couldn't update user")
    ensures resp.status == StatusOK ==>
      var id := Authenticate(auth, bearer).value;
      var user := old(db.users)[id].(email := params.value.email,
                                     hashedPassword := auth.hashPassword(params.value.password).value,
                                     updatedAt := now);
      && resp == Response(StatusOK, UserBody(ViewOf(user)))
      && db.users == old(db.users)[id := user]
      && db.chirps == old(db.chirps) && db.refreshTokens == old(db.refreshTokens)
    ensures resp.status != StatusOK ==> resp.payload.ErrorBody? && unchanged(db)
  {
    if bearer.None? {
      return RespondWithError(StatusUnauthorized, MsgMissingToken);
    }
    var tokenString := bearer.value;
    var userId := auth.validateJWT(tokenString);
    if userId.None? {
      return RespondWithError(StatusUnauthorized, MsgInvalidToken);
    }
    if params.None? {
      return RespondWithError(StatusInternalServerError, MsgCannotDecode);
    }
    var hashedPassword := auth.hashPassword(params.value.password);
    if hashedPassword.None? {
      return RespondWithError(StatusInternalServerError, MsgCannotHash);
    }
    var user := db.UpdateUser(userId.value, now, params.value.email, hashedPassword.value, fault);
    if user.None? {
      return RespondWithError(StatusInternalServerError, "Couldn't update user");
    }
    resp := Response(StatusOK, UserBody(ViewOf(user.value)));
  }
}
