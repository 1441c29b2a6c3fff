/** The chirp handlers of chirps.go. */
module Chirps {
  import opened Wrappers
  import opened Strings
  import opened Auth
  import opened Database
  import opened Responses
  import CleanBody

  /** Longest accepted chirp body, in bytes. */
  const MaxChirpLength := 140

  /** The limit is on bytes, not runes. */
  lemma LengthCountsBytes()
    ensures Utf8Length(seq(MaxChirpLength, _ => 'a')) <= MaxChirpLength
    ensures Utf8Length(seq(71, _ => '\U{00E9}')) > MaxChirpLength
  {
    Utf8LengthOfRepeat('\U{00E9}', 71);
  }

  /** The decoded JSON body of a create request. */
  datatype ChirpParameters = ChirpParameters(body: string)

  /** `createChirpHandler`. `bearer` is the outcome of `auth.GetBearerToken`,
      `params` that of decoding the JSON body, `newId` the id the store
      gives the new row and `now` the current instant. */
  method CreateChirpHandler(db: Store, auth: Package, bearer: Option<string>,
                            params: Option<ChirpParameters>, newId: Uuid, now: int, fault: bool)
    returns (resp: Response)
    requires db.Valid()
    modifies db
    ensures db.Valid()
    ensures bearer.None? ==> resp == RespondWithError(StatusUnauthorized, MsgMissingToken)
    ensures bearer.Some? && auth.validateJWT(bearer.value).None? ==>
      resp == RespondWithError(StatusUnauthorized, MsgInvalidToken)
    ensures Authenticate(auth, bearer).Some? && params.None? ==>
      resp == RespondWithError(StatusInternalServerError, MsgCannotDecode)
    ensures Authenticate(auth, bearer).Some? && params.Some? && Utf8Length(params.value.body) > MaxChirpLength ==>
      resp == RespondWithError(StatusBadRequest, "Chirp is too long")
    ensures (&& Authenticate(auth, bearer).Some? && params.Some?
             && Utf8Length(params.value.body) <= MaxChirpLength
             && (fault || old(db.ChirpWithId(newId)).Some?)) ==>
      resp == RespondWithError(StatusInternalServerError, "Couldn't create chirp")
    ensures resp.status == StatusCreated <==>
      && Authenticate(auth, bearer).Some? && params.Some?
      && Utf8Length(params.value.body) <= MaxChirpLength
      && !fault && old(db.ChirpWithId(newId)).None?
    ensures resp.status == StatusCreated ==>
      var chirp := Chirp(newId, now, now, CleanBody.Clean(params.value.body), Authenticate(auth, bearer).value);
      && resp == Response(StatusCreated, ChirpBody(chirp))
      && db.chirps == old(db.chirps) + [chirp]
      && db.users == old(db.users) && db.refreshTokens == old(db.refreshTokens)
    ensures resp.status != StatusCreated ==> unchanged(db)
  {
    if bearer.None? {
      return RespondWithError(StatusUnauthorized, MsgMissingToken);
    }
    var tokenString := bearer.value;
    var userId := auth.validateJWT(tokenString);
    if userId.None? {
      return RespondWithError(StatusUnauthorized, MsgInvalidToken);
    }
    if params.None? {
      return RespondWithError(StatusInternalServerError, MsgCannotDecode);
    }
    if Utf8Length(params.value.body) > MaxChirpLength {
      return RespondWithError(StatusBadRequest, "Chirp is too long");
    }
    var cleaned := CleanBody.CleanBody(params.value.body);
    var chirp := db.CreateChirp(newId, now, cleaned, userId.value, fault);
    if chirp.None? {
      return RespondWithError(StatusInternalServerError, "Couldn't create chirp");
    }
    resp := Response(StatusCreated, ChirpBody(chirp.value));
  }

  /** `listChirpsHandler`: copies the store's chirps into the response
      one by one. */
  method ListChirpsHandler(db: Store, fault: bool) returns (resp: Response)
    ensures fault ==> resp == RespondWithError(StatusInternalServerError, "Couldn't get chirps")
    ensures !fault ==> resp == Response(StatusOK, ChirpList(db.chirps))
  {
    var chirps := db.GetChips(fault);
    if chirps.None? {
      return RespondWithError(StatusInternalServerError, "Couldn't get chirps");
    }
    var response: seq<Chirp> := [];
    for i := 0 to |chirps.value|
      invariant response == chirps.value[..i]
    {
      response := response + [chirps.value[i]];
    }
    assert chirps.value[..|chirps.value|] == chirps.value;
    resp := Response(StatusOK, ChirpList(response));
  }

  /** `getChirpHandler`: `chirpID` is the path value, `parse` is `uuid.Parse`,
      `lookupFault` says whether the query fails. */
  method GetChirpHandler(db: Store, parse: UuidParser, chirpID: string, lookupFault: bool) returns (resp: Response)
    ensures parse(chirpID).None? ==> resp == RespondWithError(StatusNotFound, MsgChirpNotFound)
    ensures parse(chirpID).Some? ==>
      (resp.status == StatusOK <==>
        !lookupFault && exists k :: 0 <= k < |db.chirps| && db.chirps[k].id == parse(chirpID).value)
    ensures resp.status == StatusOK ==>
      resp.payload.ChirpBody? && resp.payload.chirp in db.chirps && resp.payload.chirp.id == parse(chirpID).value
    ensures resp.status != StatusOK ==> resp == RespondWithError(StatusNotFound, MsgChirpNotFound)
  {
    var chirpIDParsed := parse(chirpID);
    if chirpIDParsed.None? {
      return RespondWithError(StatusNotFound, MsgChirpNotFound);
    }
    var chirp := db.GetChirpByID(chirpIDParsed.value, lookupFault);
    if chirp.None? {
      return RespondWithError(StatusNotFound, MsgChirpNotFound);
    }
    resp := Response(StatusOK, ChirpBody(chirp.value));
  }

  /** `deleteChirpHandler`: only the chirp's author may delete it. */
  method DeleteChirpHandler(db: Store, auth: Package, bearer: Option<string>,
                            parse: UuidParser, chirpID: string, lookupFault: bool, fault: bool)
    returns (resp: Response)
    requires db.Valid()
    modifies db
    ensures db.Valid()
    ensures bearer.None? ==> resp == RespondWithError(StatusUnauthorized, MsgMissingToken)
    ensures bearer.Some? && auth.validateJWT(bearer.value).None? ==>
      resp == RespondWithError(StatusUnauthorized, MsgInvalidToken)
    ensures Authenticate(auth, bearer).Some? && parse(chirpID).None? ==>
      resp == RespondWithError(StatusNotFound, MsgChirpNotFound)
    ensures (&& Authenticate(auth, bearer).Some? && parse(chirpID).Some?
             && old(db.GetChirpByID(parse(chirpID).value, lookupFault)).None?) ==>
      resp == RespondWithError(StatusNotFound, MsgChirpNotFound)
    ensures (&& Authenticate(auth, bearer).Some? && parse(chirpID).Some?
             && old(db.GetChirpByID(parse(chirpID).value, lookupFault)).Some?
             && old(db.GetChirpByID(parse(chirpID).value, lookupFault)).value.userId != Authenticate(auth, bearer).value) ==>
      resp == RespondWithError(StatusForbidden, "You do not have permission to delete this chirp")
    ensures resp.status == StatusNoContent <==>
      && Authenticate(auth, bearer).Some? && parse(chirpID).Some?
      && old(db.GetChirpByID(parse(chirpID).value, lookupFault)).Some?
      && old(db.GetChirpByID(parse(chirpID).value, lookupFault)).value.userId == Authenticate(auth, bearer).value
      && !fault
    ensures (&& Authenticate(auth, bearer).Some? && parse(chirpID).Some?
             && old(db.GetChirpByID(parse(chirpID).value, lookupFault)).Some?
             && old(db.GetChirpByID(parse(chirpID).value, lookupFault)).value.userId == Authenticate(auth, bearer).value
             && fault) ==>
      resp == RespondWithError(StatusInternalServerError, "Couldn't delete chirp")
    ensures resp.status == StatusNoContent ==>
      var chirp := old(db.GetChirpByID(parse(chirpID).value, lookupFault)).value;
      && resp == Response(StatusNoContent, ChirpBody(chirp))
      && (forall c :: c in db.chirps <==> c in old(db.chirps) && c.id != chirp.id)
      && |db.chirps| == |old(db.chirps)| - 1
      && db.chirps == RemoveChirp(old(db.chirps), chirp.id)
      && db.users == old(db.users) && db.refreshTokens == old(db.refreshTokens)
    ensures resp.status != StatusNoContent ==> unchanged(db)
  {
    if bearer.None? {
      return RespondWithError(StatusUnauthorized, MsgMissingToken);
    }
    var tokenString := bearer.value;
    var userId := auth.validateJWT(tokenString);
    if userId.None? {
      return RespondWithError(StatusUnauthorized, MsgInvalidToken);
    }
    var chirpIDParsed := parse(chirpID);
    if chirpIDParsed.None? {
      return RespondWithError(StatusNotFound, MsgChirpNotFound);
    }
    var chirp := db.GetChirpByID(chirpIDParsed.value, lookupFault);
    if chirp.None? {
      return RespondWithError(StatusNotFound, MsgChirpNotFound);
    }
    if userId.value != chirp.value.userId {
      return RespondWithError(StatusForbidden, "You do not have permission to delete this chirp");
    }
    var ok := db.DeleteChirpByID(chirp.value.id, fault);
    if !ok {
      return RespondWithError(StatusInternalServerError, "Couldn't delete chirp");
    }
    resp := Response(StatusNoContent, ChirpBody(chirp.value));
  }
}
