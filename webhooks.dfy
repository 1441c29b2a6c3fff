/** The payment provider's webhook of webhooks.go. */
module Webhooks {
  import opened Wrappers
  import opened Auth
  import opened Database
  import opened Responses

  const UpgradeEvent := "user.upgraded"

  /** The decoded JSON body: the event name and `data.user_id`. */
  datatype WebhookParameters = WebhookParameters(event: string, userId: string)

  /** `webhooksHandler`: upgrades the named user on a "user.upgraded"
      event and acknowledges every other event without acting on it. */
  method WebhooksHandler(db: Store, parse: UuidParser, params: Option<WebhookParameters>,
                         now: int, fault: bool)
    returns (resp: Response)
    requires db.Valid()
    modifies db
    ensures db.Valid()
    ensures params.None? ==> resp == RespondWithError(StatusInternalServerError, MsgCannotDecode)
    // the event is looked at before the user id, so any id goes with another event
    ensures params.Some? && params.value.event != UpgradeEvent ==>
      resp == Response(StatusNoContent, NoBody) && unchanged(db)
    ensures params.Some? && params.value.event == UpgradeEvent && parse(params.value.userId).None? ==>
      resp == RespondWithError(StatusNotFound, "Invalid user ID format")
    ensures (&& params.Some? && params.value.event == UpgradeEvent && parse(params.value.userId).Some?
             && (fault || parse(params.value.userId).value !in old(db.users))) ==>
      resp == RespondWithError(StatusInternalServerError, "Couldn't upgrade user")
    ensures (&& params.Some? && params.value.event == UpgradeEvent && parse(params.value.userId).Some?
             && !fault && parse(params.value.userId).value in old(db.users)) ==>
      var id := parse(params.value.userId).value;
      && resp == Response(StatusNoContent, NoBody)
      && db.users == old(db.users)[id := old(db.users)[id].(isChirpyRed := true, updatedAt := now)]
    ensures db.chirps == old(db.chirps) && db.refreshTokens == old(db.refreshTokens)
    ensures resp.status != StatusNoContent ==> unchanged(db)
  {
    if params.None? {
      return RespondWithError(StatusInternalServerError, MsgCannotDecode);
    }
    if params.value.event != UpgradeEvent {
      return Response(StatusNoContent, NoBody);
    }
    var userIDParsed := parse(params.value.userId);
    if userIDParsed.None? {
      return RespondWithError(StatusNotFound, "Invalid user ID format");
    }
    var ok := db.UpgradeUserToChirpyRed(userIDParsed.value, now, fault);
    if !ok {
      return RespondWithError(StatusInternalServerError, "Couldn't upgrade user");
    }
    resp := Response(StatusNoContent, NoBody);
  }
}
