/** The relational store behind the handlers, as an in-memory object. The
    sqlc queries of `internal/database` are not part of this model; each
    query method below implements the semantics the handlers assume of
    it, and its contract states that assumption. A store failure that the
    state does not explain (a lost connection, say) is the `fault` input. */
module Database {
  import opened Wrappers
  import opened Auth

  /** A row of the users table. Times are instants in seconds. */
  datatype User = User(id: Uuid, createdAt: int, updatedAt: int, email: string,
                       hashedPassword: string, isChirpyRed: bool)

  /** A row of the chirps table; also the `Chirp` the chirp handlers return. */
  datatype Chirp = Chirp(id: Uuid, createdAt: int, updatedAt: int, body: string, userId: Uuid)

  /** A row of the refresh_tokens table; `revokedAt` is NULL until revoked. */
  datatype RefreshToken = RefreshToken(token: string, createdAt: int, updatedAt: int, userId: Uuid,
                                       expiresAt: int, revokedAt: Option<int>)

  /** Lifetime the insert query is assumed to give a refresh token. The
      handler passes only the token and the user id, so the expiry is the
      query's own, and its SQL is not part of this model; 60 days is the
      lifetime the service intends, not a figure the shown code fixes. */
  const RefreshTokenLifetime: int := 60 * 24 * 60 * 60

  /** Position of the first chirp with this id, if any. */
  function IndexOfChirp(chirps: seq<Chirp>, id: Uuid): (r: Option<nat>)
    ensures r.Some? ==> r.value < |chirps| && chirps[r.value].id == id
    ensures r.Some? ==> forall j :: 0 <= j < r.value ==> chirps[j].id != id
    ensures r.None? ==> forall k :: 0 <= k < |chirps| ==> chirps[k].id != id
  {
    if chirps == [] then None
    else if chirps[0].id == id then Some(0)
    else match IndexOfChirp(chirps[1..], id)
      case None => None
      case Some(k) => Some(k + 1)
  }

  predicate DistinctIds(chirps: seq<Chirp>) {
    forall i, j :: 0 <= i < j < |chirps| ==> chirps[i].id != chirps[j].id
  }

  /** The table after `DELETE ... WHERE id = $1`: the chirp with this id
      taken out, every other chirp kept in its place in the order. */
  function RemoveChirp(chirps: seq<Chirp>, id: Uuid): (r: seq<Chirp>)
    ensures DistinctIds(chirps) ==> DistinctIds(r) && forall c :: c in r <==> c in chirps && c.id != id
    ensures |r| == |chirps| - (if IndexOfChirp(chirps, id).Some? then 1 else 0)
  {
    match IndexOfChirp(chirps, id)
    case None => chirps
    case Some(k) => chirps[..k] + chirps[k + 1..]
  }

  class Store {
    var users: map<Uuid, User>
    /** The unique index on users.email. */
    var emailIndex: map<string, Uuid>
    /** The chirps table, in the order `GetChips` returns it. */
    var chirps: seq<Chirp>
    var refreshTokens: map<string, RefreshToken>

    /** Keys are the rows' primary keys and the email index is exact. */
    ghost predicate Valid()
      reads this
    {
      && (forall id :: id in users ==> users[id].id == id)
      && (forall id :: id in users ==> users[id].email in emailIndex && emailIndex[users[id].email] == id)
      && (forall e :: e in emailIndex ==> emailIndex[e] in users && users[emailIndex[e]].email == e)
      && DistinctIds(chirps)
      && (forall t :: t in refreshTokens ==> refreshTokens[t].token == t)
    }

    constructor ()
      ensures Valid()
      ensures users == map[] && chirps == [] && refreshTokens == map[]
    {
      users, emailIndex, chirps, refreshTokens := map[], map[], [], map[];
    }

    /** The user whose email this is, if there is one. */
    function UserWithEmail(email: string): (r: Option<User>)
      reads this
      requires Valid()
      ensures r.Some? ==> r.value.id in users && users[r.value.id] == r.value && r.value.email == email
      ensures r.None? ==> forall id :: id in users ==> users[id].email != email
      ensures forall id :: id in users && users[id].email == email ==> r == Some(users[id])
    {
      if email in emailIndex then Some(users[emailIndex[email]]) else None
    }

    /** The chirp with this id, if there is one. */
    function ChirpWithId(id: Uuid): (r: Option<Chirp>)
      reads this
      ensures r.Some? ==> r.value in chirps && r.value.id == id
      ensures r.None? ==> forall k :: 0 <= k < |chirps| ==> chirps[k].id != id
    {
      match IndexOfChirp(chirps, id)
      case None => None
      case Some(k) => Some(chirps[k])
    }

    /** `GetUserByEmail`: the user with this email; no row when there is
        none or when the query fails (`fault`), which the caller cannot
        tell apart. */
    function GetUserByEmail(email: string, fault: bool): (r: Option<User>)
      reads this
      requires Valid()
      ensures r.Some? ==> !fault && r.value.id in users && users[r.value.id] == r.value && r.value.email == email
      ensures r.None? ==> fault || forall id :: id in users ==> users[id].email != email
      ensures !fault ==> forall id :: id in users && users[id].email == email ==> r == Some(users[id])
    {
      if fault then None else UserWithEmail(email)
    }

    /** `GetChirpByID`: the chirp with this id; no row when there is none
        or when the query fails. */
    function GetChirpByID(id: Uuid, fault: bool): (r: Option<Chirp>)
      reads this
      ensures r.Some? ==> !fault && r.value in chirps && r.value.id == id
      ensures r.None? ==> fault || forall k :: 0 <= k < |chirps| ==> chirps[k].id != id
    {
      if fault then None else ChirpWithId(id)
    }

    /** `GetRefreshTokenByToken`: the record stored under this token; no
        row when there is none or when the query fails. */
    function GetRefreshTokenByToken(token: string, fault: bool): (r: Option<RefreshToken>)
      reads this
      requires Valid()
      ensures r.Some? <==> !fault && token in refreshTokens
      ensures r.Some? ==> r.value == refreshTokens[token] && r.value.token == token
    {
      if fault || token !in refreshTokens then None else Some(refreshTokens[token])
    }

    /** `GetChips`: every chirp, in the table's order. */
    method GetChips(fault: bool) returns (r: Option<seq<Chirp>>)
      ensures r == if fault then None else Some(chirps)
    {
      r := if fault then None else Some(chirps);
    }

    /** `CreateUser`: inserts a user with a new id; fails on a taken id or
        email (primary key and unique email) or a fault. */
    method CreateUser(id: Uuid, now: int, email: string, hashedPassword: string, fault: bool)
      returns (r: Option<User>)
      requires Valid()
      modifies this
      ensures Valid()
      ensures r.Some? <==> !fault && id !in old(users) && old(UserWithEmail(email)).None?
      ensures r.Some? ==> r.value == User(id, now, now, email, hashedPassword, false)
                          && users == old(users)[id := r.value]
                          && chirps == old(chirps) && refreshTokens == old(refreshTokens)
      ensures r.None? ==> unchanged(this)
    {
      if fault || id in users || email in emailIndex {
        return None;
      }
      var u := User(id, now, now, email, hashedPassword, false);
      users := users[id := u];
      emailIndex := emailIndex[email := id];
      r := Some(u);
    }

    /** `UpdateUser`: sets the email, the hash and updated_at of the user
        with this id; fails when there is no such user, when the email
        belongs to another user, or on a fault. */
    method UpdateUser(id: Uuid, now: int, email: string, hashedPassword: string, fault: bool)
      returns (r: Option<User>)
      requires Valid()
      modifies this
      ensures Valid()
      ensures r.Some? <==> !fault && id in old(users)
                           && (old(UserWithEmail(email)).Some? ==> old(UserWithEmail(email)).value.id == id)
      ensures r.Some? ==> r.value == old(users)[id].(email := email, hashedPassword := hashedPassword, updatedAt := now)
                          && users == old(users)[id := r.value]
                          && chirps == old(chirps) && refreshTokens == old(refreshTokens)
      ensures r.None? ==> unchanged(this)
    {
      if fault || id !in users || (email in emailIndex && emailIndex[email] != id) {
        return None;
      }
      var u := users[id].(email := email, hashedPassword := hashedPassword, updatedAt := now);
      emailIndex := emailIndex - {users[id].email};
      emailIndex := emailIndex[email := id];
      users := users[id := u];
      r := Some(u);
    }

    /** `UpgradeUserToChirpyRed`: sets the flag (and updated_at) of the user
        with this id; fails when there is no such user or on a fault. */
    method UpgradeUserToChirpyRed(id: Uuid, now: int, fault: bool) returns (ok: bool)
      requires Valid()
      modifies this
      ensures Valid()
      ensures ok <==> !fault && id in old(users)
      ensures ok ==> users == old(users)[id := old(users)[id].(isChirpyRed := true, updatedAt := now)]
                     && chirps == old(chirps) && refreshTokens == old(refreshTokens)
      ensures !ok ==> unchanged(this)
    {
      if fault || id !in users {
        return false;
      }
      users := users[id := users[id].(isChirpyRed := true, updatedAt := now)];
      ok := true;
    }

    /** `CreateChirp`: appends a chirp with a new id; fails on a taken id
        or a fault. */
    method CreateChirp(id: Uuid, now: int, body: string, userId: Uuid, fault: bool)
      returns (r: Option<Chirp>)
      requires Valid()
      modifies this
      ensures Valid()
      ensures r.Some? <==> !fault && old(ChirpWithId(id)).None?
      ensures r.Some? ==> r.value == Chirp(id, now, now, body, userId)
                          && chirps == old(chirps) + [r.value]
                          && users == old(users) && refreshTokens == old(refreshTokens)
      ensures r.None? ==> unchanged(this)
    {
      if fault || ChirpWithId(id).Some? {
        return None;
      }
      var c := Chirp(id, now, now, body, userId);
      chirps := chirps + [c];
      r := Some(c);
    }

    /** `DeleteChirpByID`: removes the chirp with this id, and nothing else. */
    method DeleteChirpByID(id: Uuid, fault: bool) returns (ok: bool)
      requires Valid()
      modifies this
      ensures Valid()
      ensures ok == !fault
      ensures ok ==> (forall c :: c in chirps <==> c in old(chirps) && c.id != id)
                     && |chirps| == |old(chirps)| - (if old(ChirpWithId(id)).Some? then 1 else 0)
                     && users == old(users) && refreshTokens == old(refreshTokens)
      ensures ok ==> chirps == RemoveChirp(old(chirps), id)
      ensures !ok ==> unchanged(this)
    {
      if fault {
        return false;
      }
      var k := IndexOfChirp(chirps, id);
      if k.Some? {
        chirps := chirps[..k.value] + chirps[k.value + 1..];
      }
      ok := true;
    }

    /** `CreateRefreshToken`: stores an unrevoked token that expires
        RefreshTokenLifetime from now; fails on a taken token or a fault. */
    method CreateRefreshToken(token: string, userId: Uuid, now: int, fault: bool)
      returns (r: Option<RefreshToken>)
      requires Valid()
      modifies this
      ensures Valid()
      ensures r.Some? <==> !fault && token !in old(refreshTokens)
      ensures r.Some? ==> r.value == RefreshToken(token, now, now, userId, now + RefreshTokenLifetime, None)
                          && refreshTokens == old(refreshTokens)[token := r.value]
                          && users == old(users) && chirps == old(chirps)
      ensures r.None? ==> unchanged(this)
    {
      if fault || token in refreshTokens {
        return None;
      }
      var t := RefreshToken(token, now, now, userId, now + RefreshTokenLifetime, None);
      refreshTokens := refreshTokens[token := t];
      r := Some(t);
    }

    /** `RevokeRefreshToken`: stamps revoked_at and updated_at of this token,
        if it is stored; an unknown token is not an error. An earlier stamp
        is assumed to be overwritten: the query's SQL is not part of this model. */
    method RevokeRefreshToken(token: string, now: int, fault: bool) returns (ok: bool)
      requires Valid()
      modifies this
      ensures Valid()
      ensures ok == !fault
      ensures ok ==> refreshTokens == (if token in old(refreshTokens)
                       then old(refreshTokens)[token := old(refreshTokens)[token].(revokedAt := Some(now), updatedAt := now)]
                       else old(refreshTokens))
                     && users == old(users) && chirps == old(chirps)
      ensures !ok ==> unchanged(this)
    {
      if fault {
        return false;
      }
      if token in refreshTokens {
        refreshTokens := refreshTokens[token := refreshTokens[token].(revokedAt := Some(now), updatedAt := now)];
      }
      ok := true;
    }
  }
}
