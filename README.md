# Chirpy in Dafny

A model of the request handling of Chirpy, a small social-post service written
in Go. Users sign up, log in and get a short-lived access token (a JWT) plus a
long-lived refresh token. They post short "chirps", list and read them, and
delete their own. A payment webhook upgrades users to "Chirpy Red".

Two parts of the service are modelled:

- **The profanity filter** `cleanBody` (clean_body.go). It splits a chirp on
  white space. It replaces every word whose lower-case form is `kerfuffle`,
  `sharbert` or `fornax` with `****`. It then joins the words with single
  spaces. `Strings` models the pieces of Go's `strings` and `unicode`
  packages that it uses: `Fields`, `Join`, `ToLower`, `unicode.IsSpace`, and
  `len` as a count of UTF-8 bytes. `CleanBody.CleanBody` is the in-place
  loop. `CleanBody.Clean` is the function that specifies it. The lemmas prove:
  - a round-trip between `Fields` and `Join`;
  - the word-by-word result;
  - the layout of the output;
  - that no profane word survives;
  - idempotence.
- **The HTTP handlers** (chirps.go, handlers.go, users.go, webhooks.go). Each
  handler is a method that runs the source's chain of early-return checks
  against a `Database.Store`. It returns a `Responses.Response`: a status code
  and a payload that stands for the JSON written. Every contract spells out
  each branch and the order of the checks. It gives the new store on success
  and says the store is unchanged on every failure. The `Scenarios` module
  runs handlers in sequence. It shows what the contracts give a caller, for
  example that a revoked refresh token is refused at any later instant.

Modules: `Wrappers` (Option), `Strings`, `CleanBody`, `Auth`, `Database`,
`Responses`, `Chirps`, `Handlers`, `Users`, `Webhooks`, `Scenarios`.

### Collaborators given as inputs

- `internal/auth` is not part of this model. A handler receives its answers as
  a `Auth.Package` value: `validateJWT`, `makeJWT`, `hashPassword` and
  `checkPasswordHash`, as they answer during that request. The outcomes of
  `GetBearerToken` and `MakeRefreshToken` are `Option` parameters.
  `HashesVerify` and `MintedTokensVerify` state what the scenarios assume of
  the package.
- `uuid.Parse` is a partial function parameter `parse: string -> Option<Uuid>`.
- A JSON body arrives already decoded. `None` stands for a decoding error.
- `time.Now()` and SQL `NOW()` are the `now` parameter. The id the database
  gives a new row is the `newId` parameter.
- The sqlc queries of `internal/database` are not part of this model. Each
  query method of `Database.Store` implements the semantics the handlers
  assume, and its contract states them:
  - `CreateUser` fails on a taken id or a taken email. Emails are unique,
    kept by `emailIndex`.
  - `UpdateUser` fails when the user is missing or the email belongs to
    someone else.
  - `UpgradeUserToChirpyRed` fails when the user is missing (the query
    returns the updated row).
  - `CreateChirp` appends to the table.
  - `DeleteChirpByID` removes that chirp only. The other chirps keep their
    order (`RemoveChirp`).
  - `CreateRefreshToken` stores an unrevoked token that expires after
    `RefreshTokenLifetime`. The handler passes only the token and the user
    id (handlers.go:56), so the expiry is set by the insert query, whose SQL
    is not shown. The 60 days used here are assumed, taken from the intended
    rules for refresh tokens. The shown code does not fix the figure.
  - `RevokeRefreshToken` stamps `revokedAt` and `updatedAt` of that token if it
    exists. An unknown token is not an error. The query's SQL is not shown.
    It is assumed to overwrite an earlier stamp.
  - A failure the state does not explain is the `fault` input. The read
    queries `GetUserByEmail`, `GetChirpByID` and `GetRefreshTokenByToken`
    take one too. On a fault they return no row, because every handler
    treats a read error exactly like a missing row. The handlers pass it on
    as `lookupFault`.
  - The contracts of the write queries are stated with the plain lookups
    `UserWithEmail` and `ChirpWithId`, which cannot fail.
- The chirps table is a sequence, not a map, so that `GetChips` has an order.
  `Valid()` requires the chirp ids in it to be distinct.

### Where the intended rules and the code differ

The service's intended rules for tokens and errors differ from its code in
the places below. The code is followed in each case:

- The intended refresh-token rule accepts a token only while
  `now < expires-at`. The code refuses a token only when its expiry is
  strictly *before* now (handlers.go:79). So a token at its exact expiry
  instant is still accepted (`Handlers.UsableUntilExpiry`).
- Every authentication failure is meant to reach the client as one generic
  401. The code sends "Missing or malformed token" for a missing header
  (chirps.go:24) and "Invalid or expired token" for a bad token
  (chirps.go:30). The same split appears in users.go.
- Revocation is meant to set revoked-at only once. `revokeHandler` does not
  check for an earlier revocation before it calls the query (handlers.go:102).
  The query's SQL is not shown. The assumed `RevokeRefreshToken` overwrites an
  earlier stamp with the new instant. A query that keeps an existing stamp
  would meet the intended rule.
- Revocation is meant never to fail visibly. `revokeHandler` answers 500
  when the store reports an error (handlers.go:103-106).
- A storage failure is meant to give 500. A failed read gives the same
  answer as a missing row: 404 for a chirp, 401 for a user or a refresh
  token.
- A JSON decoding error gives 500, not 400, in every handler.
- `revokeHandler` returns 204 whenever the store reports no error, including
  for an unknown token.

## Model

| member | source | states |
|---|---|---|
| `CleanBody.CleanBody` | clean_body.go:5-13 | the loop that overwrites profane words of the `strings.Fields` slice and joins it returns exactly `Clean(body)` |
| `CleanBody.CleanWordByWord` | clean_body.go:6-12 | the words of the output are the input's words one for one: same number, same positions, a word becomes `****` iff its lower case is a banned word, and is otherwise kept verbatim with its case |
| `CleanBody.NoProfanitySurvives` | clean_body.go:7-12 | no word of the output is profane, in any letter case |
| `CleanBody.CleanLayout` | clean_body.go:6-12 | the output is empty iff the input is all white space; otherwise it has no leading or trailing space, and every space in it is one `' '` between two non-space runes |
| `CleanBody.CleanIdempotent` | clean_body.go:6-12 | cleaning twice gives the same text as cleaning once |
| `CleanBody.CensorAllWords` | clean_body.go:7-11 | the replacement keeps every word a word and leaves no profane word |
| `CleanBody.MaskIsNotProfane` | clean_body.go:9 | `****` is a word and not itself profane |
| `CleanBody.CensorExamples` | clean_body.go:8-9 | `KerFuffle`, `SHARBERT` and a Kelvin-sign `Kerfuffle` are censored; `kerfuffle!` and `fornaxes` are not |
| `CleanBody.IsProfane` | clean_body.go:8 | a profane word is a single space-free word of 6, 8 or 9 runes |
| `CleanBody.LowerLettersAreNotSpaces` | clean_body.go:8 | a word whose lower case is a banned word contains no white space |
| `Strings.IsSpace` | clean_body.go:6 | in ASCII the spaces are `' '` and tab through carriage return; every other space is a code point from U+0085 to U+3000 |
| `Strings.Join` | clean_body.go:12 | the joined text is as long as the words plus one separator between each pair of neighbours, and starts with the first word |
| `Strings.LowerRune` | clean_body.go:8 | the lower case of a rune is an ASCII letter exactly for ASCII letters, U+212A and U+0130 |
| `Strings.ToLower` | clean_body.go:8 | lower-casing keeps the number of runes |
| `Strings.WordLen` | clean_body.go:6 | the result is the length of the longest space-free prefix: all runes before it are non-space, the rune at it is a space |
| `Strings.Fields` | clean_body.go:6 | every element returned by `strings.Fields` is a non-empty run without white space |
| `Strings.WordLenOfWord` | clean_body.go:6 | a word followed by nothing or a space is measured exactly |
| `Strings.FieldsOfJoin` | clean_body.go:6-12 | splitting a single-space join of words gives back exactly those words |
| `Strings.JoinLayout` | clean_body.go:12 | a single-space join of words is empty iff there are no words, has no leading or trailing space and only single spaces between non-space runes |
| `Strings.FieldsEmpty` | clean_body.go:6 | `Fields` returns no word iff every rune is white space |
| `Strings.FieldsKeepsEveryRune` | clean_body.go:6 | the words of `Fields`, concatenated, are the non-space runes of the input in order |
| `Strings.DropSpaces` | clean_body.go:6 | the result holds no white space |
| `Strings.RuneLen` | chirps.go:50 | a rune takes one to four UTF-8 bytes |
| `Strings.Utf8Length` | chirps.go:50 | Go's `len` counts bytes: between one and four per rune, exactly one per rune for ASCII text |
| `Strings.Utf8LengthOfRepeat` | chirps.go:50 | `n` copies of a rune are `n` times its UTF-8 width long |
| `Chirps.LengthCountsBytes` | chirps.go:49-53 | 140 ASCII runes are within the limit, but 71 copies of `é` (142 bytes) are over it although they are only 71 runes |
| `Database.IndexOfChirp` | chirps.go:91 | the position found is the first that holds a chirp with that id; when none is found, no chirp has that id |
| `Database.RemoveChirp` | chirps.go:131 | taking a chirp out keeps the ids distinct, keeps exactly the chirps with other ids, and shortens the table by one iff the id was present |
| `Database.Store.UserWithEmail` | handlers.go:32 | the user returned is stored under its id and has that email; it is the one user with that email; none only when no user has it |
| `Database.Store.ChirpWithId` | chirps.go:91 | the chirp returned is stored and has the requested id; none only when no stored chirp has it |
| `Database.Store.GetChirpByID` | chirps.go:91 | a chirp is returned only when the query does not fail, and it is stored with the requested id; no row means a failure or no such chirp |
| `Database.Store.GetUserByEmail` | handlers.go:32 | a user is returned only when the query does not fail, and it is the stored user with that email; no row means a failure or no such user |
| `Database.Store.GetRefreshTokenByToken` | handlers.go:78 | a record is returned iff the query does not fail and the token is stored, and it is the record stored under that token |
| `Database.Store.GetChips` | chirps.go:67 | every stored chirp in table order, or an error |
| `Database.Store.CreateChirp` | chirps.go:55 | assumed query: appends the chirp with its new id, the body and the owner, changes nothing on failure |
| `Database.Store.DeleteChirpByID` | chirps.go:131 | assumed query: removes the chirp with that id and no other, keeping the others in order |
| `Database.Store.CreateUser` | users.go:46 | assumed query: inserts the user with the given hash; fails on a taken id or email |
| `Database.Store.UpdateUser` | users.go:89 | assumed query: sets email, hash and updated_at of that user only |
| `Database.Store.UpgradeUserToChirpyRed` | webhooks.go:36 | assumed query: sets the flag of that user only, fails for an unknown id |
| `Database.Store.CreateRefreshToken` | handlers.go:56 | assumed query: stores an unrevoked token for the user, expiring `RefreshTokenLifetime` from now (assumed: 60 days; the shown code does not fix it) |
| `Database.Store.RevokeRefreshToken` | handlers.go:102 | assumed query: marks that token revoked, succeeds for an unknown token |
| `Chirps.CreateChirpHandler` | chirps.go:21-64 | 401 for a missing header, checked before the token; 401 for an invalid token; 500 for a bad body; 400 for more than 140 bytes (140 accepted); 201 exactly when all checks pass and the insert succeeds, storing `Clean(body)` under the token's subject; nothing stored on any failure |
| `Chirps.ListChirpsHandler` | chirps.go:66-81 | the response lists every stored chirp once, in the store's order; 500 on a store error |
| `Chirps.GetChirpHandler` | chirps.go:83-98 | 404 for an unparsable id, a missing chirp or a failed query; 200 iff the query works and a chirp with that id is stored, and then the chirp returned is that one |
| `Chirps.DeleteChirpHandler` | chirps.go:100-138 | checks in order 401 (header, token), 404 (id, chirp or failed lookup), 403 (not the author), 500; only the 204 path removes the chirp, and it removes that chirp only, keeping the others in order |
| `Handlers.RefreshTokenUsable` | handlers.go:79 | a token is usable iff it is stored, not revoked, and `now` is not after its expiry |
| `Handlers.UsableUntilExpiry` | handlers.go:79 | a usable token is usable at every earlier instant and at its expiry instant, and refused one second after it |
| `Handlers.FreshTokenLifetime` | handlers.go:56 | a token stored by the assumed insert at `now` is usable at a later instant iff at most the assumed lifetime has passed (assumed: 60 days; the shown code does not fix it) |
| `Handlers.LoginHandler` | handlers.go:18-65 | an unknown email, a failed user lookup and a wrong password give the same 401 and message; no token is returned or stored unless the password check passed; on 200 the refresh token stored for the user is the one returned; a failed insert gives 500 and no tokens |
| `Handlers.RefreshHandler` | handlers.go:67-93 | 401 for a missing header or a failed lookup; 200 iff the lookup works, the token is stored, not revoked and not expired before now (the expiry instant itself is accepted) and minting succeeds; the access token is minted for the record's owner; the store is only read |
| `Handlers.RevokeHandler` | handlers.go:95-109 | 401 for a missing header with nothing changed; otherwise 204 unless the store fails (500); the token, if stored, is revoked and then refused at every instant, whatever the lookup's outcome |
| `Users.CreateUsersHandler` | users.go:26-55 | 500 for a bad body or a hashing failure, with no user created; on 201 the stored user holds the hasher's output, not the password, and the response holds only id, timestamps and email |
| `Users.UpdateUserHandler` | users.go:57-98 | 401 with nothing changed for a missing header or an invalid token; on 200 only the token's subject is changed, getting the new email and a fresh hash; the response holds no hash |
| `Webhooks.WebhooksHandler` | webhooks.go:10-43 | 500 for a bad body first; any other event gets 204 and changes nothing, whatever its user id; an unparsable id gives 404; otherwise the user with that id alone is upgraded (204) or the store fails (500) |
| `Scenarios.SignUpThenLogIn` | handlers.go:32-42 | after a successful sign-up, logging in with the same email and password is not refused as unauthorised, unless the user lookup fails |
| `Scenarios.LogInThenRefresh` | handlers.go:78-92 | the refresh token from a successful login is accepted within its lifetime, when the lookup works, and mints tokens for the user who logged in |
| `Scenarios.RevokeThenRefresh` | handlers.go:102-108 | after a revoke, refreshing with that token gets 401 |
| `Auth.Authenticate` | chirps.go:22-32 | a user id comes out iff a bearer token was found and it validates, and then it is the token's subject |
| `Auth.MintedTokenAuthenticates` | users.go:58-68 | a token minted for a user authenticates as that user, given that minted tokens validate |
| `Scenarios.RevokeTwice` | handlers.go:102-108 | revoking twice answers 204 both times and leaves the token revoked |
| `Scenarios.LogInThenPostChirp` | chirps.go:28-32 | the access token from a login is accepted by create-chirp, and the chirp is recorded under that user |

## Left out

- main.go: loading the environment, opening the database, registering routes
  and serving. The handlers are called directly as methods. main.go does not
  register the refresh, revoke, update, delete or webhook routes.
- `internal/auth`: bcrypt hashing, JWT signing and checking, and random
  refresh tokens. Their code is not part of this model. Access-token lifetime
  and its cap live there and are not modelled.
- `internal/database`: the SQL and the schema are not part of this model.
  The assumed semantics above replace them. A read query that fails takes
  the same branch in every handler as a missing row. It is modelled by the
  `fault` input of the three read queries, which then return no row.
- JSON encoding and decoding, `http.ResponseWriter`, headers, and the bodies
  of `respondWithJSON` and `respondWithError`. A response is a status code and
  an abstract payload.
- `Handlers.LoginHandler`: the login response carries the user's id,
  timestamps and email. handlers.go:63 also names an `IsChirpyRed` field that
  the `User` struct of users.go:13-18 does not have. That field is not
  modelled.
- `Strings.LowerRune`: non-ASCII runes other than U+212A and U+0130 are left
  unchanged instead of being Unicode lower-cased. Their lower case is
  non-ASCII too, so no comparison with the ASCII banned words can differ.
- Strings are sequences of Unicode scalar values. The UTF-8 encoding is
  represented only by its length (`Utf8Length`). JSON decoding always yields
  valid UTF-8, so each `char` is one Go rune.
- The `fileserverHits` counter, `middlewareMetricsInc`, `metricsHandler`,
  `resetHandler`: request counting and an admin reset. These are not part of
  the core.
- `readinessHandler`: it always answers 200.
- Concurrency: each handler runs to completion before the next starts.
