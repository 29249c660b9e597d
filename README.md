# Task manager API: credential store, auth middleware and task store

A Dafny model of the core of a Go task-tracking HTTP service built on gin,
MongoDB, bcrypt and golang-jwt v4. The model covers three parts.

- **The in-memory credential store** (`data/user_service.go`). A map from
  user id to user plus a `nextUserID` counter. It is modelled as the class
  `UserService.UserStore`. Its invariant `StoreInvariant` says:
  - the ids are exactly `1 .. nextUserID-1`;
  - every user is stored under its own id;
  - usernames are unique;
  - every role is "admin" or "user";
  - user 1, the first one registered, is an admin.

  `CreateUser`, `PromoteToAdmin` and the constructor preserve the invariant.
  The read operations are proved against it.
- **The authentication middleware** (`middleware/auth_middleware.go`).
  - The pure decisions are functions: reading the secret and the token
    lifetime from the environment, building the claims, splitting the
    `Authorization` header, and the middleware's chain of rejections
    (`Authorize`) and the role check (`RoleCheck`).
  - The gin request context is the class `Middleware.Context`.
  - `AuthMiddleware` and `RoleGate` are methods that change it exactly as
    the decision says.
- **The task store** (`data/task_service.go`). The MongoDB collection is a
  map from a document's `_id` to its `Task`, held by `TaskService.TaskStore`.
  - `Update` is proved to set exactly the non-empty fields of the one
    matching task, on the map of `Task` values (BSON field naming is
    left out, see below).
  - It checks its errors in the source's order: invalid id, no fields,
    driver error, not found.

`Scenarios` strings the parts together:
- a registration round trip;
- the first-user bootstrap;
- the stale-token case: a token issued before a promotion is judged by the
  store's current role, because the middleware re-reads the user by id.

External libraries become parameters:
- bcrypt is a pair of functions `Bcrypt(generate, compare)`, with the
  random salt as an explicit argument;
- HS256 signing and `jwt.ParseWithClaims` are a `Signer` and a `Parser`;
- `primitive.ObjectIDFromHex` is a function field of the task store;
- a driver error is an optional `fault` argument;
- the environment is a `map<string, string>`;
- the clock is an integer `now` in Unix seconds.

`Authenticate` returns "user not found" for an unknown username and
"invalid credentials" only for a wrong password. The middleware always
rejects with 401 and the role gate always with 403.

The token lifetime is the one exception to modelling the code as written.
`Middleware.TokenFromUser` uses the corrected lifetime `TokenTtl` (see
"## Findings"). The code as written is `Middleware.TokenFromUserAsWritten`.
The two issue the same token whenever the hour count does not overflow.

## Model

| member | source | states |
|---|---|---|
| UserService.Promoted | data/user_service.go:98-101 | promotion changes only that user's role, to admin; every other user and every id stays |
| UserService.PromotedIdempotent | data/user_service.go:95-104 | promoting twice is the same as promoting once |
| UserService.PromotedKeepsInvariant | data/user_service.go:95-104 | promotion preserves the store invariant (ids, keys, unique names, valid roles, user 1 admin) |
| UserService.InsertKeepsUnique | data/user_service.go:29-33 | inserting a user whose name is not taken keeps usernames unique |
| UserService.InsertKeepsIds | data/user_service.go:48-55 | inserting under `nextUserID` and incrementing it keeps the ids exactly `1..nextUserID-1` |
| UserService.InsertKeepsKeyed | data/user_service.go:48-55 | a user inserted under its own id keeps every user keyed by its id |
| UserService.InsertKeepsRoles | data/user_service.go:42-45 | inserting a user with role admin or user keeps all roles valid |
| UserService.InsertKeepsInvariant | data/user_service.go:23-63 | a registration of a fresh name, as admin on an empty store, preserves the whole store invariant |
| UserService.IdsBelow | data/user_service.go:18 | the ids handed out so far are exactly `1..n-1`, `n-1` of them |
| UserService.StoreSize | data/user_service.go:43 | under the invariant the store holds `nextUserID-1` users, so it is empty exactly when the counter is 1 |
| UserService.StoredAppend | data/user_service.go:112-115 | appending a copy of a stored user keeps the listing made of stored users |
| UserService.DistinctAppend | data/user_service.go:112-115 | appending a user with a new id keeps the listing's ids distinct |
| UserService.CoversAppend | data/user_service.go:112-115 | appending the user of a visited key keeps every visited user listed |
| UserService.HasElement | data/user_service.go:29 | a non-empty set of keys has an element, which the map scans pick next (plumbing for the loops over map keys) |
| UserService.UserStore.constructor | data/user_service.go:15-19 | the store starts empty with counter 1, which satisfies the invariant |
| UserService.UserStore.CreateUser | data/user_service.go:23-63 | a taken name gives "username already exists", a hashing error is returned, in both cases with no change; otherwise the user gets id `nextUserID`, the hash, role admin exactly when the store was empty, and is the only addition; the counter grows by one; the invariant is kept |
| UserService.UserStore.UsernameTaken | data/user_service.go:29-33 | the scan reports true exactly when some stored user has that name |
| UserService.UserStore.Authenticate | data/user_service.go:64-78 | an unknown name gives "user not found"; for the user with that name, a matching password gives that user and a wrong one "invalid credentials" |
| UserService.UserStore.GetUserByID | data/user_service.go:82-91 | a present id gives the stored user, whose id is the one asked for; an absent one "user not found" |
| UserService.UserStore.PromoteToAdmin | data/user_service.go:95-104 | a present id becomes admin and nothing else changes, and the promoted user is returned; an absent id gives "user not found" with no change |
| UserService.UserStore.ListUsers | data/user_service.go:108-117 | the listing has one entry per stored user, every entry is a stored user under its own id, the ids are distinct and every stored user appears |
| Middleware.GetSecret | middleware/auth_middleware.go:24-29 | the secret is JWT_SECRET when set and non-empty, the placeholder otherwise, never empty |
| Middleware.TokenClaims | middleware/auth_middleware.go:32-42 | the claims carry the user's id, name and role, issued-at and not-before `now`, expiry `now + ttl` in whole seconds |
| Middleware.GenerateToken | middleware/auth_middleware.go:32-45 | signs the claims naming the user, issued and valid from `now`, expiring at `now + ttl` in seconds, with JWT_SECRET when it is set and the placeholder otherwise; `GeneratedTokenParses` is its round trip |
| Middleware.TokenClaimsWindow | middleware/auth_middleware.go:37-41 | claims issued with a lifetime of at least a second are valid exactly from `now` until just before the expiry |
| Middleware.Atoi | middleware/auth_middleware.go:123 | an accepted string is an optional sign followed only by decimal digits, at least one, and its value lies in the int64 range |
| Middleware.NatToDecimal | middleware/auth_middleware.go:123 | the decimal writing of a number is a non-empty digit string |
| Middleware.DecimalValueOfNat | middleware/auth_middleware.go:123 | reading back the decimal writing of a natural number gives that number |
| Middleware.AtoiItoa | middleware/auth_middleware.go:123 | Atoi reads back every int64 that Itoa writes |
| Middleware.WrapInt64 | middleware/auth_middleware.go:124 | two's-complement wrap-around lands in the int64 range, leaves in-range values alone and differs by a multiple of 2^64 |
| Middleware.TtlAsWritten | middleware/auth_middleware.go:120-126 | the lifetime as written is an int64 duration |
| Middleware.TtlAsWrittenOverflows | middleware/auth_middleware.go:124 | every hour count in (2562047, 5124095] makes the as-written lifetime `n*Hour - 2^64`, which is negative |
| Middleware.TtlJustPastMaxOverflows | middleware/auth_middleware.go:122-125 | JWT_TTL_HOURS set to 2562048 makes the as-written lifetime negative |
| Middleware.TokenFromUserAsWritten | middleware/auth_middleware.go:120-128 | the code as written: a 24-hour token unless JWT_TTL_HOURS parses as n > 0, then a token whose lifetime is n hours wrapped into int64 |
| Middleware.TokenFromUser | middleware/auth_middleware.go:120-128 | wherever the hour count does not overflow, the same token as the code as written; 24 hours when JWT_TTL_HOURS does not parse |
| Middleware.GeneratedTokenParses | middleware/auth_middleware.go:32-45 | what `GenerateToken` signs, the matching parser reads back as claims naming the user, valid exactly from `now` until `now + ttl` |
| Middleware.AsWrittenTokenExpiredAtIssue | middleware/auth_middleware.go:37-41 | with JWT_TTL_HOURS=2562048 the as-written claims are invalid at every moment from issuance on |
| Middleware.AsWrittenTokenAlwaysRejected | middleware/auth_middleware.go:62-68 | with JWT_TTL_HOURS=2562048 every token the code as written issues is rejected as "invalid token" from issuance on |
| Middleware.TokenTtl | middleware/auth_middleware.go:120-126 | the lifetime is positive and whole hours: n hours for a valid n that fits, 24 hours otherwise |
| Middleware.TokenTtlAgreesWithoutOverflow | middleware/auth_middleware.go:120-126 | wherever the product does not overflow the corrected lifetime equals the as-written one |
| Middleware.TokenFromUserLifetime | middleware/auth_middleware.go:120-128 | tokens identify the user, start at `now` and last at least an hour, exactly 24 hours when JWT_TTL_HOURS is unset |
| Middleware.ToLower | middleware/auth_middleware.go:56 | lowercasing keeps the length and lowercases every ASCII letter |
| Middleware.SplitFirst | middleware/auth_middleware.go:55 | `SplitN(s, " ", 2)` gives one part (the whole string) exactly when there is no space, else the text before the first space and the rest |
| Middleware.SplitFirstAt | middleware/auth_middleware.go:55 | a string split at a separator not in its first part splits back into those parts |
| Middleware.BearerSplit | middleware/auth_middleware.go:55-56 | a header "<6 chars that lowercase to bearer> <rest>" splits into exactly that scheme and rest |
| Middleware.BearerToken | middleware/auth_middleware.go:55-61 | a token is extracted exactly when the header is `bearer` in any case, one space, then the token, which is everything after that space |
| Middleware.Resolve | middleware/auth_middleware.go:62-82 | a request proceeds exactly when the token parses, is valid, has claims and its user id is in the store, and then as the store's user |
| Middleware.Authorize | middleware/auth_middleware.go:48-86 | every rejection is 401; each message occurs exactly at its step of the chain (missing header, invalid header, invalid token, invalid claims, user not found); acceptance yields the store's user for the claimed id |
| Middleware.RejectionsBeforeLookupIgnoreStore | middleware/auth_middleware.go:50-74 | every rejection before the user lookup does not depend on the store |
| Middleware.ResolveIgnoresClaimedRole | middleware/auth_middleware.go:77-83 | only the claimed id matters: tokens naming the same id with different roles give the same decision |
| Middleware.IssuedTokenAuthorizes | middleware/auth_middleware.go:32-86 | a login token sent as "Bearer <token>" lets the store's user through from issue to expiry, gives "user not found" if the user is gone, and "invalid token" from the expiry on |
| Middleware.Context.constructor | middleware/auth_middleware.go:50 | a request begins with its header, no stored values and not aborted |
| Middleware.GetCurrentUser | middleware/auth_middleware.go:110-117 | the current user is present exactly when one was stored under "currentUser", and is that value |
| Middleware.AuthMiddleware | middleware/auth_middleware.go:48-86 | the request is aborted with the decision's status and message, values untouched, or "currentUser" is set to the store's user and nothing else changes |
| Middleware.RoleCheck | middleware/auth_middleware.go:94-106 | a request passes exactly when a user is stored and its role is allowed; otherwise 403 "not authenticated" or "insufficient privileges" |
| Middleware.NoRolesAdmitsNobody | middleware/auth_middleware.go:89-93 | an empty role list refuses every request |
| Middleware.RequireRole | middleware/auth_middleware.go:89-93 | the allowed set holds exactly the listed roles |
| Middleware.RoleGate | middleware/auth_middleware.go:94-107 | the gate aborts with the role check's rejection or leaves the request as it was; stored values never change |
| TaskService.Patched | data/task_service.go:102-114 | every non-empty payload field replaces the stored one, every empty one keeps it, and the id stays |
| TaskService.ApplyUpdateSet | data/task_service.go:102-131 | `$set` of the selected fields is exactly `Patched` |
| TaskService.EmptyUpdateSet | data/task_service.go:102-118 | the update set is empty exactly when all four payload fields are empty |
| TaskService.PatchedIdempotent | data/task_service.go:102-114 | applying the same update twice is applying it once; an all-empty payload changes nothing |
| TaskService.BuildUpdateFields | data/task_service.go:102-114 | the update set names exactly the non-empty fields among title, description, dueDate, status, with the payload's values |
| TaskService.TaskStore.constructor | data/task_service.go:15-18 | the store holds the given collection and id parser |
| TaskService.TaskStore.GetByID | data/task_service.go:59-79 | an unparseable id gives "invalid id", a driver error is returned, a missing task gives "not found", otherwise exactly the stored task |
| TaskService.TaskStore.Create | data/task_service.go:82-93 | a driver error changes nothing; otherwise the given task is inserted under the fresh key and returned unchanged |
| TaskService.TaskStore.Update | data/task_service.go:96-137 | errors come in the order invalid id, no fields to update, driver error, not found, each with no change; otherwise only the matching task changes, to `Patched` |
| TaskService.TaskStore.Delete | data/task_service.go:140-158 | invalid id, driver error and not found change nothing; otherwise exactly that one task is removed |
| Scenarios.RegisterThenLogin | data/user_service.go:23-78 | registration fails exactly on a taken name or a hashing error; after a successful one, logging in with the same password gives the registered user |
| Scenarios.RegisterTwo | data/user_service.go:42-45 | the first user is admin with id 1, the second is user with id 2, and a repeated name is refused |
| Scenarios.AdminRequest | middleware/auth_middleware.go:48-107 | an admin-only route aborts with the middleware's rejection, or runs the role check on the user it stored |
| Scenarios.AdminRequestWithToken | middleware/auth_middleware.go:77-83 | a fresh token's request to an admin-only route is judged on the store's current role of its user |
| Scenarios.StaleTokenAfterPromotion | middleware/auth_middleware.go:77-105 | a token issued to an ordinary user is refused by the admin gate, and the same token passes after that user is promoted |

## Left out

- Concurrency: `usersMutex` and the per-request goroutines are not modelled; every operation is one atomic step.
- bcrypt's algorithm, cost and constant-time comparison are not modelled; hashing is the `Bcrypt` parameter and its salt an argument.
- JWT encoding, HS256 and signature checking are not modelled; signing and parsing are the `Signer` and `Parser` parameters, and `ParsesSigned` states what a matching pair must do.
- The clock: the source calls `time.Now` once per timestamp, the model uses one `now` in whole seconds for all three. The unused `time.Now()` in `CreateUser` is dropped.
- ToLower: lowercases ASCII letters only, which is all that deciding "bearer" needs; Unicode case mapping is not modelled.
- UserService.UserStore.CreateUser: `nextUserID` is an unbounded integer; overflow of Go's `int` after 2^63 users is not modelled.
- Middleware.TokenFromUser: uses the corrected lifetime `TokenTtl` of "## Findings"; `IssuedTokenAuthorizes`, `Scenarios.AdminRequestWithToken` and `Scenarios.StaleTokenAfterPromotion` hold for that corrected program, and for the code as written whenever JWT_TTL_HOURS does not overflow.
- Lines 118-183 of `data/user_service.go` repeat the declarations above them as a copy-paste artifact and are not modelled.
- Middleware.Context: holds only the values the middleware sets (users under "currentUser"), not gin's general `any` values or the response body; `c.Next` is the caller running the next handler only when the request was not aborted (as `Scenarios.AdminRequest` does).
- Middleware.Authorize: the "invalid token claims" branch is reachable only through the abstract parser; with the source's own `&Claims{}` the type assertion always succeeds.
- MongoDB I/O, contexts and timeouts, `InitMongo` and `GetAll` (`data/task_service.go:20-57`) are not modelled; a driver failure is the `fault` argument.
- UserService.UserStore.CreateUser: the source returns the stored `*User` itself from `CreateUser` and `Authenticate`, and copies from `GetUserByID`, `PromoteToAdmin` and `ListUsers`; the model returns values, so the alias between a returned user and the stored one is not captured (nothing in the core writes through it).
- TaskService.TaskStore.Update: the `$set` writes the key "dueDate", while the driver's default codec stores `Task.DueDate` under "duedate"; the model treats both as the one field, so what a document holds after a due-date update, and what `GetByID` then decodes, is not captured.
- TaskService.TaskStore.Create: the `_id` the driver generates is the `key` argument, required to be unused. The BSON field names the driver derives from the `Task` struct are not modelled, so the store is a map of `Task` values.
- `primitive.ObjectIDFromHex` is not modelled; it is the `objectIdFromHex` parameter of the task store.
- `controllers/task_controller.go`, `router/router.go` and `main.go` (HTTP binding, routes, status mapping) are not modelled; the controllers' `mongo.ErrNoDocuments` checks never match the data layer's "not found" and so are dead.

## Findings

| source | as written | input that shows it | evidently intended | confidence | as-written member | corrected member |
|---|---|---|---|---|---|---|
| middleware/auth_middleware.go:122-125 | `time.Duration(n) * time.Hour` for any `n > 0` that `strconv.Atoi` accepts; the int64 product wraps around for `n > 2562047` | `JWT_TTL_HOURS=2562048` gives a lifetime of -9223371273709551616 ns, so every token is issued already expired and every login token is rejected as "invalid token" | a positive lifetime of `n` hours whenever one fits, the 24-hour default otherwise | medium, not executed | Middleware.AsWrittenTokenAlwaysRejected | Middleware.TokenTtl |
