# auth-chat-api in Dafny

A model of the decision logic of a small authenticated API, with proofs about it. The API covers:
- user signup and login, which issue bearer access tokens;
- the bearer gate that protected routes run first;
- a per-user chat log, sorted into categories, which users add to and list.

The database, the password hasher and the JWT library become abstract
values and opaque functions:
- the user table is a map from user id to record;
- the log table is a sequence of rows;
- `pwd.hash`/`pwd.verify` are function fields of `Auth.Hasher`;
- `jwt.encode`/`jwt.decode` are function fields of `Security.Codec`.

Everything the environment decides is passed in as a parameter:
- the wall clock (`now: real`, seconds since the epoch);
- the database clock (`dbNow: int`);
- the random salt;
- the id and column defaults the database produces, and whether an insert fails.

Files, one module each:

- `results.dfy` (`Results`): `Option`, and `Result` with its `Failure`. A failure is either an HTTP error
  raised on purpose, with its status and detail, or an exception no handler catches.
- `security.dfy` (`Security`, pure functions and lemmas only, since the source module keeps no state):
  - the configuration constants (`HS256`, 120 minutes, `ROLE_USER`);
  - the claims of an issued token (the registered claims `sub`, `iat` and `exp` of section 4.1 of RFC 7519,
    plus a private `role` claim) and the truncation of timestamps to whole seconds;
  - `Identify`, which turns a decoded payload into an identity;
  - `CurrentUser`, the bearer gate of section 2.1 of RFC 6750.

  `Ideal(codec)` says what a sound JWT library does: it decodes exactly what it encoded, only under the same key,
  only for an accepted algorithm, and only before expiry. The round-trip and rejection lemmas take `Ideal` as
  their assumption.
- `auth.dfy` (`Auth`, a stateful class plus the pure step functions that specify its methods):
  - the class `UserDirectory`, whose `users` map is updated in place by `Signup` and `Login`;
  - `Me`, a read-only lookup and projection;
  - the functions `SignupStep` and `LoginStep`, which give each transition as a value: the answer and the
    new table. Each method is proved equal to its function, and the properties of signup and login are
    proved about the functions.
- `chat.dfy` (`Chat`, a stateful class, an in-place array reversal, and pure functions that specify them):
  - the class `LogStore`, whose `AddLog` appends in place;
  - `ListLogs`, which runs the query (newest first, cut at `limit`, 200 when the caller gives none) and then
    reverses the result in place (`ReverseInPlace`);
  - `Newest`, the reference meaning of a listing: the last `limit` matching rows, in store order. `ListLogs`
    is proved to return exactly that.

Points of the code's behaviour worth knowing:
- A payload that is correctly signed but has no `sub` is not answered with 401. The `KeyError`
  escapes the gate, which catches only the JWT error (`Security.MissingSubEscapes`).
- A token is still accepted at its `exp` second: python-jose rejects it only once `exp < now`, and `Ideal`
  follows that check.
- Signup reports every insert failure as 409. That includes a clash on the generated id, not only a duplicate
  username.
- The status check after signup can answer 403 even though the row is already committed. The row stays.

## Model

| member | source | states |
|---|---|---|
| `Security.Seconds` | auth-chat-api/security.py:17-18 | `int()` of a timestamp truncates toward zero: within one second below a non-negative time, within one second above a negative one |
| `Security.SecondsShift` | auth-chat-api/security.py:17-18 | adding whole seconds to a non-negative clock shifts its truncation by the same amount |
| `Security.AccessClaims` | auth-chat-api/security.py:12-19 | issued claims carry `sub` = user id, `role` = role, `iat` = truncated clock; `exp = iat + 60 * ACCESS_MIN` for a non-negative clock and lifetime; extracting the identity from them gives back (user id, role) |
| `Security.MakeAccessToken` | auth-chat-api/security.py:12-20 | the token is `AccessClaims` signed with the configured secret under HS256: under a sound library the gate's decode yields exactly those claims at every clock up to `exp`, and nothing after |
| `Security.Identify` | auth-chat-api/security.py:27 | the identity exists exactly when `sub` is present; user id is `sub`; role is the claim's role, else `ROLE_USER`; a missing `sub` is an uncaught `KeyError` |
| `Security.Verify` | auth-chat-api/security.py:26 | decoding pins the configured secret and the single algorithm HS256: under a sound library a token yields its claims exactly when it was signed with that secret under HS256 and is unexpired |
| `Security.CurrentUser` | auth-chat-api/security.py:22-29 | no credential is 401 "missing token"; a decode failure is 401 "invalid token"; otherwise the identity of the decoded payload; every HTTP error it raises is 401; success needs a credential that decodes |
| `Security.IssuedTokenAccepted` | auth-chat-api/security.py:12-29 | under a sound library, a token issued for (user id, role) passes the gate as exactly that identity at every clock up to its `exp` |
| `Security.ExpiredTokenRejected` | auth-chat-api/security.py:12-29 | under a sound library, the same token is 401 "invalid token" once the clock is past `exp` |
| `Security.DefaultLifetime` | auth-chat-api/security.py:9-18 | with the default `ACCESS_MIN` of 120, a token issued at a non-negative clock passes the gate exactly while the clock is at most `iat + 7200` |
| `Security.ForeignKeyRejected` | auth-chat-api/security.py:25-29 | a token signed with any key other than the configured secret is 401 "invalid token", whatever its claims or algorithm |
| `Security.OtherAlgorithmRejected` | auth-chat-api/security.py:20-29 | the gate accepts only HS256: a token under any other algorithm is 401 "invalid token", even with the right key |
| `Security.MissingSubEscapes` | auth-chat-api/security.py:25-29 | a correctly signed, unexpired payload without `sub` ends in an uncaught `KeyError`, not a 401 |
| `Auth.FindByUsername` | auth-chat-api/auth.py:45-49 | the login lookup finds a row exactly when the username is taken, and the row it finds is the table's row with that username |
| `Auth.ProfileOmitsHash` | auth-chat-api/auth.py:75-84 | the public profile does not depend on the password hash |
| `Auth.SignupStep` | auth-chat-api/auth.py:22-41 | 409 exactly when the insert fails (duplicate username, used id, other failure), with the table unchanged; otherwise the new row is committed and nothing else changes; a non-active status is then 403 with the row kept; success exactly for an inserted active row, returning its id and role and a token issued for that pair; uniqueness of usernames is preserved |
| `Auth.LoginStep` | auth-chat-api/auth.py:43-64 | unknown username is 401 "invalid credentials"; an inactive row is 403 whatever the password; a missing or empty hash, or a failed verify, is 401 with the same detail; every failure leaves the table unchanged; success exactly when all checks pass, issuing a token for that row's id and role and changing only that row's `updated_at` |
| `Auth.SignupThenLogin` | auth-chat-api/auth.py:22-64 | with a hasher whose hashes verify, logging in right after a successful signup with the same credentials returns the new id and role |
| `Auth.SignupTokenOpensProfile` | auth-chat-api/auth.py:36-84 | the signup token passes the gate as the new user until it expires, and that identity's profile is the new row's |
| `Auth.NoUsernameEnumeration` | auth-chat-api/auth.py:51-58 | an unknown username and a bad credential for an active account get the identical answer and table |
| `Auth.InactiveWhateverPassword` | auth-chat-api/auth.py:55-56 | for an inactive account, any two passwords give the same answer: 403 with the table unchanged |
| `Auth.UserDirectory.Insert` | auth-chat-api/auth.py:25-34 | the insert either commits the new row and returns its id, role and status, or fails as the model defines failure and leaves the table as it was |
| `Auth.UserDirectory.Touch` | auth-chat-api/auth.py:60-61 | only the given user's `updated_at` is set to the database clock |
| `Auth.UserDirectory.Signup` | auth-chat-api/auth.py:22-41 | the answer and the new table are those of `SignupStep`, and the table stays well formed |
| `Auth.UserDirectory.Login` | auth-chat-api/auth.py:43-64 | the answer and the new table are those of `LoginStep`, and the table stays well formed |
| `Auth.UserDirectory.Me` | auth-chat-api/auth.py:66-84 | Ok exactly when the caller's id is in the table, giving that record's profile; otherwise 404 "user not found" |
| `Chat.MatchingMembers` | auth-chat-api/chat.py:42 | the filter keeps exactly the rows of that owner and category |
| `Chat.MatchingAscending` | auth-chat-api/chat.py:42-43 | filtering a store with ascending ids gives ascending ids |
| `Chat.MatchingAppend` | auth-chat-api/chat.py:22-26 | appending a row extends the filtered rows by it exactly when it matches |
| `Chat.Query` | auth-chat-api/chat.py:39-45 | the query returns min(limit, matches) rows, each a row of the store of that owner and category; its order is stated by `QueryIsNewestFirst` and `QueryDescending` |
| `Chat.QueryIsNewestFirst` | auth-chat-api/chat.py:39-45 | the query result, newest first and cut at `limit`, is the listing's reference meaning reversed |
| `Chat.QueryDescending` | auth-chat-api/chat.py:43 | on a store whose ids ascend, the query result's ids strictly descend, as `order by id desc` requires |
| `Chat.NewestAreHighest` | auth-chat-api/chat.py:39-51 | the listed rows number min(limit, matches), ascend, all belong to the caller and category, and every matching row left out is older than each listed row |
| `Chat.ReversedQuery` | auth-chat-api/chat.py:47-51 | projecting the query result and reversing it gives the items of the reference meaning |
| `Chat.ListingShape` | auth-chat-api/chat.py:32-51 | the items shown are at most `limit`, all in the category, with strictly ascending ids |
| `Chat.AddedRowIsNewest` | auth-chat-api/chat.py:22-45 | a row just added is the last item of its owner's next listing of its category; a row of another owner or category leaves that listing unchanged |
| `Chat.ReverseInPlace` | auth-chat-api/chat.py:51 | the array afterwards holds its old elements in reverse order |
| `Chat.LogStore.AddLog` | auth-chat-api/chat.py:17-27 | a category outside the allow-list is 400 "invalid category" with the store unchanged; otherwise exactly one row is appended, with the next id, the caller's id, the category, the question and the answer, and the ids keep ascending |
| `Chat.LogStore.ListLogs` | auth-chat-api/chat.py:29-52 | `limit` defaults to 200; a category outside the allow-list is 400 "invalid category"; otherwise the items of the caller's last `limit` rows in that category in ascending id order, at most `limit` of them, all in the category; the store is only read |

## Left out

- FastAPI routing, `Depends` and `HTTPException` plumbing: failures are `Results.Failure` values. An exception
  no handler catches is `Uncaught`; the 500 answer the framework turns it into is not modelled.
- The parsing of the `Authorization` header by `HTTPBearer`. The gate receives the credential, or `None` when the
  header is absent, is not a bearer credential, or has an empty credential.
- Pydantic validation: `EmailStr` and the `max_length=20` on categories. The `limit` bounds 1..2000 are checked by
  the framework before the handler runs, so `ListLogs` takes them as a precondition.
- SQL text, SQLAlchemy sessions and `db.py`. The database schema is not part of this model.
  - Its uniqueness constraint on usernames is the `WellFormed` invariant of the user table.
  - Its generated ids and column defaults (role, status, `created_at`) are parameters.
  - The `::uuid` casts of a user id are not modelled: a non-UUID id that would make the database raise is
    an ordinary string here.
- Insert failures in `add_log`: the database raising on an insert is not modelled.
- The log ids: the database sequence is a counter that steps by one. A real sequence may skip values. The
  proofs use only that ids strictly increase.
- bcrypt: hashing and verifying are the opaque function fields of `Hasher`, with the salt as a parameter.
  passlib's `verify` raising on a hash it cannot identify is not modelled; verify is a plain boolean.
- JWT encoding and HMAC-SHA256 signing are opaque. `Ideal` is an assumption about the library, used only by the
  lemmas that need it. Claim validation beyond it (`iat`, `nbf`, claim types) is not modelled.
- Floating point: the timestamp is an exact real, and rounding in `timestamp()` is ignored. `isoformat`
  rendering of `created_at`/`updated_at` is not modelled: timestamps stay integers in the model.
- Reading `JWT_SECRET` and `ACCESS_MIN` from the environment: `Security.Config` is passed in, and
  `DefaultConfig` holds the defaults. A non-numeric `ACCESS_MIN` failing at startup is not modelled.
- Concurrency and signup races: each operation is one sequential step.
