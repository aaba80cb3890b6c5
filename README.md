# strava-data-pipeline: a verified model of the stores, gates and handlers

This Dafny project models the sequential core of strava-data-pipeline, a Go service. The service:

- pulls a user's activities from Strava into Postgres;
- serves them through an HTTP API guarded by API keys (data routes) and JWTs (admin routes).

The model has these parts:

- **Record stores.** These are the `api_keys`, `activities` and `users` tables (`ApiKeys`, `Activities`, `Users`).
  - Each is a class that holds a map from id to row.
  - Each store function is a method whose contract gives the new table and the result, with the semantics of its SQL text:
    - UNIQUE constraints;
    - `ON CONFLICT (id) DO UPDATE` upserts that keep `created_at`;
    - `ORDER BY start_date DESC LIMIT n`;
    - "no rows" errors;
    - the BIGSERIAL id sequence.
- **Authentication service** (`Auth`):
  - API-key extraction and the AuthMiddleware decision;
  - the `Bearer` header split;
  - JWT expiry, generation and validation, with signing as an oracle;
  - random key material encoded as padded base64url (section 5 of RFC 4648);
  - GenerateAPIKey, which formats the expiry as RFC 3339 text that the store parses back.
- **Strava client** (`Strava`):
  - the token holder (`RefreshToken`, `HandleAuthCallback`);
  - the skip-on-error sync loop `FetchActivities`.
- **HTTP handlers** (`Api`):
  - query and body normalisation;
  - `preferHTML`;
  - the status each handler ends with;
  - the store and client calls each one makes.
- **Supporting modules:**
  - `Clock`: instants in seconds since 0001-01-01Z, and int64 durations that wrap;
  - `Calendar`, `Decimal` and `Rfc3339`: the Go time layout `time.RFC3339`, with a round trip proved;
  - `Base64Url`: encode and decode, with a round trip proved;
  - `Strconv`: Go's `strconv.ParseInt` and `Atoi`;
  - `Store`: the error kinds;
  - `Wrappers`: Option and Result;
  - `Sets`: a set lemma used by the table scans.

### Modelling conventions

- **The clock.** "now" is a parameter.
- **Oracles.** These are function-typed parameters:
  - the random source (the bytes it delivers, or none);
  - JWT signing, serialising and parsing;
  - the Strava OAuth exchange, the activity listing and the activity-to-record conversion;
  - the store's `SaveActivity`.
- **Float metrics.** The float64 activity columns are opaque 64-bit values.
- **Time-zone-less columns.** `expires_at` is a TIMESTAMP without time zone. It keeps the date and time of day of the text it is given, drops the offset, and reads back as UTC.

### Interface assumptions

The code does not compile as a whole, so each function is modelled by its own body, with these interface assumptions:

- **auth.go:54.** It assigns the two results of `CreateAPIKey` to one variable. The model uses the error result.
- **api.go:303.** It passes the key string where `AssociateAPIKeyWithUser` expects an `APIKey`. The model passes the key text, which is the only field the statement reads.
- **Named parameters.** `CreateAPIKey`, `UpdateAPIKey` and `UpdateActivity` write sqlx named parameters (`:key`, `:Name`, …) but pass values positionally or not at all. They are modelled as binding the record's own fields.
  - `CreateActivity` is modelled the same way, as the upsert its statement describes.
- **UpdateAPIKey's `updated_at`.** `UpdateAPIKey` also sets `updated_at`, a column that the schema at internal/db/user_api_keys.go:9-18 lacks. The model leaves that column out.
- **CreateUser.** Its INSERT (internal/db/user.go:43-44) names two columns and supplies four values, and `users.id` has no default. It is modelled as intended: the two given columns, both timestamps now, and an id from a store sequence.
- **The users table.** It is the union of the columns of internal/db/user.go:8-17 and those written by `saveAthlete` (athlete id, names, location, sex). Columns a statement never sets are NULL.
- **getActivityHandler.** It compares a struct with `nil` (internal/api/api.go:255). See Findings.
- **Undefined functions.** `GetActivities` (api.go:228), `GetAPIKeysForUser` (api.go:130, 271) and `SaveActivity` (strava.go:76) are not defined in the files this model covers:
  - `SaveActivity` is an oracle;
  - `GetAPIKeysForUser` corresponds to `ReadApiKeyByUserID`;
  - only the parameter handling of `listActivitiesHandler` is modelled.

## Model

| member | source | states |
|---|---|---|
| ApiKeys.ValidityCases | internal/db/user_api_keys.go:50-56 | An inactive key is never valid. An active key with the zero expiry always is. Otherwise a key is valid iff now is not after its expiry, so a key whose expiry equals now is still valid. |
| ApiKeys.AssociatedOnlyOwner | internal/db/user_api_keys.go:161-171 | The association keeps the set of ids. It changes only `user_id`, and only on rows that carry the key. |
| ApiKeys.AssociateFresh | internal/db/user_api_keys.go:161-171 | Take a key that no other row carries. Associating it sets the owner of its own row and changes no other row. |
| ApiKeys.StoredExpiry | internal/db/user_api_keys.go:73-84 | The `expires_at` TIMESTAMP column keeps an expiry exactly when it parses. It keeps the zero time for none, and otherwise a wall clock less than a day from the parsed instant. |
| ApiKeys.ApiKeyTable.constructor | internal/db/user_api_keys.go:9-18 | The table starts empty, with the id sequence at 1. |
| ApiKeys.ApiKeyTable.ValidateAPIKey | internal/db/user_api_keys.go:36-57 | The result is true iff some row carries the key and that row is active and not expired. An unknown key gives false, not an error. |
| ApiKeys.ApiKeyTable.CreateAPIKey | internal/db/user_api_keys.go:64-92 | A malformed RFC 3339 expiry is an error, and nothing changes. A duplicate key is a unique violation, and the sequence still advances. Otherwise the new row gets the next id, is active and unowned, and holds the key, the description and the expiry's wall clock with the offset dropped. The returned record carries the parsed instant instead. No expiry means the zero time. Key material stays unique. |
| ApiKeys.ApiKeyTable.ReadAPIKeyByID | internal/db/user_api_keys.go:94-109 | Succeeds iff the id is stored, with exactly that row. Otherwise the error is "no rows". |
| ApiKeys.ApiKeyTable.UpdateAPIKey | internal/db/user_api_keys.go:111-133 | A missing id is an error. A key held by another row is a unique violation. Otherwise the record replaces the row, except that the stored `created_at` is kept and returned. |
| ApiKeys.ApiKeyTable.DeleteAPIKey | internal/db/user_api_keys.go:135-154 | Deleting an absent id is an error, and the table is unchanged. Otherwise exactly that id is removed. |
| ApiKeys.ApiKeyTable.AssociateAPIKeyWithUser | internal/db/user_api_keys.go:161-171 | The table becomes the association of the key with the user. The sequence is unchanged. |
| ApiKeys.ApiKeyTable.ReadApiKeyByUserID | internal/db/user_api_keys.go:174-186 | Every returned row is stored and owned by the user, and every row owned by the user is returned. No row comes twice. |
| Activities.Upserted | internal/db/activities.go:137-175 | The upsert adds the record's id. That row gets the record's payload and `updated_at` = now. Its `created_at` is kept when the id existed, and is now otherwise. Every other row is unchanged. |
| Activities.UpsertInserts | internal/db/activities.go:99-136 | Upserting an absent id inserts exactly the given payload, created and updated now. |
| Activities.UpsertTwice | internal/db/activities.go:137-175 | Upserting the same record twice equals upserting it once, except for `updated_at`. |
| Activities.LatestPrefix | internal/db/activities.go:204-208 | The first k rows of an answer for a LIMIT of at least k are themselves an answer for LIMIT k. |
| Activities.LatestExists | internal/db/activities.go:205-206 | Every non-empty set of stored ids has a member with the latest start date. |
| Activities.SelectionStep | internal/db/activities.go:204-208 | Picking a latest remaining row extends the sorted selection and keeps it a partition of the table. |
| Activities.ActivityTable.constructor | internal/db/activities.go:8-50 | The table starts empty. |
| Activities.ActivityTable.CreateActivity | internal/db/activities.go:99-185 | The table becomes the upsert of the record, and the stored row is returned. |
| Activities.ActivityTable.GetActivityByID | internal/db/activities.go:187-200 | Succeeds iff the id is stored, with that row. Otherwise it is a "no rows" error, not an empty record. |
| Activities.ActivityTable.GetLastActivities | internal/db/activities.go:202-214 | A negative limit is an error. Otherwise it returns min(limit, table size) distinct stored rows, latest start date first, and no omitted row starts later than a returned one. |
| Activities.ActivityTable.UpdateActivity | internal/db/activities.go:216-245 | A missing id is an error, and nothing changes. Otherwise the row gets the record's payload and a fresh `updated_at`, keeps `created_at`, and is returned. |
| Activities.ActivityTable.DeleteActivity | internal/db/activities.go:247-256 | Never an error. Afterwards the id is absent and all other rows are unchanged. |
| Users.Scanned | internal/db/user.go:60-70 | A scan succeeds iff the tokens and the expiry are non-NULL. On success it copies id, username, timestamps and tokens, and the unselected athlete id stays 0. |
| Users.AthleteSaved | internal/strava/strava.go:156-193 | Fails with a unique violation iff the athlete is new and some row already has the empty username. On success only the athlete's row is added or changed. |
| Users.SaveKnownAthlete | internal/strava/strava.go:163-172 | A known athlete keeps username, athlete id and `created_at`. It gets the given names, location, sex, tokens and expiry (`to_timestamp` of the Unix seconds) and `updated_at` = now. |
| Users.SaveNewAthlete | internal/strava/strava.go:156-187 | While no row has the empty username, a new athlete is inserted under its own id with username "", no athlete id, the given names, location, sex, tokens and expiry, and both timestamps now. |
| Users.SecondNewAthleteRejected | internal/strava/strava.go:175-187 | After one new athlete is saved with the empty username, saving any other new athlete is a unique violation. |
| Users.SavePreservesUnique | internal/db/user.go:10-11 | The athlete upsert keeps usernames unique and rows under their own ids. |
| Users.UserTable.constructor | internal/db/user.go:8-17 | The table starts empty, with the id sequence at 1. |
| Users.UserTable.CreateUser | internal/db/user.go:34-54 | The id sequence always advances. A duplicate username (or id) is a unique violation, and the rows are unchanged. Otherwise the row is inserted with the given username and athlete id, no tokens, and both timestamps now. The returned record echoes them with the store's id. |
| Users.UserTable.GetUserByID | internal/db/user.go:56-72 | A missing id is "no rows". Otherwise the result is the scan of that row. |
| Users.UserTable.GetUserByUsername | internal/db/user.go:74-90 | An unknown username is "no rows". Otherwise the result is the scan of the one row with that username. |
| Users.UserTable.GetUserByAthleteID | internal/db/user.go:92-108 | The result is "no rows" exactly when no row has the athlete id. Otherwise it is the scan of some row with that athlete id. |
| Users.UserTable.UpdateUser | internal/db/user.go:110-123 | Changes only username, athlete id and `updated_at` of that row. A missing id is not an error. A username held by another row is a unique violation. |
| Users.UserTable.DeleteUser | internal/db/user.go:125-137 | Never an error, even for an absent id. Afterwards the id is absent. |
| Users.UserTable.SaveAthlete | internal/strava/strava.go:156-193 | The table becomes the upsert's result. A refused insert changes nothing and reports the error. |
| Users.UserTable.GetProfile | internal/strava/strava.go:196-220 | Nothing (and no error) iff no row has the id. Otherwise the selected columns, with NULLs kept. |
| Auth.ExtractApiKey | internal/auth/auth.go:82-85 | The header wins when it is non-empty; otherwise the query parameter is used. The key is empty iff both are. |
| Auth.AuthDecision | internal/auth/auth.go:87-105 | Passes iff the key is non-empty and validates true. A validation error is 500. Everything else is 401. |
| Auth.AuthMiddleware | internal/auth/auth.go:79-107 | Against the table: passes iff the extracted key is non-empty and valid, and otherwise denies with 401. |
| Auth.Split | internal/auth/auth.go:162 | `strings.Split` on " " gives at least one piece, and no piece contains a space. |
| Auth.JoinSplit | internal/auth/auth.go:162 | Joining the pieces with single spaces gives the header back. |
| Auth.ParseBearer | internal/auth/auth.go:161-166 | An accepted token never contains a space, and a header without a space is rejected. |
| Auth.BearerIff | internal/auth/auth.go:161-168 | The split yields token t iff the header is exactly "Bearer " followed by t, and t has no space. |
| Auth.JwtGate | internal/auth/auth.go:152-185 | Passes with the claims' user id iff the header is "Bearer " + a space-free token that validates. Every other case is 401. |
| Auth.ExpiryNoOverflow | internal/auth/auth.go:111-117 | Without int64 overflow, the JWT expiry is now + TokenDuration minutes, in Unix seconds. |
| Auth.ExpiryOf | internal/auth/auth.go:111 | Whatever TokenDuration is, the wrapped duration keeps the expiry within about 292 years of now. |
| Auth.GenerateJWT | internal/auth/auth.go:109-127 | The token is the serialisation of an HS256 token with the user id, the expiry and no other time claim, signed under the secret. |
| Auth.ValidateJWT | internal/auth/auth.go:130-149 | Accepts iff the token parses, names an HMAC method, has valid time claims, and carries the signature the secret gives. Then it returns the claims. |
| Auth.GenerateValidate | internal/auth/auth.go:110-149 | Take a token GenerateJWT issued. It validates under the same secret iff now is not past its expiry, and it yields the given user id. |
| Auth.OtherSecretRefused | internal/auth/auth.go:130-149 | A token signed with another secret is refused whenever the MAC tells the two secrets apart. |
| Auth.GenerateRandomString | internal/auth/auth.go:68-76 | Fails iff the random source fails. Otherwise it returns the base64url encoding of the bytes read, which decodes back to them. |
| Auth.ExpiryStored | internal/auth/auth.go:47-51 | The RFC 3339 text of an expiry parses back to the same instant up to year 9999, and the column stores that same instant. Past that year the text is rejected. |
| Auth.GenerateAPIKey | internal/auth/auth.go:39-60 | A random-source failure changes nothing. An expiry the store cannot parse is a store error, with the sequence untouched. A duplicate key is a store error, and the sequence advances. Otherwise it returns the 44-character key, and the new row carries it. The row's expiry is now + days, wrapped modulo 2^64 seconds as time.Date does, for days > 0, and no expiry otherwise. |
| Auth.WrappedExpiry | internal/auth/auth.go:49 | 2^57 expiry days wrap to an expiry of exactly now, and 2^57 − 1 days to yesterday. |
| Strava.Client.constructor | internal/strava/strava.go:26-45 | The client starts with the configured access token. |
| Strava.Client.RefreshToken | internal/strava/strava.go:103-122 | An empty refresh token is an error and changes nothing, as does a failed exchange. A success makes the new access token current in the client and the config. |
| Strava.Client.HandleAuthCallback | internal/strava/strava.go:133-153 | A failed exchange changes nothing. A success sets the access token and saves the athlete with that token, an empty refresh token and expiry 0. It succeeds even when the save is refused, which leaves the table unchanged. |
| Strava.ConvertedConcat | internal/strava/strava.go:67-80 | A conversion failure costs only its own record: converting two batches equals converting each batch alone. |
| Strava.ConvertedAll | internal/strava/strava.go:67-80 | When every conversion succeeds, every record is handed to the store, in order. |
| Strava.Converted | internal/strava/strava.go:67-73 | At most one record per activity, each one a successful conversion of some activity. |
| Strava.Accepted | internal/strava/strava.go:76-79 | The saved records are among the converted ones, and the store accepted each of them. |
| Strava.FetchActivities | internal/strava/strava.go:48-83 | A failed listing is an error, and nothing is handed on. Otherwise every converted record is handed to the store, in order, skipping failures, and the call succeeds. |
| Api.PreferHtml | internal/api/api.go:368-378 | A non-empty Accept decides alone, and is true iff it is exactly text/html or the wildcard type. Otherwise the result is true iff there is a User-Agent and the method is GET or there is no Content-Type. |
| Api.ListLimit | internal/api/api.go:211-217 | The limit is the parsed value when it parses and is > 0, and 20 otherwise. It is always positive. |
| Api.ListOffset | internal/api/api.go:219-225 | The offset is the parsed value when it parses and is ≥ 0, and 0 otherwise. |
| Api.ListDefaults | internal/api/api.go:208-225 | A missing or non-integer parameter gives limit 20 and offset 0. |
| Api.GetActivityReply | internal/api/api.go:239-262 | A non-integer id is 400. A well-formed id that is not stored is 404. Otherwise the JSON is exactly the stored row. |
| Api.MissingActivityStatus | internal/api/api.go:249-258 | The code as written differs from the intended reply exactly on a well-formed missing id, where it answers 500. |
| Api.MissingActivityExample | internal/api/api.go:249-258 | "42" against an empty table: 500 as written, 404 as intended. |
| Api.GetActivityReplyAsWritten | internal/api/api.go:239-262 | A non-integer id is 400. A stored id gives its row as JSON. Every other id is 500, and the reply is never 404. |
| Api.GetActivityHandler | internal/api/api.go:239-262 | Against the activities table, the reply is the intended one. |
| Api.SyncDays | internal/api/api.go:325-327 | The coerced day count is at least 1, and equals the request's when that is positive. |
| Api.SyncWindowStart | internal/api/api.go:331 | Whatever the day count, the wrapped duration keeps the window start within about 292 years of now. |
| Api.SyncWindowExact | internal/api/api.go:331 | For 1 to 106751 days, the int64 duration arithmetic does not wrap, and the window starts exactly days × 24 h before now. |
| Api.SyncAtLeastOneDay | internal/api/api.go:325-331 | 0 or fewer days give the same window start as 1 day: now − 24 h. |
| Api.SyncActivitiesHandler | internal/api/api.go:315-341 | A bad body, or a day count outside Go's int, is 400 and syncs nothing. Otherwise the reply is "sync started", and FetchActivities runs from the window start with limit 100. |
| Api.CreateKeyHandler | internal/api/api.go:282-312 | The reply is 400 exactly when the body does not decode, including an expiry_days outside Go's int, and then nothing changes. Otherwise a random-source failure, an expiry the store cannot read back or a key already stored is 500, and the rows are unchanged. Only the stored key advances the sequence. Otherwise the reply is the new key, and its row is owned by the context user (0 when absent). |
| Api.StravaCallbackHandler | internal/api/api.go:173-203 | No code is 400 and changes nothing. A failed exchange is 500 and changes nothing. Otherwise both client tokens become the new access token, and the athlete is saved as HandleAuthCallback saves it. The reply is a JWT for the athlete: a 302 to the dashboard for browsers, JSON for everyone else. |
| Rfc3339.ParseFormat | internal/db/user_api_keys.go:66-71 | Parsing the RFC 3339 text of an instant gives the instant back up to year 9999. From year 10000 on, parsing fails. |
| Rfc3339.Format | internal/auth/auth.go:49 | The rendering has at least twenty characters and ends in the UTC zone "Z". |
| Rfc3339.FormatZulu | internal/auth/auth.go:49 | Up to year 9999 the rendering is exactly twenty characters, and its zone is "Z". |
| Rfc3339.Parse | internal/db/user_api_keys.go:68 | Only text laid out as a date, a 'T', a time of day and a zone is accepted. |
| Rfc3339.WallClock | internal/db/user_api_keys.go:15 | The wall clock exists exactly where parsing succeeds, lies less than a day from the parsed instant, and equals it for a "Z" zone. |
| Rfc3339.FormatWallClock | internal/auth/auth.go:47-51 | The wall clock of a rendering is the instant itself up to year 9999, and there is none from year 10000 on. |
| Base64Url.DecodeEncode | internal/auth/auth.go:75 | Decoding the base64url encoding of any bytes gives them back. |
| Base64Url.Encode | internal/auth/auth.go:75 | Four characters per started group of three bytes, each from the URL-safe alphabet or '='. |
| Base64Url.EncodeInjective | internal/auth/auth.go:75 | Distinct byte strings have distinct encodings. |
| Base64Url.KeyShape | internal/auth/auth.go:41 | The encoding of 32 bytes has 44 url-safe characters and ends in one '='. |
| Strconv.ParseInt | internal/api/api.go:243 | Accepts exactly an optional sign, then one or more digits, with a value in int64 range. |
| Strconv.ParseFormatInt | internal/api/api.go:213 | Every int64 reads back from its decimal text. |
| Clock.Wrap64 | internal/auth/auth.go:111 | int64 wrap-around: the result is in range, congruent modulo 2^64, and the identity on values in range. |
| Clock.AddDuration | internal/auth/auth.go:111 | Adding a nanosecond duration to a whole-second instant yields the floor of the nanosecond sum, in seconds. |

## Left out

- HTTP routing, response writing, templates and the static assets. The handlers' replies are values: a status, a redirect or a JSON body.
- The Postgres connection, driver errors and row scanning in general. Each store statement is modelled by what its SQL text does to the table, and the only errors are the ones the table itself can produce.
- JWT signing and parsing, the random source, the Strava SDK (OAuth exchange, activity listing), `activityToMap` and the store's `SaveActivity`. These are oracles passed as parameters.
- Goroutines: the detached sync in `syncActivitiesHandler` and `StartSyncJob`. The model runs one FetchActivities call synchronously.
- `StartAuthFlow`, `healthHandler`, `homeHandler`, `loginHandler`, `dashboardHandler`, `stravaAuthHandler` and `listKeysHandler`. These build a URL or render a page.
- The list call of `listActivitiesHandler`. It calls `GetActivities`, which is not part of this model, so only its parameter defaulting is modelled.
- Sub-second time. Instants are whole seconds in UTC, and a parsed fraction of a second is dropped.
- Auth.GenerateAPIKey: the server clock is taken to be in UTC. On a server in another zone Go writes the local offset into the expiry text. The `expires_at` column drops that offset, so the stored expiry would be shifted by it.
- Go's lenient fallback time parser. Only the strict RFC 3339 path is modelled.
- Auth.GenerateJWT: the signing error branch (auth.go:122-124) is not modelled, because the MAC oracle is total.
- Auth.ValidateJWT: the leeway and audience or issuer options of the JWT library are not modelled. The claims checked are exp, iat and nbf.
- Auth.GenerateAPIKey: a wrapped expiry in year 0, the 366 days before 0001-01-01, is refused like any expiry before year 1. Go renders that year as "0000", which its parser accepts.
- Api.CreateKeyHandler: the 500 branch after a failed association (api.go:302-305) is not reachable. The in-memory table never fails an UPDATE.
- Users.UserTable.GetUserByAthleteID: which of several rows sharing an athlete id comes back is unspecified. This is weaker than a database, which would pick one deterministically.
- Activities.ActivityTable.GetLastActivities: the order among rows with equal start dates is unspecified, as it is for the SQL.
- The float64 metric columns are opaque 64-bit values: no arithmetic, no NaN comparison.

## Findings

| source | as written | input that shows it | evidently intended | confidence | as-written member | corrected member |
|---|---|---|---|---|---|---|
| internal/api/api.go:249-258 | `GetActivityByID` reports a missing id as an error, and the handler answers every store error with 500 before its not-found check, so that check is never reached | GET of activity id "42" on an empty table | 404 "Activity not found" for a well-formed id that is not stored | not executed | Api.MissingActivityExample | Api.GetActivityReply |
