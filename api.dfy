/**
 * The HTTP handlers of the API server (internal/api/api.go), reduced to what they
 * decide: which status a request ends with, what they read from the query or body, and
 * which store or client call they make with which arguments. Responses are values;
 * writing them, templates and routing are not modelled.
 */
module Api {
  import opened Wrappers
  import opened Clock
  import opened Strconv
  import opened Base64Url
  import opened Activities
  import opened ApiKeys
  import opened Auth
  import opened Users
  import opened Strava

  const StatusFound := 302
  const StatusBadRequest := 400
  const StatusNotFound := 404

  datatype Body =
    | ActivityBody(activity: Activity)
    | TokenBody(token: string)
    | KeyBody(key: string)
    | StatusBody(status: string)

  datatype Response = Json(body: Body) | Redirect(location: string, code: int) | Error(status: int)

  /**
   * preferHTML: a non-empty Accept header decides alone (exactly text/html, or the wildcard for any type);
   * without one, a request with a User-Agent that is a GET or has no Content-Type.
   */
  function PreferHtml(accept: string, userAgent: string, httpMethod: string, contentType: string): (b: bool)
    ensures accept != "" ==> (b <==> accept == "text/html" || accept == "*/*")
    ensures accept == "" ==> (b <==> userAgent != "" && (httpMethod == "GET" || contentType == ""))
  {
    if accept != "" then accept == "text/html" || accept == "*/*"
    else userAgent != "" && (httpMethod == "GET" || contentType == "")
  }

  /** listActivitiesHandler's limit: 20 unless the parameter is an integer above 0. */
  function ListLimit(limitParam: string): (limit: int)
    ensures limit > 0
    ensures limit == 20 || ParseInt(limitParam) == Some(limit)
    ensures ParseInt(limitParam).Some? && ParseInt(limitParam).value > 0 ==> limit == ParseInt(limitParam).value
  {
    if limitParam == "" then 20
    else match ParseInt(limitParam)
      case Some(l) => if l > 0 then l else 20
      case None => 20
  }

  /** listActivitiesHandler's offset: 0 unless the parameter is an integer of at least 0. */
  function ListOffset(offsetParam: string): (offset: int)
    ensures offset >= 0
    ensures offset == 0 || ParseInt(offsetParam) == Some(offset)
    ensures ParseInt(offsetParam).Some? && ParseInt(offsetParam).value >= 0 ==> offset == ParseInt(offsetParam).value
  {
    if offsetParam == "" then 0
    else match ParseInt(offsetParam)
      case Some(o) => if o >= 0 then o else 0
      case None => 0
  }

  /** A parameter that is not an integer leaves both defaults in place, as does no parameter. */
  lemma ListDefaults(s: string)
    requires s == "" || ParseInt(s).None?
    ensures ListLimit(s) == 20 && ListOffset(s) == 0
  {
  }

  /* ---------------------------------------------------------------------------- */

  /**
   * getActivityHandler as written: the store reports a missing activity as an error,
   * and the handler answers every store error with 500 before it reaches its
   * not-found check.
   */
  function GetActivityReplyAsWritten(rows: map<int, Activity>, idParam: string): (r: Response)
    ensures r == Error(StatusBadRequest) <==> ParseInt(idParam).None?
    ensures r.Json? <==> ParseInt(idParam).Some? && ParseInt(idParam).value in rows
    ensures r.Json? ==> r.body == ActivityBody(rows[ParseInt(idParam).value])
    ensures r != Error(StatusNotFound)
  {
    match ParseInt(idParam)
    case None => Error(StatusBadRequest)
    case Some(id) => if id in rows then Json(ActivityBody(rows[id])) else Error(StatusInternalServerError)
  }

  /** getActivityHandler as intended: a non-integer id is 400, an unknown one 404. */
  function GetActivityReply(rows: map<int, Activity>, idParam: string): (r: Response)
    ensures ParseInt(idParam).None? <==> r == Error(StatusBadRequest)
    ensures ParseInt(idParam).Some? && ParseInt(idParam).value !in rows <==> r == Error(StatusNotFound)
    ensures r.Json? <==> ParseInt(idParam).Some? && ParseInt(idParam).value in rows
    ensures r.Json? ==> r.body == ActivityBody(rows[ParseInt(idParam).value])
  {
    match ParseInt(idParam)
    case None => Error(StatusBadRequest)
    case Some(id) => if id in rows then Json(ActivityBody(rows[id])) else Error(StatusNotFound)
  }

  /** The two differ exactly on a well-formed id that is not stored: 500 as written, 404 as intended. */
  lemma MissingActivityStatus(rows: map<int, Activity>, idParam: string)
    ensures GetActivityReplyAsWritten(rows, idParam) != GetActivityReply(rows, idParam)
            <==> ParseInt(idParam).Some? && ParseInt(idParam).value !in rows
    ensures ParseInt(idParam).Some? && ParseInt(idParam).value !in rows ==>
      GetActivityReplyAsWritten(rows, idParam) == Error(StatusInternalServerError)
  {
  }

  /** An input that shows it: "42" against an empty table. */
  lemma MissingActivityExample()
    ensures GetActivityReplyAsWritten(map[], "42") == Error(StatusInternalServerError)
    ensures GetActivityReply(map[], "42") == Error(StatusNotFound)
  {
    assert ParseInt("42") == Some(42) by { ParseFormatInt(42); assert FormatInt(42) == "42"; }
  }

  /** getActivityHandler against the activities table, with the intended 404. */
  method GetActivityHandler(activities: ActivityTable, idParam: string) returns (r: Response)
    requires activities.Valid()
    ensures r == GetActivityReply(activities.rows, idParam)
  {
    var id := ParseInt(idParam);
    if id.None? {
      return Error(StatusBadRequest);
    }
    var found := activities.GetActivityByID(id.value);
    if found.Failure? {
      return Error(StatusNotFound);
    }
    r := Json(ActivityBody(found.value));
  }

  /* ---------------------------------------------------------------------------- */

  /** The Go int `days` of the sync request: 0 or less becomes 1. */
  function SyncDays(days: int): (d: int)
    ensures d >= 1
    ensures days >= 1 ==> d == days
  {
    if days <= 0 then 1 else days
  }

  const NanosPerHour := 3600 * NanosPerSecond

  /**
   * syncActivitiesHandler's window start: now minus `days` times 24 hours, where the
   * negation and both multiplications are on int64 nanosecond durations and wrap around.
   * Whatever `days` is, the start lies within the span of an int64 duration of now.
   */
  function SyncWindowStart(now: Time, days: int): (start: Time)
    ensures now - MaxDurationSeconds - 1 <= start <= now + MaxDurationSeconds
  {
    var d := Wrap64(Wrap64(Wrap64(-days) * 24) * NanosPerHour);
    DurationSeconds(d);
    AddDuration(now, d)
  }

  /** For up to 106751 days (the most whole days an int64 count of nanoseconds holds) the window is exact. */
  lemma SyncWindowExact(now: Time, days: int)
    requires 1 <= days <= 106751
    ensures SyncWindowStart(now, days) == now - days * SecondsPerDay
  {
    assert Wrap64(-days) == -days;
    assert Wrap64(-days * 24) == -days * 24;
    assert InInt64(-days * 24 * NanosPerHour);
    assert (-days * 24 * NanosPerHour) / NanosPerSecond == -days * SecondsPerDay;
  }

  /**
   * syncActivitiesHandler, with the sync it starts run once to completion. `days` is
   * the integer the body's "days" holds (0 when the field is absent), None when the
   * body does not decode. An undecodable body, and a number that does not fit Go's
   * 64-bit int, is 400 and starts nothing; otherwise FetchActivities runs from the
   * window start with a limit of 100 and the response is "sync started" whatever the
   * sync does. `synced` is what the store accepted, or None when no listing was made or
   * the listing failed; the handler itself only logs a failure.
   */
  method SyncActivitiesHandler<A, M>(days: Option<int>, now: Time,
                                     list: ListRequest -> Result<seq<A>, string>,
                                     convert: A -> Result<M, string>,
                                     save: M -> bool)
    returns (r: Response, synced: Option<seq<M>>)
    ensures days.None? || !InInt64(days.value) <==> r == Error(StatusBadRequest)
    ensures days.None? || !InInt64(days.value) ==> synced.None?
    ensures days.Some? && InInt64(days.value) ==>
      r == Json(StatusBody("sync started"))
      && var listing := list(ListRequest(ToUnix(SyncWindowStart(now, SyncDays(days.value))), 1, 100));
      synced == if listing.Success? then Some(Accepted(Converted(listing.value, convert), save)) else None
  {
    if days.None? || !InInt64(days.value) {
      return Error(StatusBadRequest), None;
    }
    var d := days.value;
    if d <= 0 {
      d := 1;
    }
    var err, attempted, saved := FetchActivities(SyncWindowStart(now, d), 100, list, convert, save);
    synced := if err.None? then Some(saved) else None;
    r := Json(StatusBody("sync started"));
  }

  /** A request for 0 or fewer days syncs the last 24 hours, exactly as a request for 1 day does. */
  lemma SyncAtLeastOneDay(now: Time, days: int)
    requires days <= 0
    ensures SyncWindowStart(now, SyncDays(days)) == SyncWindowStart(now, SyncDays(1)) == now - SecondsPerDay
  {
    SyncWindowExact(now, 1);
  }

  /* ---------------------------------------------------------------------------- */

  /** The body of a create-key request: description and expiry_days. */
  datatype KeyRequest = KeyRequest(description: string, expiryDays: int)

  /** A body Go cannot decode into the request: none, or an expiry_days outside Go's 64-bit int. */
  predicate BadKeyRequest(body: Option<KeyRequest>) {
    body.None? || !InInt64(body.value.expiryDays)
  }

  /**
   * createKeyHandler: an undecodable body is 400; otherwise a key is generated and
   * associated with the user of the JWT (0 when the context holds none), and returned.
   * A failed random source, an expiry the store cannot read back and a key already
   * stored are 500, with the rows unchanged and nothing associated; only the key
   * already stored has used up a value of the id sequence.
   */
  method CreateKeyHandler(keys: ApiKeyTable, body: Option<KeyRequest>, contextUserId: Option<int>,
                          now: Time, read: Option<seq<byte>>)
    returns (r: Response)
    requires keys.Valid() && now >= 0
    requires read.Some? ==> |read.value| == 32
    modifies keys
    ensures keys.Valid()
    ensures BadKeyRequest(body) <==> r == Error(StatusBadRequest)
    ensures BadKeyRequest(body) ==> keys.rows == old(keys.rows) && keys.nextId == old(keys.nextId)
    ensures !BadKeyRequest(body) && read.None? ==>
      r == Error(StatusInternalServerError) && keys.rows == old(keys.rows) && keys.nextId == old(keys.nextId)
    ensures !BadKeyRequest(body) && read.Some? ==>
      var parses := ExpiryParses(now, body.value.expiryDays);
      var accepted := parses && !HasKey(old(keys.rows), Encode(read.value));
      (accepted ==> r.Json?)
      && (!accepted ==> r == Error(StatusInternalServerError) && keys.rows == old(keys.rows))
      && keys.nextId == old(keys.nextId) + (if parses then 1 else 0)
    ensures r.Json? ==>
      body.Some? && read.Some? && r.body == KeyBody(Encode(read.value))
      && var id, req := old(keys.nextId), body.value;
      keys.rows == old(keys.rows)[id := ApiKey(id, Encode(read.value), req.description, now,
                                               if req.expiryDays > 0 then AddDays(now, req.expiryDays) else ZeroTime,
                                               true, Some(contextUserId.GetOr(0)))]
    ensures r.Json? || r == Error(StatusBadRequest) || r == Error(StatusInternalServerError)
  {
    if body.None? || !InInt64(body.value.expiryDays) {
      return Error(StatusBadRequest);
    }
    var userId := contextUserId.GetOr(0);
    ghost var before := keys.rows;
    ghost var id := keys.nextId;
    var key := GenerateAPIKey(keys, body.value.description, body.value.expiryDays, now, read);
    if key.Failure? {
      return Error(StatusInternalServerError);
    }
    ghost var row := keys.rows[id];
    assert !HasKey(before, key.value);
    AssociateFresh(before, id, row, userId);
    var err := keys.AssociateAPIKeyWithUser(key.value, userId);
    r := Json(KeyBody(key.value));
  }

  /* ---------------------------------------------------------------------------- */

  /** The request fields stravaCallbackHandler reads besides the code. */
  datatype Negotiation = Negotiation(accept: string, userAgent: string, httpMethod: string, contentType: string)

  /**
   * stravaCallbackHandler: no code is 400; a failed exchange is 500 and changes nothing;
   * otherwise the client holds the new access token, the athlete is saved as
   * HandleAuthCallback saves it, and a JWT for the athlete is issued and sent as a
   * redirect to the dashboard (browsers) or as JSON.
   */
  method StravaCallbackHandler(client: Client, users: UserTable, code: string, n: Negotiation, now: Time,
                               authorize: string -> Result<AuthResponse, string>,
                               tokenDurationMinutes: int, secret: string,
                               mac: (SigningMethod, string, Claims) -> string, serialize: Jwt -> string)
    returns (r: Response)
    requires users.Valid()
    modifies client, users
    ensures users.Valid()
    ensures code == "" ==>
      r == Error(StatusBadRequest) && users.rows == old(users.rows)
      && client.apiToken == old(client.apiToken) && client.configAccessToken == old(client.configAccessToken)
    ensures code != "" && authorize(code).Failure? ==>
      r == Error(StatusInternalServerError) && users.rows == old(users.rows)
      && client.apiToken == old(client.apiToken) && client.configAccessToken == old(client.configAccessToken)
    ensures code != "" && authorize(code).Success? ==>
      var resp := authorize(code).value;
      var token := GenerateJWT(resp.athlete.id, now, tokenDurationMinutes, secret, mac, serialize);
      var saved := AthleteSaved(old(users.rows), resp.athlete, resp.accessToken, "", 0, now);
      r == (if PreferHtml(n.accept, n.userAgent, n.httpMethod, n.contentType)
            then Redirect("/dashboard?token=" + token, StatusFound)
            else Json(TokenBody(token)))
      && client.apiToken == resp.accessToken && client.configAccessToken == resp.accessToken
      && users.rows == (if saved.Success? then saved.value else old(users.rows))
  {
    if code == "" {
      return Error(StatusBadRequest);
    }
    var resp := client.HandleAuthCallback(code, authorize, users, now);
    if resp.Failure? {
      return Error(StatusInternalServerError);
    }
    var token := GenerateJWT(resp.value.athlete.id, now, tokenDurationMinutes, secret, mac, serialize);
    if PreferHtml(n.accept, n.userAgent, n.httpMethod, n.contentType) {
      r := Redirect("/dashboard?token=" + token, StatusFound);
    } else {
      r := Json(TokenBody(token));
    }
  }
}
