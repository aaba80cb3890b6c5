/**
 * The Strava client (internal/strava/strava.go): a holder of the current access token
 * that exchanges OAuth codes, fetches activities and hands each one to the store. The
 * Strava SDK (the OAuth exchange, the activity listing), the JSON conversion of an
 * activity and the store's SaveActivity are outside this model and are parameters.
 */
module Strava {
  import opened Wrappers
  import opened Clock
  import opened Users

  /** The OAuth token response: the access token and the athlete it belongs to. */
  datatype AuthResponse = AuthResponse(accessToken: string, athlete: Athlete)

  datatype StravaError = NoRefreshToken | AuthorizeFailed | ListFailed

  /** The listing FetchActivities asks for: activities after a Unix second, first page, `perPage` of them. */
  datatype ListRequest = ListRequest(after: int, page: int, perPage: int)

  class Client {
    /** The token the SDK client was made with. */
    var apiToken: string
    /** config.Strava.AccessToken. */
    var configAccessToken: string

    /** New: the SDK client starts with the configured access token. */
    constructor (accessToken: string)
      ensures apiToken == accessToken && configAccessToken == accessToken
    {
      apiToken := accessToken;
      configAccessToken := accessToken;
    }

    /**
     * RefreshToken: an empty refresh token is refused before anything happens; a failed
     * exchange changes nothing; a successful one makes the new access token current in
     * both places.
     */
    method RefreshToken(refreshToken: string, authorize: string -> Result<AuthResponse, string>)
      returns (r: Result<AuthResponse, StravaError>)
      modifies this
      ensures refreshToken == "" ==> r == Failure(NoRefreshToken)
      ensures refreshToken != "" && authorize(refreshToken).Failure? ==> r == Failure(AuthorizeFailed)
      ensures r.Failure? ==> apiToken == old(apiToken) && configAccessToken == old(configAccessToken)
      ensures refreshToken != "" && authorize(refreshToken).Success? ==>
        r == Success(authorize(refreshToken).value)
        && apiToken == r.value.accessToken && configAccessToken == r.value.accessToken
    {
      if refreshToken == "" {
        return Failure(NoRefreshToken);
      }
      var resp := authorize(refreshToken);
      if resp.Failure? {
        return Failure(AuthorizeFailed);
      }
      apiToken := resp.value.accessToken;
      configAccessToken := resp.value.accessToken;
      r := Success(resp.value);
    }

    /**
     * HandleAuthCallback: exchanges the code; on success the new access token becomes
     * current and the athlete is saved with that token, no refresh token and expiry 0.
     * A failed save is only logged: the call still succeeds, with the table unchanged.
     */
    method HandleAuthCallback(code: string, authorize: string -> Result<AuthResponse, string>,
                              users: UserTable, now: Time)
      returns (r: Result<AuthResponse, StravaError>)
      requires users.Valid()
      modifies this, users
      ensures users.Valid() && users.nextId == old(users.nextId)
      ensures authorize(code).Failure? ==>
        r == Failure(AuthorizeFailed) && apiToken == old(apiToken) && configAccessToken == old(configAccessToken)
        && users.rows == old(users.rows)
      ensures authorize(code).Success? ==>
        var resp := authorize(code).value;
        var saved := AthleteSaved(old(users.rows), resp.athlete, resp.accessToken, "", 0, now);
        r == Success(resp) && apiToken == resp.accessToken && configAccessToken == resp.accessToken
        && users.rows == (if saved.Success? then saved.value else old(users.rows))
    {
      var resp := authorize(code);
      if resp.Failure? {
        return Failure(AuthorizeFailed);
      }
      apiToken := resp.value.accessToken;
      configAccessToken := resp.value.accessToken;
      var err := users.SaveAthlete(resp.value.athlete, resp.value.accessToken, "", 0, now);
      r := Success(resp.value);
    }
  }

  /** The converted records, in order, skipping those whose conversion failed. */
  function Converted<A, M>(xs: seq<A>, convert: A -> Result<M, string>): (ms: seq<M>)
    ensures |ms| <= |xs|
    ensures forall j :: 0 <= j < |ms| ==> exists i :: 0 <= i < |xs| && convert(xs[i]) == Success(ms[j])
  {
    if xs == [] then []
    else
      var init := Converted(xs[..|xs| - 1], convert);
      match convert(xs[|xs| - 1])
      case Success(m) => init + [m]
      case Failure(_) => init
  }

  /** The records of `ms` that the store accepted, in order. */
  function Accepted<M>(ms: seq<M>, save: M -> bool): (s: seq<M>)
    ensures |s| <= |ms|
    ensures forall i :: 0 <= i < |s| ==> save(s[i]) && s[i] in ms
  {
    if ms == [] then []
    else Accepted(ms[..|ms| - 1], save) + (if save(ms[|ms| - 1]) then [ms[|ms| - 1]] else [])
  }

  /**
   * A record whose conversion fails costs only itself: the records of two batches are
   * converted as if each batch were fetched alone.
   */
  lemma {:induction false} ConvertedConcat<A, M>(xs: seq<A>, ys: seq<A>, convert: A -> Result<M, string>)
    ensures Converted(xs + ys, convert) == Converted(xs, convert) + Converted(ys, convert)
    decreases |ys|
  {
    if ys != [] {
      var zs := xs + ys;
      var ys' := ys[..|ys| - 1];
      assert zs[..|zs| - 1] == xs + ys';
      assert zs[|zs| - 1] == ys[|ys| - 1];
      ConvertedConcat(xs, ys', convert);
    } else {
      assert xs + ys == xs;
    }
  }

  /** When every conversion succeeds, every record is handed to the store. */
  lemma {:induction false} ConvertedAll<A, M>(xs: seq<A>, convert: A -> Result<M, string>)
    requires forall i :: 0 <= i < |xs| ==> convert(xs[i]).Success?
    ensures |Converted(xs, convert)| == |xs|
    ensures forall i :: 0 <= i < |xs| ==> Converted(xs, convert)[i] == convert(xs[i]).value
    decreases |xs|
  {
    if xs != [] {
      var init := xs[..|xs| - 1];
      ConvertedAll(init, convert);
      assert forall i :: 0 <= i < |init| ==> init[i] == xs[i];
    }
  }

  /**
   * FetchActivities: one listing request for activities after `after` (first page,
   * `limit` per page). A failed listing is an error and nothing is handed to the store.
   * Otherwise every activity is converted and, if that works, handed to the store;
   * conversion and store failures are skipped, and the call succeeds. `attempted` is
   * what was handed to the store, `saved` what it accepted.
   */
  method FetchActivities<A, M>(after: Time, limit: int,
                               list: ListRequest -> Result<seq<A>, string>,
                               convert: A -> Result<M, string>,
                               save: M -> bool)
    returns (err: Option<StravaError>, attempted: seq<M>, saved: seq<M>)
    ensures var listing := list(ListRequest(ToUnix(after), 1, limit));
      (err.Some? <==> listing.Failure?)
      && (err.Some? ==> err.value == ListFailed && attempted == [] && saved == [])
      && (listing.Success? ==> attempted == Converted(listing.value, convert) && saved == Accepted(attempted, save))
  {
    var listing := list(ListRequest(ToUnix(after), 1, limit));
    if listing.Failure? {
      return Some(ListFailed), [], [];
    }
    var activities := listing.value;
    attempted, saved := [], [];
    for i := 0 to |activities|
      invariant attempted == Converted(activities[..i], convert)
      invariant saved == Accepted(attempted, save)
    {
      assert activities[..i + 1][..i] == activities[..i];
      var m := convert(activities[i]);
      if m.Failure? {
        continue;
      }
      assert attempted + [m.value] == Converted(activities[..i + 1], convert);
      attempted := attempted + [m.value];
      if !save(m.value) {
        continue;
      }
      saved := saved + [m.value];
    }
    assert activities[..|activities|] == activities;
    err := None;
  }
}
