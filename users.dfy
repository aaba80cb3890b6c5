/**
 * The users table, as internal/db/user.go and the athlete upsert of
 * internal/strava/strava.go use it together: an id primary key, a UNIQUE username,
 * the athlete id, the athlete's names, location and sex, the two timestamps kept by
 * the store, and the Strava tokens with their expiry. Columns a statement never set
 * are NULL (None).
 */
module Users {
  import opened Wrappers
  import opened Clock
  import opened Store

  datatype UserRow = UserRow(
    id: int,
    username: string,
    athleteId: Option<int>,
    firstName: Option<string>,
    lastName: Option<string>,
    city: Option<string>,
    country: Option<string>,
    sex: Option<string>,
    createdAt: Time,
    updatedAt: Time,
    accessToken: Option<string>,
    refreshToken: Option<string>,
    tokenExpiresAt: Option<Time>)

  /** The Go User record the store functions return. */
  datatype User = User(
    id: int,
    username: string,
    athleteId: int,
    createdAt: Time,
    updatedAt: Time,
    accessToken: string,
    refreshToken: string,
    tokenExpiresAt: Time)

  /** The athlete fields of an OAuth token response that saveAthlete stores. */
  datatype Athlete = Athlete(id: int, firstName: string, lastName: string, city: string, country: string, gender: string)

  /** The columns of GetUserByID in the Strava client, NULLs kept as such. */
  datatype Profile = Profile(
    id: int,
    username: string,
    firstName: Option<string>,
    lastName: Option<string>,
    city: Option<string>,
    country: Option<string>,
    sex: Option<string>,
    createdAt: Time,
    updatedAt: Time,
    tokenExpiresAt: Option<Time>)

  predicate UsernameTaken(rows: map<int, UserRow>, username: string) {
    exists id :: id in rows && rows[id].username == username
  }

  predicate UsernamesUnique(rows: map<int, UserRow>) {
    forall i, j :: i in rows && j in rows && rows[i].username == rows[j].username ==> i == j
  }

  /** Another row than `id` already has `username`. */
  predicate UsernameTakenByOther(rows: map<int, UserRow>, username: string, id: int) {
    exists j :: j in rows && j != id && rows[j].username == username
  }

  /**
   * The SELECT of the three getters scanned into a User: the athlete id is not among
   * the selected columns and stays 0; a NULL token or expiry cannot be scanned into a
   * Go string or time.Time and is an error.
   */
  function Scanned(row: UserRow): (r: Result<User, DbError>)
    ensures r.Success? <==> row.accessToken.Some? && row.refreshToken.Some? && row.tokenExpiresAt.Some?
    ensures r.Failure? ==> r.error == NullColumn
    ensures r.Success? ==>
      r.value.id == row.id && r.value.username == row.username && r.value.athleteId == 0
      && r.value.createdAt == row.createdAt && r.value.updatedAt == row.updatedAt
      && Some(r.value.accessToken) == row.accessToken && Some(r.value.refreshToken) == row.refreshToken
      && Some(r.value.tokenExpiresAt) == row.tokenExpiresAt
  {
    match (row.accessToken, row.refreshToken, row.tokenExpiresAt)
    case (Some(access), Some(refresh), Some(expires)) =>
      Success(User(row.id, row.username, 0, row.createdAt, row.updatedAt, access, refresh, expires))
    case _ => Failure(NullColumn)
  }

  /**
   * saveAthlete: INSERT ... ON CONFLICT (id) DO UPDATE keyed by the athlete id. A known
   * athlete gets new names, location, sex, tokens and expiry (to_timestamp of the Unix
   * seconds) and a fresh updated_at. An unknown one is inserted with the empty username,
   * which the UNIQUE constraint refuses once any row has that username.
   */
  function AthleteSaved(rows: map<int, UserRow>, athlete: Athlete, accessToken: string, refreshToken: string,
                        expiresAt: int, now: Time): (r: Result<map<int, UserRow>, DbError>)
    ensures r.Failure? <==> athlete.id !in rows && UsernameTaken(rows, "")
    ensures r.Failure? ==> r.error == UniqueViolation
    ensures r.Success? ==>
      r.value.Keys == rows.Keys + {athlete.id}
      && (forall id :: id in rows && id != athlete.id ==> r.value[id] == rows[id])
  {
    var profile := (Some(athlete.firstName), Some(athlete.lastName), Some(athlete.city), Some(athlete.country), Some(athlete.gender));
    if athlete.id in rows then
      var row := rows[athlete.id];
      Success(rows[athlete.id := row.(firstName := profile.0, lastName := profile.1, city := profile.2,
                                    country := profile.3, sex := profile.4,
                                       accessToken := Some(accessToken), refreshToken := Some(refreshToken),
                                       tokenExpiresAt := Some(FromUnix(expiresAt)), updatedAt := now)])
    else if UsernameTaken(rows, "") then
      Failure(UniqueViolation)
    else
      Success(rows[athlete.id := UserRow(athlete.id, "", None, profile.0, profile.1, profile.2, profile.3, profile.4,
                                         now, now, Some(accessToken), Some(refreshToken), Some(FromUnix(expiresAt)))])
  }

  /**
   * Saving a known athlete keeps the row's username, athlete id and created_at and
   * stores exactly the given profile, tokens and expiry.
   */
  lemma SaveKnownAthlete(rows: map<int, UserRow>, athlete: Athlete, accessToken: string, refreshToken: string,
                         expiresAt: int, now: Time)
    requires athlete.id in rows
    ensures var r := AthleteSaved(rows, athlete, accessToken, refreshToken, expiresAt, now);
      r.Success?
      && var before, after := rows[athlete.id], r.value[athlete.id];
      after.id == before.id && after.username == before.username && after.athleteId == before.athleteId
      && after.createdAt == before.createdAt && after.updatedAt == now
      && after.firstName == Some(athlete.firstName) && after.lastName == Some(athlete.lastName)
      && after.city == Some(athlete.city) && after.country == Some(athlete.country) && after.sex == Some(athlete.gender)
      && after.accessToken == Some(accessToken) && after.refreshToken == Some(refreshToken)
      && after.tokenExpiresAt == Some(FromUnix(expiresAt)) && ToUnix(FromUnix(expiresAt)) == expiresAt
  {
  }

  /**
   * Saving a new athlete, while no row has the empty username, inserts one row under the
   * athlete's id with the username "", no athlete id (the statement does not set that
   * column), the given profile, tokens and expiry, and both timestamps now.
   */
  lemma SaveNewAthlete(rows: map<int, UserRow>, athlete: Athlete, accessToken: string, refreshToken: string,
                       expiresAt: int, now: Time)
    requires athlete.id !in rows && !UsernameTaken(rows, "")
    ensures var r := AthleteSaved(rows, athlete, accessToken, refreshToken, expiresAt, now);
      r.Success? && r.value.Keys == rows.Keys + {athlete.id}
      && var row := r.value[athlete.id];
      row.id == athlete.id && row.username == "" && row.athleteId.None?
      && row.firstName == Some(athlete.firstName) && row.lastName == Some(athlete.lastName)
      && row.city == Some(athlete.city) && row.country == Some(athlete.country) && row.sex == Some(athlete.gender)
      && row.createdAt == now && row.updatedAt == now
      && row.accessToken == Some(accessToken) && row.refreshToken == Some(refreshToken)
      && row.tokenExpiresAt == Some(FromUnix(expiresAt))
  {
  }

  /**
   * Because every new athlete gets the username "", only the first new athlete can be
   * saved: after it, saving any other athlete not yet in the table fails.
   */
  lemma SecondNewAthleteRejected(rows: map<int, UserRow>, a: Athlete, b: Athlete, access: string, refresh: string,
                                 expiresAt: int, now: Time)
    requires a.id !in rows && b.id != a.id && b.id !in rows
    requires AthleteSaved(rows, a, access, refresh, expiresAt, now).Success?
    ensures var after := AthleteSaved(rows, a, access, refresh, expiresAt, now).value;
      AthleteSaved(after, b, access, refresh, expiresAt, now) == Failure(UniqueViolation)
  {
    var after := AthleteSaved(rows, a, access, refresh, expiresAt, now).value;
    assert after[a.id].username == "";
  }

  /** Saving an athlete keeps usernames unique and rows under their own ids. */
  lemma SavePreservesUnique(rows: map<int, UserRow>, athlete: Athlete, accessToken: string, refreshToken: string,
                            expiresAt: int, now: Time)
    requires UsernamesUnique(rows) && forall id :: id in rows ==> rows[id].id == id
    ensures var r := AthleteSaved(rows, athlete, accessToken, refreshToken, expiresAt, now);
      r.Success? ==> UsernamesUnique(r.value) && forall id :: id in r.value ==> r.value[id].id == id
  {
  }

  class UserTable {
    var rows: map<int, UserRow>
    /** The id the store hands to the next CreateUser. */
    var nextId: int

    /** Rows sit under their own id and no two share a username. */
    predicate Valid()
      reads this
    {
      (forall id :: id in rows ==> rows[id].id == id) && UsernamesUnique(rows)
    }

    constructor ()
      ensures Valid() && rows == map[] && nextId == 1
    {
      rows := map[];
      nextId := 1;
    }

    /**
     * CreateUser: the new row has the given username and athlete id, an id from the
     * store, both timestamps now, and no tokens; a username or id already present is a
     * unique violation. The returned record echoes the inputs with the stored id and times.
     */
    method CreateUser(username: string, athleteId: int, now: Time) returns (r: Result<User, DbError>)
      requires Valid()
      modifies this
      ensures Valid() && nextId == old(nextId) + 1
      ensures UsernameTaken(old(rows), username) || old(nextId) in old(rows) ==>
        r == Failure(UniqueViolation) && rows == old(rows)
      ensures !UsernameTaken(old(rows), username) && old(nextId) !in old(rows) ==>
        rows == old(rows)[old(nextId) := UserRow(old(nextId), username, Some(athleteId), None, None, None, None, None,
                                                 now, now, None, None, None)]
        && r == Success(User(old(nextId), username, athleteId, now, now, "", "", ZeroTime))
    {
      var id := nextId;
      nextId := nextId + 1;
      if UsernameTaken(rows, username) || id in rows {
        return Failure(UniqueViolation);
      }
      rows := rows[id := UserRow(id, username, Some(athleteId), None, None, None, None, None, now, now, None, None, None)];
      r := Success(User(id, username, athleteId, now, now, "", "", ZeroTime));
    }

    /** GetUserByID: no row is an error; otherwise the scanned row. */
    method GetUserByID(id: int) returns (r: Result<User, DbError>)
      requires Valid()
      ensures id !in rows ==> r == Failure(NoRows)
      ensures id in rows ==> r == Scanned(rows[id])
      ensures r.Success? ==> r.value.id == id
    {
      if id !in rows {
        return Failure(NoRows);
      }
      r := Scanned(rows[id]);
    }

    /** GetUserByUsername: the one row with that username, scanned, or an error when none has it. */
    method GetUserByUsername(username: string) returns (r: Result<User, DbError>)
      requires Valid()
      ensures !UsernameTaken(rows, username) ==> r == Failure(NoRows)
      ensures forall id :: id in rows && rows[id].username == username ==> r == Scanned(rows[id])
    {
      if id :| id in rows && rows[id].username == username {
        r := Scanned(rows[id]);
      } else {
        r := Failure(NoRows);
      }
    }

    /**
     * GetUserByAthleteID: "no rows" exactly when no row has that athlete id; otherwise
     * some row with it, scanned. Several rows may share an athlete id; which one comes
     * back is unspecified.
     */
    method GetUserByAthleteID(athleteId: int) returns (r: Result<User, DbError>)
      requires Valid()
      ensures (forall id :: id in rows ==> rows[id].athleteId != Some(athleteId)) ==> r == Failure(NoRows)
      ensures (exists id :: id in rows && rows[id].athleteId == Some(athleteId)) ==>
        exists id :: id in rows && rows[id].athleteId == Some(athleteId) && r == Scanned(rows[id])
    {
      if id :| id in rows && rows[id].athleteId == Some(athleteId) {
        r := Scanned(rows[id]);
      } else {
        r := Failure(NoRows);
      }
    }

    /**
     * UpdateUser: sets username, athlete id and updated_at of the row with the record's
     * id and nothing else; no such row is not an error; a username held by another row
     * is a unique violation.
     */
    method UpdateUser(u: User, now: Time) returns (err: Option<DbError>)
      requires Valid()
      modifies this
      ensures Valid() && nextId == old(nextId)
      ensures u.id !in old(rows) ==> err == None && rows == old(rows)
      ensures u.id in old(rows) && UsernameTakenByOther(old(rows), u.username, u.id) ==>
        err == Some(UniqueViolation) && rows == old(rows)
      ensures u.id in old(rows) && !UsernameTakenByOther(old(rows), u.username, u.id) ==>
        err == None
        && rows == old(rows)[u.id := old(rows)[u.id].(username := u.username, athleteId := Some(u.athleteId), updatedAt := now)]
    {
      if u.id !in rows {
        return None;
      }
      if UsernameTakenByOther(rows, u.username, u.id) {
        return Some(UniqueViolation);
      }
      rows := rows[u.id := rows[u.id].(username := u.username, athleteId := Some(u.athleteId), updatedAt := now)];
      err := None;
    }

    /** DeleteUser: afterwards the id is absent; deleting an absent id is not an error. */
    method DeleteUser(id: int) returns (err: Option<DbError>)
      requires Valid()
      modifies this
      ensures Valid() && nextId == old(nextId)
      ensures err == None && rows == old(rows) - {id}
    {
      rows := rows - {id};
      err := None;
    }

    /** saveAthlete: the upsert AthleteSaved describes; a refused insert changes nothing. */
    method SaveAthlete(athlete: Athlete, accessToken: string, refreshToken: string, expiresAt: int, now: Time)
      returns (err: Option<DbError>)
      requires Valid()
      modifies this
      ensures Valid() && nextId == old(nextId)
      ensures var r := AthleteSaved(old(rows), athlete, accessToken, refreshToken, expiresAt, now);
        (r.Success? ==> err == None && rows == r.value)
        && (r.Failure? ==> err == Some(r.error) && rows == old(rows))
    {
      var r := AthleteSaved(rows, athlete, accessToken, refreshToken, expiresAt, now);
      SavePreservesUnique(rows, athlete, accessToken, refreshToken, expiresAt, now);
      if r.Failure? {
        return Some(r.error);
      }
      rows := r.value;
      err := None;
    }

    /** The Strava client's GetUserByID: the stored columns, or nothing (and no error) when absent. */
    method GetProfile(id: int) returns (r: Option<Profile>)
      requires Valid()
      ensures r.None? <==> id !in rows
      ensures r.Some? ==> var row := rows[id];
        r.value == Profile(id, row.username, row.firstName, row.lastName, row.city, row.country, row.sex,
                           row.createdAt, row.updatedAt, row.tokenExpiresAt)
    {
      if id !in rows {
        return None;
      }
      var row := rows[id];
      r := Some(Profile(id, row.username, row.firstName, row.lastName, row.city, row.country, row.sex,
                        row.createdAt, row.updatedAt, row.tokenExpiresAt));
    }
  }
}
