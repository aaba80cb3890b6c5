/**
 * The activities table (internal/db/activities.go). The primary key is the Strava
 * activity id, chosen by the caller; created_at and updated_at are set by the store.
 * Inserting an id that is already present updates that row instead (an upsert), so the
 * caller's record replaces every payload column while created_at survives.
 */
module Activities {
  import opened Wrappers
  import opened Clock
  import opened Store
  import opened Sets

  /** A float64 column. The store only copies these values; their arithmetic plays no part. */
  datatype Float64 = Float64(bits: bv64)

  /** The payload columns: everything except id, created_at and updated_at. */
  datatype ActivityData = ActivityData(
    name: string,
    description: string,
    activityType: string,
    distance: Float64,
    movingTime: int,
    elapsedTime: int,
    totalElevationGain: Float64,
    startDate: Time,
    startDateLocal: Time,
    timezone: string,
    startLatLng: string,
    endLatLng: string,
    achievementCount: int,
    kudosCount: int,
    commentCount: int,
    athleteCount: int,
    photoCount: int,
    mapId: string,
    mapPolyline: string,
    trainer: bool,
    commute: bool,
    manual: bool,
    isPrivate: bool,
    visibility: string,
    flagged: bool,
    workoutType: int,
    averageSpeed: Float64,
    maxSpeed: Float64,
    hasHeartRate: bool,
    averageHeartRate: Float64,
    maxHeartRate: Float64,
    elevHigh: Float64,
    elevLow: Float64,
    uploadId: int,
    uploadIdStr: string,
    externalId: string,
    athleteId: int)

  datatype Activity = Activity(id: int, data: ActivityData, createdAt: Time, updatedAt: Time)

  /**
   * INSERT ... ON CONFLICT (id) DO UPDATE: the row under the record's id afterwards. A new
   * row gets both timestamps from NOW(); an existing one keeps created_at. The record's
   * own timestamps are not columns of the statement and are ignored.
   */
  function Upserted(rows: map<int, Activity>, a: Activity, now: Time): (r: map<int, Activity>)
    ensures r.Keys == rows.Keys + {a.id}
    ensures r[a.id].id == a.id && r[a.id].data == a.data && r[a.id].updatedAt == now
    ensures r[a.id].createdAt == if a.id in rows then rows[a.id].createdAt else now
    ensures forall id :: id in rows && id != a.id ==> r[id] == rows[id]
  {
    var createdAt := if a.id in rows then rows[a.id].createdAt else now;
    rows[a.id := Activity(a.id, a.data, createdAt, now)]
  }

  /** Upserting an absent id inserts exactly the given payload, created and updated now. */
  lemma UpsertInserts(rows: map<int, Activity>, a: Activity, now: Time)
    requires a.id !in rows
    ensures Upserted(rows, a, now) == rows[a.id := Activity(a.id, a.data, now, now)]
  {
  }

  /**
   * Upserting the same record twice leaves what upserting it once leaves, apart from
   * updated_at, which records the second call.
   */
  lemma UpsertTwice(rows: map<int, Activity>, a: Activity, t1: Time, t2: Time)
    ensures var once := Upserted(rows, a, t1);
      Upserted(once, a, t2) == once[a.id := once[a.id].(updatedAt := t2)]
  {
  }

  /** The ids of a list of activities. */
  function Ids(r: seq<Activity>): set<int> {
    set i | 0 <= i < |r| :: r[i].id
  }

  /** Appending one activity adds its id. */
  lemma IdsAppend(r: seq<Activity>, a: Activity)
    ensures Ids(r + [a]) == Ids(r) + {a.id}
  {
    var s := r + [a];
    assert s[|r|].id == a.id;
    forall id | id in Ids(r)
      ensures id in Ids(s)
    {
      var i :| 0 <= i < |r| && r[i].id == id;
      assert s[i].id == id;
    }
  }

  /**
   * SELECT * FROM activities ORDER BY start_date DESC LIMIT n: min(n, |rows|) stored
   * rows, no row twice, latest start first, and no omitted row starts later than any
   * returned one. Rows with equal start dates may come in any order.
   */
  predicate IsLatest(rows: map<int, Activity>, limit: nat, r: seq<Activity>) {
    |r| == (if limit < |rows| then limit else |rows|)
    && (forall i :: 0 <= i < |r| ==> r[i].id in rows && rows[r[i].id] == r[i])
    && (forall i, j :: 0 <= i < j < |r| ==> r[i].id != r[j].id)
    && (forall i, j :: 0 <= i < j < |r| ==> r[j].data.startDate <= r[i].data.startDate)
    && (forall id, i :: id in rows && id !in Ids(r) && 0 <= i < |r| ==> rows[id].data.startDate <= r[i].data.startDate)
  }

  /** The first k rows of an answer for a LIMIT of at least k are an answer for LIMIT k. */
  lemma LatestPrefix(rows: map<int, Activity>, limit: nat, r: seq<Activity>, k: nat)
    requires IsLatest(rows, limit, r) && k <= limit
    ensures IsLatest(rows, k, r[..(if k < |r| then k else |r|)])
  {
    var n := if k < |r| then k else |r|;
    var p := r[..n];
    assert |p| == (if k < |rows| then k else |rows|);
    assert forall i :: 0 <= i < |p| ==> p[i] == r[i];
    forall j | 0 <= j < n
      ensures p[j].id in Ids(p)
    {
    }
    forall id, i | id in rows && id !in Ids(p) && 0 <= i < |p|
      ensures rows[id].data.startDate <= p[i].data.startDate
    {
      if id in Ids(r) {
        var j :| 0 <= j < |r| && r[j].id == id;
        assert n <= j;
      }
    }
  }

  /** Every non-empty set of stored ids has a member with the latest start date. */
  lemma {:induction false} LatestExists(rows: map<int, Activity>, s: set<int>)
    requires s <= rows.Keys && s != {}
    ensures exists m :: m in s && forall j :: j in s ==> rows[j].data.startDate <= rows[m].data.startDate
    decreases s
  {
    EmptyOrMember(s);
    var x :| x in s;
    var rest := s - {x};
    EmptyOrMember(rest);
    if rest == {} {
      forall j | j in s
        ensures j == x
      {
        assert j !in rest;
      }
    } else {
      LatestExists(rows, rest);
      var m :| m in rest && forall j :: j in rest ==> rows[j].data.startDate <= rows[m].data.startDate;
      if rows[x].data.startDate <= rows[m].data.startDate {
        assert forall j :: j in s ==> j == x || j in rest;
      } else {
        assert forall j :: j in s ==> j == x || j in rest;
      }
    }
  }

  /** The state of the selection loop in GetLastActivities: a prefix of the answer and the rows not yet picked. */
  predicate Selection(rows: map<int, Activity>, limit: nat, remaining: set<int>, picked: seq<Activity>) {
    remaining <= rows.Keys
    && (forall id :: id in rows ==> (id in remaining <==> id !in Ids(picked)))
    && |picked| + |remaining| == |rows| && |picked| <= limit
    && (forall i :: 0 <= i < |picked| ==> picked[i].id in rows && rows[picked[i].id] == picked[i])
    && (forall i, j :: 0 <= i < j < |picked| ==> picked[i].id != picked[j].id)
    && (forall i, j :: 0 <= i < j < |picked| ==> picked[j].data.startDate <= picked[i].data.startDate)
    && (forall id, i :: id in remaining && 0 <= i < |picked| ==> rows[id].data.startDate <= picked[i].data.startDate)
  }

  /** Picking a latest remaining row keeps the selection state. */
  lemma SelectionStep(rows: map<int, Activity>, limit: nat, remaining: set<int>, picked: seq<Activity>, m: int)
    requires forall id :: id in rows ==> rows[id].id == id
    requires Selection(rows, limit, remaining, picked) && |picked| < limit
    requires m in remaining && forall j :: j in remaining ==> rows[j].data.startDate <= rows[m].data.startDate
    ensures Selection(rows, limit, remaining - {m}, picked + [rows[m]])
  {
    StepIds(rows, remaining, picked, m);
    StepRows(rows, remaining, picked, m);
    StepOrder(rows, remaining, picked, m);
  }

  /** The picked ids and the remaining ids still partition the table. */
  lemma StepIds(rows: map<int, Activity>, remaining: set<int>, picked: seq<Activity>, m: int)
    requires forall id :: id in rows ==> rows[id].id == id
    requires remaining <= rows.Keys && m in remaining
    requires forall id :: id in rows ==> (id in remaining <==> id !in Ids(picked))
    requires |picked| + |remaining| == |rows|
    ensures var next, rest := picked + [rows[m]], remaining - {m};
      rest <= rows.Keys
      && (forall id :: id in rows ==> (id in rest <==> id !in Ids(next)))
      && |next| + |rest| == |rows|
  {
    IdsAppend(picked, rows[m]);
  }

  /** The new entry is a stored row whose id was not picked before. */
  lemma StepRows(rows: map<int, Activity>, remaining: set<int>, picked: seq<Activity>, m: int)
    requires m in remaining && remaining <= rows.Keys
    requires forall id :: id in rows ==> (id in remaining <==> id !in Ids(picked))
    requires forall i :: 0 <= i < |picked| ==> picked[i].id in rows && rows[picked[i].id] == picked[i]
    requires forall i, j :: 0 <= i < j < |picked| ==> picked[i].id != picked[j].id
    requires forall id :: id in rows ==> rows[id].id == id
    ensures var next := picked + [rows[m]];
      (forall i :: 0 <= i < |next| ==> next[i].id in rows && rows[next[i].id] == next[i])
      && (forall i, j :: 0 <= i < j < |next| ==> next[i].id != next[j].id)
  {
    var next := picked + [rows[m]];
    forall i | 0 <= i < |picked|
      ensures picked[i].id != m
    {
      assert picked[i].id in Ids(picked);
    }
    assert forall i :: 0 <= i < |picked| ==> next[i] == picked[i];
    assert next[|picked|] == rows[m];
  }

  /** The new entry starts no later than the earlier ones and no earlier than what is left. */
  lemma StepOrder(rows: map<int, Activity>, remaining: set<int>, picked: seq<Activity>, m: int)
    requires m in remaining && remaining <= rows.Keys
    requires forall j :: j in remaining ==> rows[j].data.startDate <= rows[m].data.startDate
    requires forall i, j :: 0 <= i < j < |picked| ==> picked[j].data.startDate <= picked[i].data.startDate
    requires forall id, i :: id in remaining && 0 <= i < |picked| ==> rows[id].data.startDate <= picked[i].data.startDate
    ensures var next, rest := picked + [rows[m]], remaining - {m};
      (forall i, j :: 0 <= i < j < |next| ==> next[j].data.startDate <= next[i].data.startDate)
      && (forall id, i :: id in rest && 0 <= i < |next| ==> rows[id].data.startDate <= next[i].data.startDate)
  {
    var next := picked + [rows[m]];
    assert forall i :: 0 <= i < |picked| ==> next[i] == picked[i];
    assert next[|picked|] == rows[m];
  }

  /** The loop stops with the answer once the limit is reached or every row is picked. */
  lemma SelectionDone(rows: map<int, Activity>, limit: nat, remaining: set<int>, picked: seq<Activity>)
    requires Selection(rows, limit, remaining, picked)
    requires |picked| == limit || remaining == {}
    ensures IsLatest(rows, limit, picked)
  {
  }

  class ActivityTable {
    var rows: map<int, Activity>

    /** Every row sits under its own id. */
    predicate Valid()
      reads this
    {
      forall id :: id in rows ==> rows[id].id == id
    }

    constructor ()
      ensures Valid() && rows == map[]
    {
      rows := map[];
    }

    /** CreateActivity: the upsert, returning the stored row (RETURNING *). */
    method CreateActivity(a: Activity, now: Time) returns (stored: Activity)
      requires Valid()
      modifies this
      ensures Valid()
      ensures rows == Upserted(old(rows), a, now)
      ensures stored == rows[a.id]
    {
      rows := Upserted(rows, a, now);
      stored := rows[a.id];
    }

    /** GetActivityByID: the stored row, or an error (not an empty record) when there is none. */
    method GetActivityByID(id: int) returns (r: Result<Activity, DbError>)
      requires Valid()
      ensures r.Success? <==> id in rows
      ensures r.Success? ==> r.value == rows[id] && r.value.id == id
      ensures r.Failure? ==> r.error == NoRows
    {
      if id in rows {
        r := Success(rows[id]);
      } else {
        r := Failure(NoRows);
      }
    }

    /**
     * GetLastActivities: a negative LIMIT is an error of the store; otherwise the latest
     * rows by start date, as IsLatest describes them.
     */
    method GetLastActivities(limit: int) returns (r: Result<seq<Activity>, DbError>)
      requires Valid()
      ensures limit < 0 <==> r.Failure?
      ensures r.Failure? ==> r.error == NegativeLimit
      ensures r.Success? ==> IsLatest(rows, limit, r.value)
    {
      if limit < 0 {
        return Failure(NegativeLimit);
      }
      var remaining := rows.Keys;
      var picked: seq<Activity> := [];
      while |picked| < limit && remaining != {}
        invariant Selection(rows, limit, remaining, picked)
        decreases remaining
      {
        LatestExists(rows, remaining);
        var m :| m in remaining && forall j :: j in remaining ==> rows[j].data.startDate <= rows[m].data.startDate;
        SelectionStep(rows, limit, remaining, picked, m);
        picked := picked + [rows[m]];
        remaining := remaining - {m};
      }
      SelectionDone(rows, limit, remaining, picked);
      r := Success(picked);
    }

    /**
     * UpdateActivity: the row with the record's id gets the record's payload and a fresh
     * updated_at, keeping created_at; with no such row the statement returns nothing,
     * which is an error.
     */
    method UpdateActivity(a: Activity, now: Time) returns (r: Result<Activity, DbError>)
      requires Valid()
      modifies this
      ensures Valid()
      ensures a.id !in old(rows) ==> r == Failure(NoRows) && rows == old(rows)
      ensures a.id in old(rows) ==> rows == Upserted(old(rows), a, now) && r == Success(rows[a.id])
    {
      if a.id !in rows {
        return Failure(NoRows);
      }
      rows := Upserted(rows, a, now);
      r := Success(rows[a.id]);
    }

    /** DeleteActivity: afterwards the id is absent; deleting an absent id is not an error. */
    method DeleteActivity(id: int) returns (err: Option<DbError>)
      requires Valid()
      modifies this
      ensures Valid()
      ensures err == None && rows == old(rows) - {id}
    {
      rows := rows - {id};
      err := None;
    }
  }
}
