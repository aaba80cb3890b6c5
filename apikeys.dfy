/**
 * The api_keys table (internal/db/user_api_keys.go): a BIGSERIAL id, UNIQUE key text,
 * description, created_at defaulting to NOW(), an optional expiry (the zero instant
 * when none was given), is_active defaulting to TRUE, and an optional owning user.
 * The table is a map from id to row; `nextId` is the id sequence, which an INSERT
 * advances even when the row is then refused.
 */
module ApiKeys {
  import opened Wrappers
  import opened Clock
  import opened Rfc3339
  import opened Store
  import opened Sets

  datatype ApiKey = ApiKey(
    id: int,
    key: string,
    description: string,
    createdAt: Time,
    expiresAt: Time,
    isActive: bool,
    userId: Option<int>)

  /** The lazy validity check of ValidateAPIKey for the row it found. */
  predicate IsLive(k: ApiKey, now: Time) {
    k.isActive && (k.expiresAt == ZeroTime || !(k.expiresAt < now))
  }

  predicate HasKey(rows: map<int, ApiKey>, key: string) {
    exists id :: id in rows && rows[id].key == key
  }

  /** A key validates iff some row carries it and that row is live. */
  predicate KeyValid(rows: map<int, ApiKey>, key: string, now: Time) {
    exists id :: id in rows && rows[id].key == key && IsLive(rows[id], now)
  }

  predicate KeysUnique(rows: map<int, ApiKey>) {
    forall i, j :: i in rows && j in rows && rows[i].key == rows[j].key ==> i == j
  }

  /** Another row than `id` already carries `key`. */
  predicate KeyTakenByOther(rows: map<int, ApiKey>, key: string, id: int) {
    exists j :: j in rows && j != id && rows[j].key == key
  }

  /** The expiry CreateAPIKey stores: the zero instant for none, the parsed instant, or None on a parse error. */
  function ParsedExpiry(expiresAt: Option<string>): Option<Time> {
    match expiresAt
    case None => Some(ZeroTime)
    case Some(text) => Parse(text)
  }

  /**
   * What the expires_at column (TIMESTAMP, without time zone) keeps of the expiry: the
   * zero instant for none, otherwise the wall clock of the text with its offset dropped.
   */
  function StoredExpiry(expiresAt: Option<string>): (r: Option<Time>)
    ensures r.Some? <==> ParsedExpiry(expiresAt).Some?
    ensures expiresAt.None? ==> r == Some(ZeroTime)
    ensures r.Some? ==> -SecondsPerDay < r.value - ParsedExpiry(expiresAt).value < SecondsPerDay
  {
    match expiresAt
    case None => Some(ZeroTime)
    case Some(text) => WallClock(text)
  }

  /** UPDATE api_keys SET user_id = userId WHERE key = key. */
  function Associated(rows: map<int, ApiKey>, key: string, userId: int): map<int, ApiKey> {
    map id | id in rows :: if rows[id].key == key then rows[id].(userId := Some(userId)) else rows[id]
  }

  /**
   * The validity rule case by case: an inactive key is never valid; an active key
   * without expiry always is; otherwise it is valid up to and including its expiry.
   */
  lemma ValidityCases(k: ApiKey, now: Time)
    ensures !k.isActive ==> !IsLive(k, now)
    ensures k.isActive && k.expiresAt == ZeroTime ==> IsLive(k, now)
    ensures k.isActive && k.expiresAt != ZeroTime ==> (IsLive(k, now) <==> now <= k.expiresAt)
  {
  }

  /** Association touches only user_id, and only on rows carrying the key. */
  lemma AssociatedOnlyOwner(rows: map<int, ApiKey>, key: string, userId: int)
    ensures var after := Associated(rows, key, userId);
      after.Keys == rows.Keys
      && (forall id :: id in rows ==> after[id].(userId := rows[id].userId) == rows[id])
      && (forall id :: id in rows ==> after[id].userId == if rows[id].key == key then Some(userId) else rows[id].userId)
  {
  }

  /** Associating a key no other row carries sets the owner of its own row only. */
  lemma AssociateFresh(rows: map<int, ApiKey>, id: int, k: ApiKey, userId: int)
    requires !HasKey(rows, k.key)
    ensures Associated(rows[id := k], k.key, userId) == rows[id := k.(userId := Some(userId))]
  {
    var a, b := Associated(rows[id := k], k.key, userId), rows[id := k.(userId := Some(userId))];
    assert a.Keys == b.Keys;
    forall j | j in a
      ensures a[j] == b[j]
    {
      if j != id {
        assert rows[j].key != k.key;
      }
    }
  }

  class ApiKeyTable {
    var rows: map<int, ApiKey>
    var nextId: int

    /** Rows sit under their own id, below the sequence, and no two share key material. */
    predicate Valid()
      reads this
    {
      1 <= nextId && (forall id :: id in rows ==> rows[id].id == id && 1 <= id < nextId) && KeysUnique(rows)
    }

    constructor ()
      ensures Valid() && rows == map[] && nextId == 1
    {
      rows := map[];
      nextId := 1;
    }

    /** ValidateAPIKey: an unknown key is (false, no error), not an error. */
    method ValidateAPIKey(key: string, now: Time) returns (valid: bool)
      requires Valid()
      ensures valid == KeyValid(rows, key, now)
      ensures !HasKey(rows, key) ==> !valid
    {
      if id :| id in rows && rows[id].key == key {
        valid := IsLive(rows[id], now);
      } else {
        valid := false;
      }
    }

    /**
     * CreateAPIKey: a malformed expiry is refused before anything is written; a repeated
     * key is refused by the UNIQUE constraint after the id sequence has advanced;
     * otherwise the new row is active, has no owner, was created now, and holds the
     * given key and description and the expiry's wall clock. The returned record carries
     * the parsed instant instead, which differs from the stored expiry by the text's
     * offset.
     */
    method CreateAPIKey(key: string, description: string, expiresAt: Option<string>, now: Time)
      returns (r: Result<ApiKey, DbError>)
      requires Valid()
      modifies this
      ensures Valid()
      ensures ParsedExpiry(expiresAt).None? ==>
        r == Failure(InvalidTimestamp) && rows == old(rows) && nextId == old(nextId)
      ensures ParsedExpiry(expiresAt).Some? && HasKey(old(rows), key) ==>
        r == Failure(UniqueViolation) && rows == old(rows) && nextId == old(nextId) + 1
      ensures ParsedExpiry(expiresAt).Some? && !HasKey(old(rows), key) ==>
        var k := ApiKey(old(nextId), key, description, now, ParsedExpiry(expiresAt).value, true, None);
        r == Success(k) && rows == old(rows)[k.id := k.(expiresAt := StoredExpiry(expiresAt).value)]
        && nextId == old(nextId) + 1
    {
      var expiry := ParsedExpiry(expiresAt);
      if expiry.None? {
        return Failure(InvalidTimestamp);
      }
      var id := nextId;
      nextId := nextId + 1;
      if HasKey(rows, key) {
        return Failure(UniqueViolation);
      }
      var k := ApiKey(id, key, description, now, expiry.value, true, None);
      rows := rows[id := k.(expiresAt := StoredExpiry(expiresAt).value)];
      r := Success(k);
    }

    /** ReadAPIKeyByID: the row stored under the id, or an error when there is none. */
    method ReadAPIKeyByID(id: int) returns (r: Result<ApiKey, DbError>)
      requires Valid()
      ensures r.Success? <==> id in rows
      ensures r.Success? ==> r.value == rows[id] && r.value.id == id
      ensures r.Failure? ==> r.error == NoRows
    {
      if id in rows {
        r := Success(rows[id]);
      } else {
        r := Failure(NoRows);
      }
    }

    /**
     * UpdateAPIKey: overwrites key, description, expiry, active flag and owner of the row
     * with the record's id and returns the record with the stored created_at.
     */
    method UpdateAPIKey(k: ApiKey) returns (r: Result<ApiKey, DbError>)
      requires Valid()
      modifies this
      ensures Valid() && nextId == old(nextId)
      ensures k.id !in old(rows) ==> r == Failure(NoRows) && rows == old(rows)
      ensures k.id in old(rows) && KeyTakenByOther(old(rows), k.key, k.id) ==>
        r == Failure(UniqueViolation) && rows == old(rows)
      ensures k.id in old(rows) && !KeyTakenByOther(old(rows), k.key, k.id) ==>
        var u := k.(createdAt := old(rows)[k.id].createdAt);
        r == Success(u) && rows == old(rows)[k.id := u]
    {
      if k.id !in rows {
        return Failure(NoRows);
      }
      if KeyTakenByOther(rows, k.key, k.id) {
        return Failure(UniqueViolation);
      }
      var u := k.(createdAt := rows[k.id].createdAt);
      rows := rows[k.id := u];
      r := Success(u);
    }

    /** DeleteAPIKey: deleting an absent id is an error; afterwards the id is gone. */
    method DeleteAPIKey(id: int) returns (err: Option<DbError>)
      requires Valid()
      modifies this
      ensures Valid() && nextId == old(nextId)
      ensures id !in old(rows) ==> err == Some(NoRows) && rows == old(rows)
      ensures id in old(rows) ==> err == None && rows == old(rows) - {id}
    {
      if id !in rows {
        return Some(NoRows);
      }
      rows := rows - {id};
      err := None;
    }

    /** AssociateAPIKeyWithUser: sets the owner of every row carrying the key; never an error. */
    method AssociateAPIKeyWithUser(key: string, userId: int) returns (err: Option<DbError>)
      requires Valid()
      modifies this
      ensures Valid() && nextId == old(nextId)
      ensures err == None && rows == Associated(old(rows), key, userId)
    {
      rows := Associated(rows, key, userId);
      err := None;
    }

    /** ReadApiKeyByUserID: exactly the rows owned by the user, each once, in no particular order. */
    method ReadApiKeyByUserID(userId: int) returns (r: seq<ApiKey>)
      requires Valid()
      ensures forall i :: 0 <= i < |r| ==> r[i].id in rows && rows[r[i].id] == r[i] && r[i].userId == Some(userId)
      ensures forall id :: id in rows && rows[id].userId == Some(userId) ==> rows[id] in r
      ensures forall i, j :: 0 <= i < j < |r| ==> r[i].id != r[j].id
    {
      var remaining := rows.Keys;
      r := [];
      while remaining != {}
        invariant remaining <= rows.Keys
        invariant forall i :: 0 <= i < |r| ==>
          r[i].id in rows && rows[r[i].id] == r[i] && r[i].userId == Some(userId) && r[i].id !in remaining
        invariant forall id :: id in rows && id !in remaining && rows[id].userId == Some(userId) ==> rows[id] in r
        invariant forall i, j :: 0 <= i < j < |r| ==> r[i].id != r[j].id
        decreases remaining
      {
        EmptyOrMember(remaining);
        var id :| id in remaining;
        if rows[id].userId == Some(userId) {
          r := r + [rows[id]];
        }
        remaining := remaining - {id};
      }
    }
  }
}
