/** The idempotency_keys table: one row per (key, route), holding the hash of the
    request that inserted it and, once that request has finished, its response.
    Times are milliseconds. */
module IdempotencyTable {
  import opened Wrappers

  const DEFAULT_TTL_SECONDS: int := 24 * 60 * 60

  datatype Slot = Slot(key: string, route: string)

  datatype Stored = Stored(status: nat, body: string)

  // `owner` is bookkeeping of the model: the request whose insert made the row.
  datatype Row = Row(requestHash: string, response: Option<Stored>, expiresAt: int, owner: nat)

  type Table = map<Slot, Row>

  // What a lookup shows its caller; a row without a response is in flight.
  datatype StoredResponse =
    StoredResponse(status: nat, body: string, requestHash: string, inFlight: bool, owner: nat)

  function Found(t: Table, slot: Slot): Option<StoredResponse> {
    if slot !in t then None
    else
      var row := t[slot];
      match row.response
      case None => Some(StoredResponse(0, "", row.requestHash, true, row.owner))
      case Some(r) => Some(StoredResponse(r.status, r.body, row.requestHash, false, row.owner))
  }

  function Reserve(t: Table, slot: Slot, hash: string, ttlSeconds: int, now: int, owner: nat): Table {
    if slot in t then t else t[slot := Row(hash, None, now + 1000 * ttlSeconds, owner)]
  }

  // An UPDATE by primary key: whoever holds the slot now gets the response.
  function Complete(t: Table, slot: Slot, response: Stored): Table {
    if slot in t then t[slot := t[slot].(response := Some(response))] else t
  }

  function Expired(t: Table, now: int): set<Slot> {
    set slot | slot in t && t[slot].expiresAt < now
  }

  datatype DbError = DbError

  class IdempotencyRepository {
    var rows: Table

    constructor ()
      ensures rows == map[]
    {
      rows := map[];
    }

    method Lookup(slot: Slot, dbFails: bool) returns (r: Result<Option<StoredResponse>, DbError>)
      ensures r == if dbFails then Failure(DbError) else Success(Found(rows, slot))
      ensures !dbFails ==> (r.value.Some? <==> slot in rows)
      ensures !dbFails && slot in rows ==>
                var found, row := r.value.value, rows[slot];
                && found.requestHash == row.requestHash && found.owner == row.owner
                && (found.inFlight <==> row.response == None)
                && Stored(found.status, found.body) == match row.response case None => Stored(0, "") case Some(s) => s
    {
      if dbFails { return Failure(DbError); }
      if slot !in rows { return Success(None); }
      var row := rows[slot];
      var inFlight := row.response.None?;
      r := Success(Some(StoredResponse(
        if inFlight then 0 else row.response.value.status,
        if inFlight then "" else row.response.value.body,
        row.requestHash,
        inFlight,
        row.owner)));
    }

    // Atomic: the primary key makes the second of two racing inserts fail.
    method RecordInFlight(slot: Slot, hash: string, ttlSeconds: int, now: int, owner: nat, dbFails: bool)
      returns (r: Result<bool, DbError>)
      modifies this
      ensures dbFails ==> r == Failure(DbError) && rows == old(rows)
      ensures !dbFails ==> r == Success(slot !in old(rows))
      ensures !dbFails ==> rows == Reserve(old(rows), slot, hash, ttlSeconds, now, owner)
    {
      if dbFails { return Failure(DbError); }
      if slot in rows { return Success(false); }
      rows := rows[slot := Row(hash, None, now + 1000 * ttlSeconds, owner)];
      r := Success(true);
    }

    method Finalize(slot: Slot, response: Stored, dbFails: bool) returns (r: Result<(), DbError>)
      modifies this
      ensures dbFails ==> r == Failure(DbError) && rows == old(rows)
      ensures !dbFails ==> r == Success(()) && rows == Complete(old(rows), slot, response)
    {
      if dbFails { return Failure(DbError); }
      if slot in rows {
        rows := rows[slot := rows[slot].(response := Some(response))];
      }
      r := Success(());
    }

    method GcExpired(now: int) returns (removed: nat)
      modifies this
      ensures rows == old(rows) - Expired(old(rows), now)
      ensures removed == |Expired(old(rows), now)| == |old(rows)| - |rows|
      ensures forall slot :: slot in rows ==> now <= rows[slot].expiresAt
    {
      var gone := set slot | slot in rows && rows[slot].expiresAt < now;
      assert rows.Keys == (rows - gone).Keys + gone;
      assert |rows.Keys| == |(rows - gone).Keys| + |gone|;
      rows := rows - gone;
      removed := |gone|;
    }
  }
}
