/** The transactional outbox: its rows, the repository that changes them, and the publisher. */
module Outbox {
  import opened Basics

  const MAX_ATTEMPTS := 8
  const BACKOFF_CAP_SECONDS := 300

  datatype Json =
    | JNull
    | JBool(truth: bool)
    | JNumber(number: int)
    | JString(text: string)
    | JArray(items: seq<Json>)
    | JObject(fields: map<string, Json>)

  const REDACTED := JString("[redacted]")

  type Id = int

  datatype Row = Row(
    aggregateType: string,
    aggregateId: Option<int>,
    eventType: string,
    payload: map<string, Json>,
    sensitiveKeys: Option<seq<string>>,
    createdAt: Time,
    processedAt: Option<Time>,
    attempts: nat,
    lastError: Option<string>,
    nextAttemptAt: Option<Time>,
    failedAt: Option<Time>)
  {
    function Sensitive(): seq<string> {
      if sensitiveKeys.Some? then sensitiveKeys.value else []
    }

    predicate Pending() {
      processedAt.None? && failedAt.None?
    }

    predicate Due(now: Time) {
      Pending() && (nextAttemptAt.None? || nextAttemptAt.value <= now)
    }
  }

  /** A row as the unit of work writes it: an empty list of sensitive fields is stored as none. */
  function NewRow(aggregateType: string, aggregateId: Option<int>, eventType: string, payload: map<string, Json>,
                  sensitive: seq<string>, now: Time): Row {
    Row(aggregateType, aggregateId, eventType, payload, if sensitive == [] then None else Some(sensitive),
        now, None, 0, None, None, None)
  }

  datatype Message = Message(
    eventType: string, eventId: Id, aggregateType: string, aggregateId: Option<int>,
    payload: map<string, Json>, createdAt: Time)

  function Redacted(payload: map<string, Json>, keys: seq<string>): map<string, Json> {
    map k | k in payload :: if k in keys then REDACTED else payload[k]
  }

  /** What reaches the broker for a row. */
  function Wire(id: Id, row: Row): Message {
    Message(row.eventType, id, row.aggregateType, row.aggregateId, Redacted(row.payload, row.Sensitive()), row.createdAt)
  }

  function DropKeys(payload: map<string, Json>, keys: seq<string>): map<string, Json> {
    map k | k in payload && k !in keys :: payload[k]
  }

  function Processed(row: Row, now: Time): Row {
    row.(payload := DropKeys(row.payload, row.Sensitive()), sensitiveKeys := None,
         processedAt := Some(now), lastError := None)
  }

  /** `1 << n`. */
  function Shifted(n: nat): nat {
    if n == 0 then 1 else 2 * Shifted(n - 1)
  }

  lemma {:induction false} ShiftedGrows(few: nat, many: nat)
    requires few <= many
    ensures Shifted(few) <= Shifted(many)
  {
    if few < many {
      ShiftedGrows(few, many - 1);
    }
  }

  function BackoffDelay(attempts: nat): int {
    Seconds(Min(Shifted(attempts), BACKOFF_CAP_SECONDS))
  }

  function Truncated(error: string): string {
    if |error| <= 2000 then error else error[..2000]
  }

  /** A failed attempt: back off, or give up for good. */
  function Deferred(row: Row, error: string, now: Time): Row {
    var counted := row.(attempts := row.attempts + 1, lastError := Some(Truncated(error)));
    if counted.attempts >= MAX_ATTEMPTS
    then counted.(failedAt := Some(now), nextAttemptAt := None)
    else counted.(nextAttemptAt := Some(now + BackoffDelay(counted.attempts)))
  }

  /** Before its eighth failure an event becomes due again exactly two to the number of its failures in seconds later. */
  lemma FailureBacksOff(row: Row, error: string, now: Time, t: Time)
    requires row.Pending() && row.attempts < 7
    ensures Shifted(row.attempts + 1) == [2, 4, 8, 16, 32, 64, 128][row.attempts]
    ensures Deferred(row, error, now).Due(t) <==> t >= now + Seconds(Shifted(row.attempts + 1))
    ensures Deferred(row, error, now).attempts == row.attempts + 1
  {
    assert Shifted(1) == 2 && Shifted(2) == 4 && Shifted(3) == 8 && Shifted(4) == 16;
    assert Shifted(5) == 32 && Shifted(6) == 64 && Shifted(7) == 128;
  }

  /** The eighth failure is the last: the row is dead from that moment and never due. */
  lemma LastFailureIsFinal(row: Row, error: string, now: Time, t: Time)
    requires row.Pending() && row.attempts == 7
    ensures Deferred(row, error, now).failedAt == Some(now) && !Deferred(row, error, now).Due(t)
    ensures Deferred(row, error, now).attempts == 8
  {
  }

  /** Either way the row keeps the first two thousand characters of the error, and all of the event. */
  lemma FailureIsRecorded(row: Row, error: string, now: Time)
    ensures var after := Deferred(row, error, now);
            && after.lastError.Some? && after.lastError.value <= error && |after.lastError.value| == Min(|error|, 2000)
            && after.(attempts := row.attempts, lastError := row.lastError, nextAttemptAt := row.nextAttemptAt, failedAt := row.failedAt) == row
  {
  }

  /** A processed row has no error left, has lost its sensitive fields and no other, and is otherwise what it was. */
  lemma ProcessingIsRecorded(row: Row, now: Time)
    ensures var after := Processed(row, now);
            && after.processedAt == Some(now) && after.lastError.None? && after.sensitiveKeys.None?
            && (forall k :: k in after.payload <==> k in row.payload && k !in row.Sensitive())
            && (forall k :: k in after.payload ==> after.payload[k] == row.payload[k])
            && after.(processedAt := row.processedAt, lastError := row.lastError, sensitiveKeys := row.sensitiveKeys, payload := row.payload) == row
  {
  }

  function Revived(row: Row): Row {
    row.(failedAt := None, attempts := 0, nextAttemptAt := None, lastError := None)
  }

  // ----- claiming -----

  /** Oldest first, ties broken by id. */
  predicate Precedes(rows: map<Id, Row>, a: Id, b: Id)
    requires a in rows && b in rows
  {
    rows[a].createdAt < rows[b].createdAt || (rows[a].createdAt == rows[b].createdAt && a < b)
  }

  predicate Claimable(rows: map<Id, Row>, locked: set<Id>, now: Time, id: Id) {
    id in rows && id !in locked && rows[id].Due(now)
  }

  /** The batch a claim yields: the first due rows nobody else holds, in order, up to the limit. */
  ghost predicate IsClaim(rows: map<Id, Row>, locked: set<Id>, now: Time, limit: nat, batch: seq<Id>) {
    && |batch| <= limit
    && (forall i :: 0 <= i < |batch| ==> Claimable(rows, locked, now, batch[i]))
    && (forall i, j :: 0 <= i < j < |batch| ==> Precedes(rows, batch[i], batch[j]))
    && (forall id :: Claimable(rows, locked, now, id) && id !in batch ==>
        |batch| == limit && forall i :: 0 <= i < |batch| ==> Precedes(rows, batch[i], id))
  }

  predicate Earlier(madeAt: Time, id: Id, otherAt: Time, other: Id) {
    madeAt <= otherAt && (madeAt == otherAt ==> id < other)
  }

  /** A claim told by the rows' own columns: due and pending, free, oldest first, and nothing older left behind. */
  lemma ClaimIsOldestFirst(rows: map<Id, Row>, locked: set<Id>, now: Time, limit: nat, batch: seq<Id>)
    requires IsClaim(rows, locked, now, limit, batch)
    ensures forall i :: 0 <= i < |batch| ==>
      && batch[i] in rows && batch[i] !in locked && rows[batch[i]].processedAt.None? && rows[batch[i]].failedAt.None?
      && (rows[batch[i]].nextAttemptAt.Some? ==> rows[batch[i]].nextAttemptAt.value <= now)
    ensures forall i, j :: 0 <= i < j < |batch| ==> Earlier(rows[batch[i]].createdAt, batch[i], rows[batch[j]].createdAt, batch[j])
    ensures forall id :: Waiting(rows, locked, now, id) && id !in batch ==>
      |batch| == limit && forall i :: 0 <= i < |batch| ==> Earlier(rows[batch[i]].createdAt, batch[i], rows[id].createdAt, id)
  {
    forall i, j | 0 <= i < j < |batch| ensures Earlier(rows[batch[i]].createdAt, batch[i], rows[batch[j]].createdAt, batch[j]) {
      assert Precedes(rows, batch[i], batch[j]);
    }
    forall id | Waiting(rows, locked, now, id) && id !in batch
      ensures |batch| == limit && forall i :: 0 <= i < |batch| ==> Earlier(rows[batch[i]].createdAt, batch[i], rows[id].createdAt, id)
    {
      assert Claimable(rows, locked, now, id);
    }
  }

  /** Not handled, not given up, not held, and not put off beyond this moment. */
  predicate Waiting(rows: map<Id, Row>, locked: set<Id>, now: Time, id: Id) {
    && id in rows && id !in locked && rows[id].processedAt.None? && rows[id].failedAt.None?
    && (rows[id].nextAttemptAt.Some? ==> rows[id].nextAttemptAt.value <= now)
  }

  lemma {:induction false} FirstExists(rows: map<Id, Row>, rest: set<Id>)
    requires rest != {} && rest <= rows.Keys
    ensures exists first :: first in rest && forall id :: id in rest && id != first ==> Precedes(rows, first, id)
  {
    var x := AnElement(rest);
    if rest == {x} {
      assert x in rest && forall id :: id in rest && id != x ==> Precedes(rows, x, id);
    } else {
      var smaller := rest - {x};
      FirstExists(rows, smaller);
      var y :| y in smaller && forall id :: id in smaller && id != y ==> Precedes(rows, y, id);
      var first := if Precedes(rows, x, y) then x else y;
      forall id | id in rest && id != first ensures Precedes(rows, first, id) {
        if id != x && id != y { assert id in smaller; }
      }
    }
  }

  class OutboxRepository {
    var rows: map<Id, Row>

    constructor (rows: map<Id, Row>)
      ensures this.rows == rows
    {
      this.rows := rows;
    }

    method GetUnprocessed(limit: nat, locked: set<Id>, now: Time) returns (batch: seq<Id>)
      ensures IsClaim(rows, locked, now, limit, batch)
    {
      batch := [];
      var rest := set id | id in rows && Claimable(rows, locked, now, id);
      while |batch| < limit && rest != {}
        invariant |batch| <= limit
        invariant rest <= rows.Keys
        invariant forall id :: id in rest <==> Claimable(rows, locked, now, id) && id !in batch
        invariant forall i :: 0 <= i < |batch| ==> Claimable(rows, locked, now, batch[i])
        invariant forall i, j :: 0 <= i < j < |batch| ==> Precedes(rows, batch[i], batch[j])
        invariant forall id, i :: id in rest && 0 <= i < |batch| ==> Precedes(rows, batch[i], id)
        decreases |rest|
      {
        FirstExists(rows, rest);
        var first :| first in rest && forall id :: id in rest && id != first ==> Precedes(rows, first, id);
        batch := batch + [first];
        rest := rest - {first};
      }
    }

    /** Marks events handled and removes any credential their payload carried. */
    method MarkProcessed(events: seq<Id>, now: Time)
      requires forall i :: 0 <= i < |events| ==> events[i] in rows
      requires Distinct(events)
      modifies this
      ensures rows.Keys == old(rows).Keys
      ensures forall id :: id in rows ==> rows[id] == if id in events then Processed(old(rows)[id], now) else old(rows)[id]
    {
      for n := 0 to |events|
        invariant rows.Keys == old(rows).Keys
        invariant forall id :: id in rows ==> rows[id] == if id in events[..n] then Processed(old(rows)[id], now) else old(rows)[id]
      {
        var row := rows[events[n]];
        assert events[n] !in events[..n];
        var payload := PopAll(row.payload, row.Sensitive());
        rows := rows[events[n] := row.(payload := payload, sensitiveKeys := None, processedAt := Some(now), lastError := None)];
        assert events[..n + 1] == events[..n] + [events[n]];
      }
      assert events[..|events|] == events;
    }

    method Reschedule(id: Id, error: string, now: Time)
      requires id in rows
      modifies this
      ensures rows == old(rows)[id := Deferred(old(rows)[id], error, now)]
      ensures old(rows)[id].Pending() && old(rows)[id].attempts < 7 ==>
        forall t :: rows[id].Due(t) <==> t >= now + Seconds(Shifted(old(rows)[id].attempts + 1))
      ensures old(rows)[id].Pending() && old(rows)[id].attempts == 7 ==> rows[id].failedAt == Some(now)
    {
      if rows[id].Pending() && rows[id].attempts < 7 {
        FailureBacksOff(rows[id], error, now, now);
      }
      var row := rows[id];
      row := row.(attempts := row.attempts + 1);
      row := row.(lastError := Some(Truncated(error)));
      if row.attempts >= MAX_ATTEMPTS {
        row := row.(failedAt := Some(now), nextAttemptAt := None);
      } else {
        row := row.(nextAttemptAt := Some(now + BackoffDelay(row.attempts)));
      }
      rows := rows[id := row];
    }

    /**
     Puts dead-lettered events back in the queue: each listed one starts over, due at any time and
     with all its attempts ahead of it, and is otherwise what it was. Nothing else changes.
     */
    method Replay(ids: set<Id>) returns (count: nat)
      modifies this
      ensures rows.Keys == old(rows).Keys
      ensures forall id :: id in rows && !(id in ids && old(rows)[id].failedAt.Some?) ==> rows[id] == old(rows)[id]
      ensures forall id :: id in rows && id in ids && old(rows)[id].failedAt.Some? ==> StartsOver(old(rows)[id], rows[id])
      ensures count == |DeadLetters(old(rows), ids)|
      ensures DeadLetters(rows, ids) == {}
    {
      count := |DeadLetters(rows, ids)|;
      rows := ReplayedRows(rows, ids);
    }

    method DeleteProcessedOlderThan(before: Time) returns (count: nat)
      modifies this
      ensures rows == PrunedRows(old(rows), before)
      ensures forall id :: id in rows <==> id in old(rows) && (old(rows)[id].processedAt.Some? ==> old(rows)[id].processedAt.value >= before)
      ensures forall id :: id in rows ==> rows[id] == old(rows)[id]
      ensures count + |rows| == |old(rows)|
    {
      var kept := PrunedRows(rows, before);
      assert rows.Keys == kept.Keys + (rows.Keys - kept.Keys);
      assert |rows.Keys| == |kept.Keys| + |rows.Keys - kept.Keys|;
      count := |rows.Keys - kept.Keys|;
      rows := kept;
    }
  }

  function DeadLetters(rows: map<Id, Row>, ids: set<Id>): set<Id> {
    set id | id in rows && id in ids && rows[id].failedAt.Some?
  }

  /** The same event with no history of failure; one that was not processed is due at every moment. */
  ghost predicate StartsOver(before: Row, after: Row) {
    && after.attempts == 0 && after.lastError.None? && after.failedAt.None?
    && (before.processedAt.None? ==> forall now: Time :: after.Due(now))
    && after.(attempts := before.attempts, lastError := before.lastError,
              failedAt := before.failedAt, nextAttemptAt := before.nextAttemptAt) == before
  }

  function ReplayedRows(rows: map<Id, Row>, ids: set<Id>): map<Id, Row> {
    map id | id in rows :: if id in ids && rows[id].failedAt.Some? then Revived(rows[id]) else rows[id]
  }

  function PrunedRows(rows: map<Id, Row>, before: Time): map<Id, Row> {
    map id | id in rows && !(rows[id].processedAt.Some? && rows[id].processedAt.value < before) :: rows[id]
  }

  method PopAll(payload: map<string, Json>, keys: seq<string>) returns (rest: map<string, Json>)
    ensures rest == DropKeys(payload, keys)
  {
    rest := payload;
    for n := 0 to |keys|
      invariant rest == DropKeys(payload, keys[..n])
    {
      rest := rest - {keys[n]};
      assert keys[..n + 1] == keys[..n] + [keys[n]];
    }
    assert keys[..|keys|] == keys;
  }

  // ----- publishing -----

  datatype PublishFailure = PublishFailure(eventId: Id, error: string)

  /** The messages that get through, given what the broker says to each event. */
  function Delivered(rows: map<Id, Row>, batch: seq<Id>, errors: seq<Option<string>>): seq<Message>
    requires |errors| == |batch| && forall i :: 0 <= i < |batch| ==> batch[i] in rows
  {
    if batch == [] then []
    else
      var n := |batch| - 1;
      Delivered(rows, batch[..n], errors[..n]) + (if errors[n].None? then [Wire(batch[n], rows[batch[n]])] else [])
  }

  function Failures(batch: seq<Id>, errors: seq<Option<string>>): seq<PublishFailure>
    requires |errors| == |batch|
  {
    if batch == [] then []
    else
      var n := |batch| - 1;
      Failures(batch[..n], errors[..n]) + (if errors[n].Some? then [PublishFailure(batch[n], errors[n].value)] else [])
  }

  method WirePayload(id: Id, row: Row) returns (m: Message)
    ensures m == Wire(id, row)
  {
    var payload, keys := row.payload, row.Sensitive();
    for n := 0 to |keys|
      invariant payload == Redacted(row.payload, keys[..n])
    {
      if keys[n] in payload {
        payload := payload[keys[n] := REDACTED];
      }
      assert keys[..n + 1] == keys[..n] + [keys[n]];
    }
    assert keys[..|keys|] == keys;
    m := Message(row.eventType, id, row.aggregateType, row.aggregateId, payload, row.createdAt);
  }

  class EventPublisher {
    // Everything the exchange has accepted.
    var broker: seq<Message>

    constructor ()
      ensures broker == []
    {
      broker := [];
    }

    /** Publishes each event on its own, so that one bad payload blocks nothing behind it. */
    method PublishOutbox(rows: map<Id, Row>, events: seq<Id>, errors: seq<Option<string>>) returns (failures: seq<PublishFailure>)
      requires |errors| == |events| && forall i :: 0 <= i < |events| ==> events[i] in rows
      modifies this
      ensures broker == old(broker) + Delivered(rows, events, errors)
      ensures failures == Failures(events, errors)
    {
      failures := [];
      for n := 0 to |events|
        invariant broker == old(broker) + Delivered(rows, events[..n], errors[..n])
        invariant failures == Failures(events[..n], errors[..n])
      {
        assert events[..n + 1][..n] == events[..n] && errors[..n + 1][..n] == errors[..n];
        var message := WirePayload(events[n], rows[events[n]]);
        match errors[n]
        case None => broker := broker + [message];
        case Some(error) => failures := failures + [PublishFailure(events[n], error)];
      }
      assert events[..|events|] == events && errors[..|errors|] == errors;
    }
  }
}
