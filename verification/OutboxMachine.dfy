/**
 The outbox under any number of workers. Every step is one database transaction boundary or one
 publish; a crash rolls back the row changes of a batch but cannot recall what the broker took.
 */
module OutboxMachine {
  import opened Basics
  import opened Outbox

  /** A batch a worker holds locked: how far it has been published, what failed, and when it was claimed. */
  datatype Batch = Batch(ids: seq<Id>, done: nat, failed: map<Id, string>, claimedAt: Time)
  {
    predicate Tried(id: Id) {
      done <= |ids| && id in ids[..done]
    }

    predicate Sent(id: Id) {
      Tried(id) && id !in failed
    }
  }

  /** The clock as the end of a batch reads it: once to mark, and again for each event it reschedules. */
  datatype Readings = Readings(markedAt: Time, deferredAt: map<Id, Time>)
  {
    function For(id: Id): Time {
      if id in deferredAt then deferredAt[id] else markedAt
    }

    /** Between the claim and the end of the transaction, whatever other workers do meanwhile. */
    ghost predicate Within(from: Time, to: Time) {
      from <= markedAt <= to && forall id :: id in deferredAt ==> markedAt <= deferredAt[id] <= to
    }
  }

  /**
   What happened, for stating properties; no step consults it except to keep event ids fresh.
   `lost` counts deliveries and `wasted` publish attempts whose transaction was rolled back,
   `tries` all publish attempts, `replays` returns from the dead-letter state.
   */
  datatype Past = Past(
    events: map<Id, Row>, lost: multiset<Id>, tries: multiset<Id>, wasted: multiset<Id>,
    replays: multiset<Id>, firstFailure: map<Id, Time>)

  datatype State = State(clock: Time, rows: map<Id, Row>, workers: map<int, Batch>, broker: seq<Message>, past: Past)

  datatype Action =
    | Commit(events: map<Id, Row>)
    | Claim(worker: int, limit: nat, batch: seq<Id>)
    | Publish(worker: int, error: Option<string>)
    | Finish(worker: int, readings: Readings)
    | Crash(worker: int)
    | Replay(ids: set<Id>)
    | Prune(before: Time)

  datatype Timed = Timed(at: Time, act: Action)

  function LockedIds(workers: map<int, Batch>): set<Id> {
    set w, id | w in workers && id in workers[w].ids :: id
  }

  /** A row as the unit of work inserts it. */
  predicate IsNew(row: Row) {
    row == NewRow(row.aggregateType, row.aggregateId, row.eventType, row.payload, row.Sensitive(), row.createdAt)
  }

  ghost predicate Enabled(s: State, a: Timed) {
    s.clock <= a.at &&
    match a.act
    case Commit(events) => events.Keys !! s.past.events.Keys && forall id :: id in events ==> IsNew(events[id])
    case Claim(w, limit, batch) => w !in s.workers && IsClaim(s.rows, LockedIds(s.workers), a.at, limit, batch)
    case Publish(w, _) => w in s.workers && s.workers[w].done < |s.workers[w].ids| && s.workers[w].ids[s.workers[w].done] in s.rows
    case Finish(w, t) => w in s.workers && s.workers[w].done == |s.workers[w].ids| && t.Within(s.workers[w].claimedAt, a.at)
    case Crash(w) => w in s.workers
    case Replay(_) => true
    case Prune(_) => true
  }

  /** A row after the batch it may belong to has been marked and rescheduled. */
  function Settled(row: Row, id: Id, b: Batch, t: Readings): Row {
    if id in b.failed then Deferred(row, b.failed[id], t.For(id))
    else if id in b.ids then Processed(row, t.markedAt)
    else row
  }

  function FinishedRows(rows: map<Id, Row>, b: Batch, t: Readings): map<Id, Row> {
    map id | id in rows :: Settled(rows[id], id, b, t)
  }

  function Step(s: State, a: Timed): State {
    match a.act
    case Commit(events) =>
      s.(clock := a.at, rows := s.rows + events, past := s.past.(events := s.past.events + events))
    case Claim(w, _, batch) =>
      s.(clock := a.at, workers := s.workers[w := Batch(batch, 0, map[], a.at)])
    case Publish(w, error) =>
      if w !in s.workers || s.workers[w].done >= |s.workers[w].ids| || s.workers[w].ids[s.workers[w].done] !in s.rows then s
      else
        var b := s.workers[w];
        var id := b.ids[b.done];
        s.(clock := a.at,
           workers := s.workers[w := Batch(b.ids, b.done + 1, if error.Some? then b.failed[id := error.value] else b.failed, b.claimedAt)],
           broker := if error.None? then s.broker + [Wire(id, s.rows[id])] else s.broker,
           past := s.past.(tries := s.past.tries + multiset{id}))
    case Finish(w, t) =>
      if w !in s.workers then s
      else
        var b := s.workers[w];
        s.(clock := a.at, workers := s.workers - {w}, rows := FinishedRows(s.rows, b, t),
           past := s.past.(firstFailure := s.past.firstFailure +
             (map id | id in b.failed && id in s.rows && s.rows[id].attempts == 0 :: t.For(id))))
    case Crash(w) =>
      if w !in s.workers then s
      else
        var b := s.workers[w];
        s.(clock := a.at, workers := s.workers - {w},
           past := s.past.(lost := s.past.lost + multiset(set id | id in b.ids && b.Sent(id)),
                           wasted := s.past.wasted + multiset(set id | id in b.ids && b.Tried(id))))
    case Replay(ids) =>
      s.(clock := a.at, rows := ReplayedRows(s.rows, ids),
         past := s.past.(replays := s.past.replays + multiset(set id | id in s.rows && id in ids && s.rows[id].failedAt.Some?)))
    case Prune(before) =>
      s.(clock := a.at, rows := PrunedRows(s.rows, before))
  }

  function Run(s: State, acts: seq<Timed>): State {
    if acts == [] then s else Step(Run(s, acts[..|acts| - 1]), acts[|acts| - 1])
  }

  ghost predicate Legal(s: State, acts: seq<Timed>) {
    acts == [] ||
    (var before := acts[..|acts| - 1]; Legal(s, before) && Enabled(Run(s, before), acts[|acts| - 1]))
  }

  lemma RunAppend(s: State, acts: seq<Timed>, a: Timed)
    ensures Run(s, acts + [a]) == Step(Run(s, acts), a)
    ensures Legal(s, acts + [a]) <==> Legal(s, acts) && Enabled(Run(s, acts), a)
  {
    assert (acts + [a])[..|acts|] == acts;
  }

  function Empty(now: Time): State {
    State(now, map[], map[], [], Past(map[], multiset{}, multiset{}, multiset{}, multiset{}, map[]))
  }

  // ----- the invariant -----

  /** How many broker messages carry an event. */
  function Deliveries(broker: seq<Message>, id: Id): nat {
    if broker == [] then 0
    else Deliveries(broker[..|broker| - 1], id) + Bit(broker[|broker| - 1].eventId == id)
  }

  ghost predicate HeldBy(s: State, w: int, id: Id) {
    w in s.workers && id in s.workers[w].ids
  }

  ghost predicate SentBy(s: State, w: int, id: Id) {
    w in s.workers && s.workers[w].Sent(id)
  }

  ghost predicate TriedBy(s: State, w: int, id: Id) {
    w in s.workers && s.workers[w].Tried(id)
  }

  /** Some worker has delivered, respectively tried, the event and not yet finished its batch. */
  ghost predicate InFlight(s: State, id: Id) {
    exists w :: SentBy(s, w, id)
  }

  ghost predicate BeingTried(s: State, id: Id) {
    exists w :: TriedBy(s, w, id)
  }

  /** The event is done with: its row is processed, or was and has been pruned. */
  predicate Done(s: State, id: Id) {
    id in s.past.events && (id !in s.rows || s.rows[id].processedAt.Some?)
  }

  /** The delays between the first failure and the attempt after `failures` of them. */
  function BackoffSum(failures: nat): int {
    if failures == 0 then 0 else BackoffSum(failures - 1) + BackoffDelay(failures)
  }

  /** A row against the event it was committed as. */
  ghost predicate RowInv(row: Row, original: Row, id: Id, firstFailure: map<Id, Time>) {
    && row.eventType == original.eventType && row.createdAt == original.createdAt
    && row.aggregateType == original.aggregateType && row.aggregateId == original.aggregateId
    && !(row.processedAt.Some? && row.failedAt.Some?)
    && (row.processedAt.None? ==> row.payload == original.payload && row.sensitiveKeys == original.sensitiveKeys)
    && (row.processedAt.Some? ==> row.payload == DropKeys(original.payload, original.Sensitive()) && row.sensitiveKeys == None)
    && row.attempts <= MAX_ATTEMPTS
    && (row.failedAt.Some? <==> row.attempts == MAX_ATTEMPTS)
    && (row.failedAt.Some? ==>
        id in firstFailure && row.failedAt.value >= firstFailure[id] + BackoffSum(7))
    && (row.Pending() && row.attempts > 0 ==>
        id in firstFailure && row.nextAttemptAt.Some?
        && row.nextAttemptAt.value >= firstFailure[id] + BackoffSum(row.attempts))
  }

  /** A locked batch: distinct, still pending rows that were due when claimed. */
  ghost predicate WorkerInv(s: State, b: Batch) {
    && Distinct(b.ids)
    && (forall id :: id in b.ids ==> id in s.rows && s.rows[id].Due(b.claimedAt))
    && b.done <= |b.ids|
    && (forall id :: id in b.failed ==> b.Tried(id))
  }

  /** How many publish attempts an event can account for. */
  ghost function Accounted(s: State, id: Id): nat {
    s.past.wasted[id] + 8 * s.past.replays[id] +
    (if id in s.rows then s.rows[id].attempts + Bit(BeingTried(s, id)) + Bit(s.rows[id].processedAt.Some?)
     else if id in s.past.events then 8
     else 0)
  }

  ghost predicate IdInv(s: State, id: Id) {
    && (id in s.rows ==> id in s.past.events && RowInv(s.rows[id], s.past.events[id], id, s.past.firstFailure))
    && Deliveries(s.broker, id) == s.past.lost[id] + Bit(InFlight(s, id)) + Bit(Done(s, id))
    && s.past.tries[id] <= Accounted(s, id)
  }

  ghost predicate Disjoint(s: State) {
    forall w, w', id {:trigger HeldBy(s, w, id), HeldBy(s, w', id)} :: HeldBy(s, w, id) && HeldBy(s, w', id) ==> w == w'
  }

  /** A message is the redacted form of the event as it was committed. */
  predicate OfAnEvent(m: Message, events: map<Id, Row>) {
    m.eventId in events && m == Wire(m.eventId, events[m.eventId])
  }

  ghost predicate Inv(s: State) {
    && (forall w :: w in s.workers ==> WorkerInv(s, s.workers[w]))
    && Disjoint(s)
    && (forall id {:trigger IdInv(s, id)} :: IdInv(s, id))
    && (forall i :: 0 <= i < |s.broker| ==> OfAnEvent(s.broker[i], s.past.events))
  }

  // ----- who holds what -----

  /** Only the holder of an event can be delivering it. */
  lemma InFlightIsHolder(s: State, w: int, id: Id)
    requires Inv(s) && HeldBy(s, w, id)
    ensures InFlight(s, id) <==> s.workers[w].Sent(id)
    ensures BeingTried(s, id) <==> s.workers[w].Tried(id)
  {
    assert SentBy(s, w, id) <==> s.workers[w].Sent(id);
    assert TriedBy(s, w, id) <==> s.workers[w].Tried(id);
    forall v | TriedBy(s, v, id) ensures v == w {
      assert HeldBy(s, v, id);
    }
    forall v | SentBy(s, v, id) ensures v == w {
      assert TriedBy(s, v, id);
    }
  }

  lemma NotHeldNotInFlight(s: State, id: Id)
    requires forall w :: !HeldBy(s, w, id)
    ensures !InFlight(s, id) && !BeingTried(s, id)
  {
    forall w ensures !TriedBy(s, w, id) && !SentBy(s, w, id) {
      assert !HeldBy(s, w, id);
    }
  }

  /** If no worker's view of the event changed, neither did its status. */
  lemma SameWorkersSameFlight(s: State, s': State, id: Id)
    requires forall w :: TriedBy(s', w, id) <==> TriedBy(s, w, id)
    requires forall w :: SentBy(s', w, id) <==> SentBy(s, w, id)
    ensures InFlight(s', id) <==> InFlight(s, id)
    ensures BeingTried(s', id) <==> BeingTried(s, id)
  {
  }

  // ----- each step -----

  lemma CommitKeepsId(s: State, a: Timed, id: Id)
    requires a.act.Commit? && Enabled(s, a) && Inv(s)
    ensures IdInv(Step(s, a), id)
  {
    var s' := Step(s, a);
    assert IdInv(s, id);
    SameWorkersSameFlight(s, s', id);
    if id in a.act.events {
      assert IsNew(a.act.events[id]);
      assert id !in s.rows && id !in s.past.events;
      forall w ensures !HeldBy(s, w, id) {}
      NotHeldNotInFlight(s, id);
    }
  }

  lemma ClaimKeepsId(s: State, a: Timed, id: Id)
    requires a.act.Claim? && Enabled(s, a) && Inv(s)
    ensures IdInv(Step(s, a), id)
  {
    assert IdInv(s, id);
    var s' := Step(s, a);
    forall w ensures (TriedBy(s', w, id) <==> TriedBy(s, w, id)) && (SentBy(s', w, id) <==> SentBy(s, w, id)) {}
    SameWorkersSameFlight(s, s', id);
  }

  lemma PublishKeepsPublished(s: State, a: Timed, id: Id)
    requires a.act.Publish? && Enabled(s, a) && Inv(s)
    requires s.workers[a.act.worker].ids[s.workers[a.act.worker].done] == id
    ensures IdInv(Step(s, a), id)
  {
    var s' := Step(s, a);
    var w := a.act.worker;
    var b, b' := s.workers[w], s'.workers[w];
    assert IdInv(s, id) && WorkerInv(s, b);
    assert b'.ids[..b'.done] == b.ids[..b.done] + [id];
    if a.act.error.None? {
      assert s'.broker[..|s'.broker| - 1] == s.broker;
    }
    assert HeldBy(s, w, id);
    InFlightIsHolder(s, w, id);
    assert TriedBy(s', w, id);
    assert a.act.error.None? ==> SentBy(s', w, id);
    forall v | SentBy(s', v, id) ensures v == w {
      assert HeldBy(s, v, id);
    }
    assert InFlight(s', id) <==> a.act.error.None?;
  }

  lemma PublishKeepsOther(s: State, a: Timed, id: Id)
    requires a.act.Publish? && Enabled(s, a) && Inv(s)
    requires s.workers[a.act.worker].ids[s.workers[a.act.worker].done] != id
    ensures IdInv(Step(s, a), id)
  {
    var s' := Step(s, a);
    var b, b' := s.workers[a.act.worker], s'.workers[a.act.worker];
    assert IdInv(s, id);
    assert b'.ids[..b'.done] == b.ids[..b.done] + [b.ids[b.done]];
    if a.act.error.None? {
      assert s'.broker[..|s'.broker| - 1] == s.broker;
    }
    forall v ensures (TriedBy(s', v, id) <==> TriedBy(s, v, id)) && (SentBy(s', v, id) <==> SentBy(s, v, id)) {}
    SameWorkersSameFlight(s, s', id);
  }

  lemma DeferredKeepsRow(row: Row, original: Row, id: Id, firstFailure: map<Id, Time>, error: string, now: Time)
    requires RowInv(row, original, id, firstFailure) && row.Due(now)
    ensures RowInv(Deferred(row, error, now), original, id,
                   if row.attempts == 0 then firstFailure[id := now] else firstFailure)
  {
    assert BackoffSum(1) == BackoffDelay(1);
    if row.attempts > 0 {
      assert BackoffSum(row.attempts + 1) == BackoffSum(row.attempts) + BackoffDelay(row.attempts + 1);
    }
  }

  lemma ReleasedIsNotInFlight(s: State, s': State, w: int, id: Id)
    requires Inv(s) && HeldBy(s, w, id) && s'.workers == s.workers - {w}
    ensures !InFlight(s', id) && !BeingTried(s', id)
  {
    forall v ensures !HeldBy(s', v, id) {
      if HeldBy(s', v, id) {
        assert HeldBy(s, v, id);
      }
    }
    NotHeldNotInFlight(s', id);
  }

  lemma OthersUnaffected(s: State, s': State, w: int, id: Id)
    requires s'.workers == s.workers - {w} && !HeldBy(s, w, id)
    ensures InFlight(s', id) <==> InFlight(s, id)
    ensures BeingTried(s', id) <==> BeingTried(s, id)
  {
    forall v ensures (TriedBy(s', v, id) <==> TriedBy(s, v, id)) && (SentBy(s', v, id) <==> SentBy(s, v, id)) {}
    SameWorkersSameFlight(s, s', id);
  }

  lemma ProcessedKeepsRow(row: Row, original: Row, id: Id, firstFailure: map<Id, Time>, now: Time)
    requires RowInv(row, original, id, firstFailure) && row.Pending()
    ensures RowInv(Processed(row, now), original, id, firstFailure)
  {
  }

  lemma FinishSettlesRow(s: State, a: Timed, id: Id)
    requires a.act.Finish? && Enabled(s, a) && Inv(s) && HeldBy(s, a.act.worker, id)
    ensures id in s.rows && id in Step(s, a).rows && id in s.past.events
    ensures RowInv(Step(s, a).rows[id], s.past.events[id], id, Step(s, a).past.firstFailure)
  {
    var b, t := s.workers[a.act.worker], a.act.readings;
    assert IdInv(s, id) && WorkerInv(s, b);
    if id in b.failed {
      DeferredKeepsRow(s.rows[id], s.past.events[id], id, s.past.firstFailure, b.failed[id], t.For(id));
    } else {
      ProcessedKeepsRow(s.rows[id], s.past.events[id], id, s.past.firstFailure, t.markedAt);
    }
  }

  lemma FinishKeepsHeld(s: State, a: Timed, id: Id)
    requires a.act.Finish? && Enabled(s, a) && Inv(s) && HeldBy(s, a.act.worker, id)
    ensures IdInv(Step(s, a), id)
  {
    var b := s.workers[a.act.worker];
    assert IdInv(s, id);
    assert WorkerInv(s, b) && b.ids[..b.done] == b.ids;
    FinishSettlesRow(s, a, id);
    InFlightIsHolder(s, a.act.worker, id);
    ReleasedIsNotInFlight(s, Step(s, a), a.act.worker, id);
  }

  lemma FinishKeepsOther(s: State, a: Timed, id: Id)
    requires a.act.Finish? && Enabled(s, a) && Inv(s) && !HeldBy(s, a.act.worker, id)
    ensures IdInv(Step(s, a), id)
  {
    assert IdInv(s, id);
    assert WorkerInv(s, s.workers[a.act.worker]);
    OthersUnaffected(s, Step(s, a), a.act.worker, id);
  }

  lemma CrashKeepsId(s: State, a: Timed, id: Id)
    requires a.act.Crash? && Enabled(s, a) && Inv(s)
    ensures IdInv(Step(s, a), id)
  {
    var w := a.act.worker;
    assert IdInv(s, id);
    assert WorkerInv(s, s.workers[w]);
    if HeldBy(s, w, id) {
      InFlightIsHolder(s, w, id);
      ReleasedIsNotInFlight(s, Step(s, a), w, id);
    } else {
      OthersUnaffected(s, Step(s, a), w, id);
    }
  }

  lemma SweepKeepsId(s: State, a: Timed, id: Id)
    requires (a.act.Replay? || a.act.Prune?) && Enabled(s, a) && Inv(s)
    ensures IdInv(Step(s, a), id)
  {
    var s' := Step(s, a);
    assert IdInv(s, id);
    SameWorkersSameFlight(s, s', id);
    if id in s.rows && id !in s'.rows {
      forall w ensures !HeldBy(s, w, id) {}
      NotHeldNotInFlight(s, id);
    }
  }

  lemma HeldByOne(s: State, w: int, v: int, id: Id)
    requires Disjoint(s) && w in s.workers && v in s.workers && w != v && id in s.workers[w].ids
    ensures id !in s.workers[v].ids
  {
    assert HeldBy(s, w, id);
    assert HeldBy(s, v, id) <==> id in s.workers[v].ids;
  }

  lemma PublishKeepsWorker(s: State, a: Timed, w: int)
    requires a.act.Publish? && Enabled(s, a) && Inv(s) && w in s.workers
    ensures WorkerInv(Step(s, a), Step(s, a).workers[w])
  {
    var b := s.workers[w];
    assert WorkerInv(s, b);
    if a.act.worker == w {
      assert b.ids[..b.done + 1] == b.ids[..b.done] + [b.ids[b.done]];
    }
  }

  lemma FinishKeepsWorker(s: State, a: Timed, w: int)
    requires a.act.Finish? && Enabled(s, a) && Inv(s) && w in s.workers && w != a.act.worker
    ensures WorkerInv(Step(s, a), Step(s, a).workers[w])
  {
    var b := s.workers[w];
    assert WorkerInv(s, b) && WorkerInv(s, s.workers[a.act.worker]);
    forall id | id in b.ids ensures id !in s.workers[a.act.worker].ids {
      HeldByOne(s, w, a.act.worker, id);
    }
  }

  /** Locked rows are pending, so neither a replay nor a prune touches them, and nobody else finishes them. */
  lemma StepKeepsWorker(s: State, a: Timed, w: int)
    requires Enabled(s, a) && Inv(s) && w in Step(s, a).workers
    ensures WorkerInv(Step(s, a), Step(s, a).workers[w])
  {
    match a.act
    case Publish(_, _) => PublishKeepsWorker(s, a, w);
    case Finish(_, _) => FinishKeepsWorker(s, a, w);
    case _ =>
      if w in s.workers {
        assert WorkerInv(s, s.workers[w]);
      }
  }

  /** No row is held by two workers: a claim skips what the others have locked. */
  lemma StepKeepsDisjoint(s: State, a: Timed)
    requires Enabled(s, a) && Inv(s)
    ensures Disjoint(Step(s, a))
  {
    var s' := Step(s, a);
    forall w, v, id | HeldBy(s', w, id) && HeldBy(s', v, id) ensures w == v {
      if a.act.Claim? {
        if w != a.act.worker { assert HeldBy(s, w, id); assert id in LockedIds(s.workers); }
        if v != a.act.worker { assert HeldBy(s, v, id); assert id in LockedIds(s.workers); }
      } else {
        assert HeldBy(s, w, id) && HeldBy(s, v, id);
      }
    }
  }

  lemma StepKeepsBroker(s: State, a: Timed)
    requires Enabled(s, a) && Inv(s)
    ensures var s' := Step(s, a);
            forall i :: 0 <= i < |s'.broker| ==> OfAnEvent(s'.broker[i], s'.past.events)
  {
    if a.act.Publish? {
      var b := s.workers[a.act.worker];
      assert WorkerInv(s, b) && IdInv(s, b.ids[b.done]);
    }
  }

  lemma StepKeepsInv(s: State, a: Timed)
    requires Enabled(s, a) && Inv(s)
    ensures Inv(Step(s, a))
  {
    forall w | w in Step(s, a).workers ensures WorkerInv(Step(s, a), Step(s, a).workers[w]) {
      StepKeepsWorker(s, a, w);
    }
    StepKeepsDisjoint(s, a);
    StepKeepsBroker(s, a);
    forall id ensures IdInv(Step(s, a), id) {
      match a.act
      case Commit(_) => CommitKeepsId(s, a, id);
      case Claim(_, _, _) => ClaimKeepsId(s, a, id);
      case Publish(w, _) =>
        if s.workers[w].ids[s.workers[w].done] == id { PublishKeepsPublished(s, a, id); } else { PublishKeepsOther(s, a, id); }
      case Finish(w, _) => if HeldBy(s, w, id) { FinishKeepsHeld(s, a, id); } else { FinishKeepsOther(s, a, id); }
      case Crash(_) => CrashKeepsId(s, a, id);
      case Replay(_) => SweepKeepsId(s, a, id);
      case Prune(_) => SweepKeepsId(s, a, id);
    }
  }

  lemma EmptyInv(now: Time)
    ensures Inv(Empty(now))
  {
    forall id ensures IdInv(Empty(now), id) {
      NotHeldNotInFlight(Empty(now), id);
    }
  }

  lemma {:induction false} RunKeepsInv(now: Time, acts: seq<Timed>)
    requires Legal(Empty(now), acts)
    ensures Inv(Run(Empty(now), acts))
  {
    if acts == [] {
      EmptyInv(now);
    } else {
      RunKeepsInv(now, acts[..|acts| - 1]);
      StepKeepsInv(Run(Empty(now), acts[..|acts| - 1]), acts[|acts| - 1]);
    }
  }
}
