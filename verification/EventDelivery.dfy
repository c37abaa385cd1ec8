/** From a recorded event to the message the broker takes: the unit of work, the outbox and its workers together. */
module EventDelivery {
  import opened Basics
  import opened Outbox
  import opened OutboxMachine
  import opened OutboxSafety
  import opened UnitOfWork

  /** The message says what the event says, with its sensitive fields redacted. */
  ghost predicate MessageOf(m: Message, e: Event, now: Time) {
    && m.eventType == e.eventType && m.aggregateType == e.aggregateType && m.aggregateId == e.aggregateId && m.createdAt == now
    && m.payload.Keys == e.payload.Keys
    && (forall k :: k in e.payload ==> m.payload[k] == if k in e.sensitive then REDACTED else e.payload[k])
  }

  lemma EventIsKept(s: State, a: Timed, id: Id)
    requires Enabled(s, a) && id in s.past.events
    ensures id in Step(s, a).past.events && Step(s, a).past.events[id] == s.past.events[id]
  {
  }

  lemma {:induction false} EventsAreKept(s: State, acts: seq<Timed>, id: Id)
    requires Legal(s, acts) && id in s.past.events
    ensures id in Run(s, acts).past.events && Run(s, acts).past.events[id] == s.past.events[id]
  {
    if acts != [] {
      EventsAreKept(s, acts[..|acts| - 1], id);
      EventIsKept(Run(s, acts[..|acts| - 1]), acts[|acts| - 1], id);
    }
  }

  lemma MessageOfItsRow(m: Message, row: Row, e: Event, now: Time)
    requires IsRowOf(row, e, now) && m == Wire(m.eventId, row)
    ensures MessageOf(m, e, now)
  {
  }

  lemma {:induction false} DeliveredOnce(broker: seq<Message>, id: Id)
    ensures Deliveries(broker, id) >= 1 ==> exists m :: m in broker && m.eventId == id
  {
    if broker != [] {
      var init, last := broker[..|broker| - 1], broker[|broker| - 1];
      DeliveredOnce(init, id);
      assert broker == init + [last];
      assert last in broker;
    }
  }

  /** The step in which a unit of work commits these events under these ids. */
  ghost function CommitOf(ids: seq<Id>, events: seq<Event>, clock: nat -> Time, now: Time): Timed
    requires |ids| == |events|
  {
    Timed(now, Commit(Inserted(ids, events, clock)))
  }

  ghost predicate Fresh(s: State, ids: seq<Id>) {
    (forall i, j :: 0 <= i < j < |ids| ==> ids[i] != ids[j]) && forall i :: 0 <= i < |ids| ==> ids[i] !in s.past.events
  }

  lemma CommittedAsRecorded(s: State, ids: seq<Id>, events: seq<Event>, clock: nat -> Time, now: Time, i: nat)
    requires |ids| == |events| && Fresh(s, ids) && s.clock <= now && i < |events|
    ensures Enabled(s, CommitOf(ids, events, clock, now))
    ensures var s' := Step(s, CommitOf(ids, events, clock, now));
            ids[i] in s'.past.events && IsRowOf(s'.past.events[ids[i]], events[i], clock(i))
  {
    CommitIsAStep(s, ids, events, clock, now);
    InsertedRows(ids, events, clock);
    WrittenRowsAreNew(events, clock, i);
  }

  /**
   From end to end. An event that a unit of work commits reaches the broker with everything it
   says but its sensitive fields: in every later state of the outbox, each message under its id is
   a message of that event, and if it is neither pending nor dead-lettered there is such a message.
   */
  lemma {:induction false} EventsArriveAsRecorded(s: State, ids: seq<Id>, events: seq<Event>, clock: nat -> Time, now: Time,
                                                  after: seq<Timed>, i: nat)
    requires Inv(s) && |ids| == |events| && Fresh(s, ids) && s.clock <= now && i < |events|
    requires Legal(Step(s, CommitOf(ids, events, clock, now)), after)
    ensures var s' := Run(Step(s, CommitOf(ids, events, clock, now)), after);
            && (forall m :: m in s'.broker && m.eventId == ids[i] ==> MessageOf(m, events[i], clock(i)))
            && (|| (ids[i] in s'.rows && s'.rows[ids[i]].processedAt.None?)
                || exists m :: m in s'.broker && m.eventId == ids[i] && MessageOf(m, events[i], clock(i)))
  {
    var s1 := Step(s, CommitOf(ids, events, clock, now));
    var s' := Run(s1, after);
    CommittedAsRecorded(s, ids, events, clock, now, i);
    StepKeepsInv(s, CommitOf(ids, events, clock, now));
    InvOverRun(s1, after);
    EventsAreKept(s1, after, ids[i]);
    forall m | m in s'.broker && m.eventId == ids[i] ensures MessageOf(m, events[i], clock(i)) {
      assert OfAnEvent(m, s'.past.events);
      MessageOfItsRow(m, s'.past.events[ids[i]], events[i], clock(i));
    }
    assert IdInv(s', ids[i]);
    DeliveredOnce(s'.broker, ids[i]);
  }
}
