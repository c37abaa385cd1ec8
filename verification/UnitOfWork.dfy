/** Aggregates that carry unpulled events, and the two units of work that collect them. */
module UnitOfWork {
  import opened Basics
  import Outbox
  import OutboxMachine

  datatype Event = Event(
    aggregateType: string, aggregateId: Option<int>, eventType: string,
    payload: map<string, Outbox.Json>, sensitive: seq<string>)

  /** What equality of entities compares: the type and its identity. */
  datatype Identity = Identity(entityType: string, id: int)

  /** One version of an entity. Its other fields never change; only the event list is replaced in place. */
  class Aggregate {
    const identity: Identity
    var events: seq<Event>

    constructor (identity: Identity)
      ensures this.identity == identity && events == []
    {
      this.identity := identity;
      this.events := [];
    }

    method RecordEvent(e: Event)
      modifies this
      ensures events == old(events) + [e]
    {
      events := events + [e];
    }

    method PullEvents() returns (pulled: seq<Event>)
      modifies this
      ensures pulled == old(events) && events == []
    {
      pulled := events;
      events := [];
    }

    /** A copy with some fields replaced. Both versions now hold the events recorded so far. */
    method With() returns (copy: Aggregate)
      ensures fresh(copy) && copy.identity == identity && copy.events == events
    {
      copy := new Aggregate(identity);
      copy.events := events;
    }
  }

  // ----- what is collected from a sequence of registrations -----

  /** The tracked objects: each registered object once, told apart by reference. */
  function Tracked<T(==)>(calls: seq<T>): (r: seq<T>)
    ensures forall i :: 0 <= i < |r| ==> r[i] in calls
    ensures forall i :: 0 <= i < |calls| ==> calls[i] in r
  {
    if calls == [] then []
    else
      var init, last := calls[..|calls| - 1], calls[|calls| - 1];
      assert calls == init + [last];
      if last in Tracked(init) then Tracked(init) else Tracked(init) + [last]
  }

  lemma {:induction false} TrackedIsDistinct<T>(calls: seq<T>)
    ensures Distinct(Tracked(calls))
  {
    if calls != [] {
      TrackedIsDistinct(calls[..|calls| - 1]);
    }
  }

  predicate Known(tracked: seq<Aggregate>, identity: Identity) {
    exists i :: 0 <= i < |tracked| && tracked[i].identity == identity
  }

  /** The same, told apart by equality. */
  function TrackedByIdentity(calls: seq<Aggregate>): seq<Aggregate> {
    if calls == [] then []
    else
      var init, last := TrackedByIdentity(calls[..|calls| - 1]), calls[|calls| - 1];
      if Known(init, last.identity) then init else init + [last]
  }

  function EventsOf(aggregates: seq<Aggregate>): seq<Event>
    reads aggregates
  {
    if aggregates == [] then []
    else EventsOf(aggregates[..|aggregates| - 1]) + aggregates[|aggregates| - 1].events
  }

  lemma {:induction false} KnownIsRegistered(calls: seq<Aggregate>, identity: Identity)
    ensures Known(TrackedByIdentity(calls), identity) <==> exists i :: 0 <= i < |calls| && calls[i].identity == identity
  {
    if calls != [] {
      var n := |calls| - 1;
      var init, last := calls[..n], calls[n];
      KnownIsRegistered(init, identity);
      KnownIsRegistered(init, last.identity);
      var before, after := TrackedByIdentity(init), TrackedByIdentity(calls);
      if Known(before, identity) {
        var i :| 0 <= i < |before| && before[i].identity == identity;
        assert after[i].identity == identity;
        var j :| 0 <= j < |init| && init[j].identity == identity;
        assert calls[j].identity == identity;
      } else if last.identity == identity {
        assert after[|before|] == last;
      }
    }
  }

  /** A registration the equality-based unit of work drops and the identity-based one keeps. */
  predicate Shadowed(calls: seq<Aggregate>, j: int)
    requires 0 <= j < |calls|
  {
    && calls[j] !in calls[..j]
    && exists i :: 0 <= i < j && calls[i].identity == calls[j].identity
  }

  predicate Harmless(calls: seq<Aggregate>, j: int)
    requires 0 <= j < |calls|
    reads calls
  {
    Shadowed(calls, j) ==> calls[j].events == []
  }

  /** Nothing that was dropped as an equal had events left to pull. */
  ghost predicate NothingLost(calls: seq<Aggregate>)
    reads calls
  {
    forall j {:trigger Harmless(calls, j)} :: 0 <= j < |calls| ==> Harmless(calls, j)
  }

  /** What the equality-based register leaves out: a repeated object, or an equal of an earlier one. */
  lemma LeftOut(calls: seq<Aggregate>, n: nat)
    requires n < |calls|
    ensures Known(TrackedByIdentity(calls[..n]), calls[n].identity) <==> calls[n] in calls[..n] || Shadowed(calls, n)
  {
    var init, identity := calls[..n], calls[n].identity;
    KnownIsRegistered(init, identity);
    if i :| 0 <= i < |init| && init[i].identity == identity {
      assert calls[i].identity == identity;
    }
    if i :| 0 <= i < n && calls[i].identity == identity {
      assert init[i].identity == identity;
    }
  }

  lemma SeenIsKnown(calls: seq<Aggregate>, n: nat)
    requires n < |calls| && calls[n] in calls[..n]
    ensures Known(TrackedByIdentity(calls[..n]), calls[n].identity)
  {
    LeftOut(calls, n);
  }

  lemma HarmlessEarlier(calls: seq<Aggregate>, n: nat, j: nat)
    requires j < n <= |calls|
    ensures Harmless(calls, j) <==> Harmless(calls[..n], j)
  {
    assert calls[..j] == calls[..n][..j];
    assert forall i :: 0 <= i < j ==> calls[..n][i] == calls[i];
  }

  lemma LostEarlierOrNow(calls: seq<Aggregate>, n: nat)
    requires |calls| == n + 1
    ensures NothingLost(calls) <==> NothingLost(calls[..n]) && Harmless(calls, n)
  {
    forall j | 0 <= j < n ensures Harmless(calls, j) <==> Harmless(calls[..n], j) {
      HarmlessEarlier(calls, n, j);
    }
  }

  lemma OneCallMore(calls: seq<Aggregate>)
    requires calls != []
    ensures var n := |calls| - 1;
            NothingLost(calls) <==> (NothingLost(calls[..n])
              && (calls[n] in calls[..n] || !Known(TrackedByIdentity(calls[..n]), calls[n].identity) || calls[n].events == []))
  {
    LeftOut(calls, |calls| - 1);
    LostEarlierOrNow(calls, |calls| - 1);
  }

  lemma OneMoreByReference(calls: seq<Aggregate>)
    requires calls != []
    ensures var n := |calls| - 1;
            EventsOf(Tracked(calls)) == EventsOf(Tracked(calls[..n])) + if calls[n] in calls[..n] then [] else calls[n].events
  {
    var n := |calls| - 1;
    var tracked := Tracked(calls[..n]);
    if calls[n] in tracked {
      assert calls[n] in calls[..n];
    } else {
      assert calls[n] !in calls[..n];
      assert Tracked(calls) == tracked + [calls[n]];
      assert (tracked + [calls[n]])[..|tracked|] == tracked;
    }
  }

  lemma OneMoreByIdentity(calls: seq<Aggregate>)
    requires calls != []
    ensures var n := |calls| - 1;
            EventsOf(TrackedByIdentity(calls)) == EventsOf(TrackedByIdentity(calls[..n]))
              + if Known(TrackedByIdentity(calls[..n]), calls[n].identity) then [] else calls[n].events
  {
    var tracked, last := TrackedByIdentity(calls[..|calls| - 1]), calls[|calls| - 1];
    assert (tracked + [last])[..|tracked|] == tracked;
  }

  /** Both collections, one registration later. */
  lemma SideBySide(byRef: seq<Event>, byIdentity: seq<Event>, events: seq<Event>, seen: bool, known: bool)
    requires |byIdentity| <= |byRef| && (|byIdentity| == |byRef| ==> byIdentity == byRef) && (seen ==> known)
    ensures var r, i := byRef + if seen then [] else events, byIdentity + if known then [] else events;
            && |i| <= |r| && (|i| == |r| ==> i == r)
            && (|i| == |r| <==> |byIdentity| == |byRef| && (seen || !known || events == []))
  {
  }

  lemma {:induction false} CollectionsCompared(calls: seq<Aggregate>)
    ensures var byRef, byIdentity := EventsOf(Tracked(calls)), EventsOf(TrackedByIdentity(calls));
            && |byIdentity| <= |byRef|
            && (|byIdentity| == |byRef| <==> NothingLost(calls))
            && (|byIdentity| == |byRef| ==> byIdentity == byRef)
  {
    if calls != [] {
      var n := |calls| - 1;
      var init := calls[..n];
      var seen, known := calls[n] in init, Known(TrackedByIdentity(init), calls[n].identity);
      CollectionsCompared(init);
      OneCallMore(calls);
      if seen {
        SeenIsKnown(calls, n);
      }
      SideBySide(EventsOf(Tracked(init)), EventsOf(TrackedByIdentity(init)), calls[n].events, seen, known);
      OneMoreByReference(calls);
      OneMoreByIdentity(calls);
    }
  }

  /**
   The two units of work collect the same events, in the same order, exactly when every object the
   equality-based one drops has nothing left to pull.
   */
  lemma {:induction false} SameCollection(calls: seq<Aggregate>)
    ensures EventsOf(Tracked(calls)) == EventsOf(TrackedByIdentity(calls)) <==> NothingLost(calls)
  {
    CollectionsCompared(calls);
  }

  /** With both the old version and its copy registered, one repeats the old events and the other loses the new. */
  lemma RegisteringTwoVersions(older: Aggregate, newer: Aggregate, added: seq<Event>)
    requires older != newer && older.identity == newer.identity && newer.events == older.events + added
    ensures EventsOf(Tracked([older, newer])) == older.events + older.events + added
    ensures EventsOf(TrackedByIdentity([older, newer])) == older.events
  {
    assert [older, newer][..1] == [older] && [older][..0] == [];
    assert Tracked([older]) == [older] && Tracked([older, newer]) == [older, newer];
    assert TrackedByIdentity([older]) == [older];
    assert Known([older], newer.identity);
    assert EventsOf([older]) == older.events;
  }

  // ----- the units of work -----

  function RowFor(e: Event, now: Time): Outbox.Row {
    Outbox.NewRow(e.aggregateType, e.aggregateId, e.eventType, e.payload, e.sensitive, now)
  }

  function RowsFor(events: seq<Event>, clock: nat -> Time): (rows: seq<Outbox.Row>)
    ensures |rows| == |events| && forall i :: 0 <= i < |events| ==> rows[i] == RowFor(events[i], clock(i))
  {
    if events == [] then [] else RowsFor(events[..|events| - 1], clock) + [RowFor(events[|events| - 1], clock(|events| - 1))]
  }

  /** One row for each event, in order, each saying what its event says. */
  ghost predicate AreRowsOf(rows: seq<Outbox.Row>, events: seq<Event>, clock: nat -> Time) {
    |rows| == |events| && forall i :: 0 <= i < |events| ==> IsRowOf(rows[i], events[i], clock(i))
  }

  lemma RowsSayTheirEvents(events: seq<Event>, clock: nat -> Time)
    ensures AreRowsOf(RowsFor(events, clock), events, clock)
  {
    forall i | 0 <= i < |events| ensures IsRowOf(RowsFor(events, clock)[i], events[i], clock(i)) {
      WrittenRowsAreNew(events, clock, i);
    }
  }

  class SQLAlchemyUoW {
    var pendingEvents: seq<Event>
    var aggregates: seq<Aggregate>
    var session: seq<Outbox.Row>       // added to the open transaction
    var outbox: seq<Outbox.Row>        // committed

    constructor ()
      ensures pendingEvents == [] && aggregates == [] && session == [] && outbox == []
    {
      pendingEvents, aggregates, session, outbox := [], [], [], [];
    }

    method Register(a: Aggregate)
      modifies this`aggregates
      ensures aggregates == if a in old(aggregates) then old(aggregates) else old(aggregates) + [a]
    {
      if a !in aggregates {
        aggregates := aggregates + [a];
      }
    }

    /** Registering one after another tracks each object once. */
    method RegisterAll(calls: seq<Aggregate>)
      requires aggregates == []
      modifies this`aggregates
      ensures aggregates == Tracked(calls) && Distinct(aggregates)
    {
      for n := 0 to |calls|
        invariant aggregates == Tracked(calls[..n])
      {
        assert calls[..n + 1][..n] == calls[..n];
        Register(calls[n]);
      }
      assert calls[..|calls|] == calls;
      TrackedIsDistinct(calls);
    }

    method AddEvents(events: seq<Event>)
      modifies this`pendingEvents
      ensures pendingEvents == old(pendingEvents) + events
    {
      pendingEvents := pendingEvents + events;
    }

    method Drain() returns (drained: seq<Event>)
      requires Distinct(aggregates)
      modifies this`pendingEvents, this`aggregates, aggregates
      ensures drained == old(pendingEvents) + old(EventsOf(aggregates))
      ensures pendingEvents == [] && aggregates == []
      ensures forall i :: 0 <= i < |old(aggregates)| ==> old(aggregates)[i].events == []
    {
      drained := pendingEvents;
      for n := 0 to |aggregates|
        invariant aggregates == old(aggregates) && pendingEvents == old(pendingEvents)
        invariant drained == old(pendingEvents) + old(EventsOf(aggregates[..n]))
        invariant forall i :: 0 <= i < n ==> aggregates[i].events == []
        invariant forall i :: n <= i < |aggregates| ==> aggregates[i].events == old(aggregates[i].events)
      {
        assert old(aggregates)[..n + 1][..n] == old(aggregates)[..n];
        var pulled := aggregates[n].PullEvents();
        drained := drained + pulled;
      }
      assert old(aggregates)[..|old(aggregates)|] == old(aggregates);
      aggregates := [];
      pendingEvents := [];
    }

    method PersistAll(events: seq<Event>, clock: nat -> Time)
      requires session == []
      modifies this`session
      ensures session == RowsFor(events, clock)
    {
      for n := 0 to |events|
        invariant session == RowsFor(events[..n], clock)
      {
        assert events[..n + 1][..n] == events[..n];
        PersistOutboxEvent(events[n], clock(n));
      }
      assert events[..|events|] == events;
    }

    method PersistOutboxEvent(e: Event, now: Time)
      modifies this`session
      ensures session == old(session) + [RowFor(e, now)]
    {
      session := session + [RowFor(e, now)];
    }

    /** `raised` says whether a handler or the database's own commit raises. */
    method Commit(clock: nat -> Time, raised: bool) returns (ok: bool)
      requires Distinct(aggregates) && session == []
      modifies this, aggregates
      ensures ok == !raised
      ensures outbox == old(outbox) + if ok then RowsFor(old(pendingEvents) + old(EventsOf(aggregates)), clock) else []
      ensures ok ==> AreRowsOf(outbox[|old(outbox)|..], old(pendingEvents) + old(EventsOf(aggregates)), clock)
      ensures session == [] && pendingEvents == [] && aggregates == []
      ensures forall i :: 0 <= i < |old(aggregates)| ==> old(aggregates)[i].events == []
    {
      var events := Drain();
      PersistAll(events, clock);
      RowsSayTheirEvents(events, clock);
      if !raised {
        outbox := outbox + session;
      }
      session := [];
      ok := !raised;
    }

    method Rollback()
      requires Distinct(aggregates)
      modifies this, aggregates
      ensures outbox == old(outbox)
      ensures session == [] && pendingEvents == [] && aggregates == []
      ensures forall i :: 0 <= i < |old(aggregates)| ==> old(aggregates)[i].events == []
    {
      session := [];
      var _ := Drain();
    }
  }

  class InMemoryUoW {
    var pendingEvents: seq<Event>
    var aggregates: seq<Aggregate>
    var committedEvents: seq<Event>

    constructor ()
      ensures pendingEvents == [] && aggregates == [] && committedEvents == []
    {
      pendingEvents, aggregates, committedEvents := [], [], [];
    }

    method RegisterAll(calls: seq<Aggregate>)
      requires aggregates == []
      modifies this`aggregates
      ensures aggregates == TrackedByIdentity(calls) && Distinct(aggregates)
    {
      for n := 0 to |calls|
        invariant aggregates == TrackedByIdentity(calls[..n])
        invariant forall i, j :: 0 <= i < j < |aggregates| ==> aggregates[i].identity != aggregates[j].identity
      {
        assert calls[..n + 1][..n] == calls[..n];
        Register(calls[n]);
      }
      assert calls[..|calls|] == calls;
    }

    method Register(a: Aggregate)
      modifies this`aggregates
      ensures aggregates == if Known(old(aggregates), a.identity) then old(aggregates) else old(aggregates) + [a]
    {
      if !Known(aggregates, a.identity) {
        aggregates := aggregates + [a];
      }
    }

    method Commit()
      requires Distinct(aggregates)
      modifies this, aggregates
      ensures committedEvents == old(committedEvents) + old(pendingEvents) + old(EventsOf(aggregates))
      ensures pendingEvents == [] && aggregates == []
      ensures forall i :: 0 <= i < |old(aggregates)| ==> old(aggregates)[i].events == []
    {
      var drained := pendingEvents;
      for n := 0 to |aggregates|
        invariant aggregates == old(aggregates) && pendingEvents == old(pendingEvents) && committedEvents == old(committedEvents)
        invariant drained == old(pendingEvents) + old(EventsOf(aggregates[..n]))
        invariant forall i :: 0 <= i < n ==> aggregates[i].events == []
        invariant forall i :: n <= i < |aggregates| ==> aggregates[i].events == old(aggregates[i].events)
      {
        assert old(aggregates)[..n + 1][..n] == old(aggregates)[..n];
        var pulled := aggregates[n].PullEvents();
        drained := drained + pulled;
      }
      assert old(aggregates)[..|old(aggregates)|] == old(aggregates);
      aggregates, pendingEvents := [], [];
      committedEvents := committedEvents + drained;
    }
  }

  /** The row of this event, as it was recorded: everything it says, under the clock of its own writing. */
  ghost predicate IsRowOf(row: Outbox.Row, e: Event, now: Time) {
    && row.eventType == e.eventType && row.aggregateType == e.aggregateType && row.aggregateId == e.aggregateId
    && row.payload == e.payload && row.Sensitive() == e.sensitive && row.createdAt == now
    && row.processedAt.None? && row.failedAt.None? && row.lastError.None? && row.attempts == 0
    && forall t :: row.Due(t)
  }

  /** Every row a commit writes says what its event says, and is one the outbox accepts as new. */
  lemma WrittenRowsAreNew(events: seq<Event>, clock: nat -> Time, i: nat)
    requires i < |events|
    ensures IsRowOf(RowsFor(events, clock)[i], events[i], clock(i))
    ensures OutboxMachine.IsNew(RowsFor(events, clock)[i])
  {
  }

  /** The rows of a commit under the ids they are inserted with. */
  ghost function Inserted(ids: seq<Outbox.Id>, events: seq<Event>, clock: nat -> Time): map<Outbox.Id, Outbox.Row>
    requires |ids| == |events|
  {
    map id | id in ids :: RowsFor(events, clock)[IndexOf(ids, id)]
  }

  ghost function IndexOf(ids: seq<Outbox.Id>, id: Outbox.Id): (i: nat)
    requires id in ids
    ensures i < |ids| && ids[i] == id
  {
    var i :| 0 <= i < |ids| && ids[i] == id;
    i
  }

  lemma InsertedRows(ids: seq<Outbox.Id>, events: seq<Event>, clock: nat -> Time)
    requires |ids| == |events| && forall i, j :: 0 <= i < j < |ids| ==> ids[i] != ids[j]
    ensures Inserted(ids, events, clock).Keys == set id | id in ids
    ensures forall i :: 0 <= i < |ids| ==> Inserted(ids, events, clock)[ids[i]] == RowsFor(events, clock)[i]
    ensures forall id :: id in Inserted(ids, events, clock) ==> id in ids && OutboxMachine.IsNew(Inserted(ids, events, clock)[id])
  {
    forall i | 0 <= i < |ids| ensures IndexOf(ids, ids[i]) == i {
    }
    forall id | id in ids ensures OutboxMachine.IsNew(Inserted(ids, events, clock)[id]) {
      WrittenRowsAreNew(events, clock, IndexOf(ids, id));
    }
  }

  /** Exactly these rows are new, each under its id. */
  ghost predicate Adds(before: map<Outbox.Id, Outbox.Row>, after: map<Outbox.Id, Outbox.Row>, ids: seq<Outbox.Id>, rows: seq<Outbox.Row>)
    requires |ids| == |rows|
  {
    && (forall i :: 0 <= i < |ids| ==> ids[i] in after && after[ids[i]] == rows[i])
    && (forall id :: id !in ids ==> (id in after <==> id in before) && (id in before ==> after[id] == before[id]))
  }

  lemma MergingAdds(before: map<Outbox.Id, Outbox.Row>, added: map<Outbox.Id, Outbox.Row>, ids: seq<Outbox.Id>, rows: seq<Outbox.Row>)
    requires |ids| == |rows| && added.Keys == set id | id in ids
    requires forall i :: 0 <= i < |ids| ==> added[ids[i]] == rows[i]
    ensures Adds(before, before + added, ids, rows)
  {
  }

  lemma FreshRowsCommit(s: OutboxMachine.State, added: map<Outbox.Id, Outbox.Row>, now: Time)
    requires s.clock <= now && added.Keys !! s.past.events.Keys
    requires forall id :: id in added ==> OutboxMachine.IsNew(added[id])
    ensures OutboxMachine.Enabled(s, OutboxMachine.Timed(now, OutboxMachine.Commit(added)))
    ensures OutboxMachine.Step(s, OutboxMachine.Timed(now, OutboxMachine.Commit(added))).rows == s.rows + added
  {
  }

  /**
   What a unit of work commits is one step of the outbox, whatever state that is in and under any
   fresh ids: it adds the row of each event and leaves the others alone.
   */
  lemma {:induction false} CommitIsAStep(s: OutboxMachine.State, ids: seq<Outbox.Id>, events: seq<Event>, clock: nat -> Time, now: Time)
    requires |ids| == |events| && forall i, j :: 0 <= i < j < |ids| ==> ids[i] != ids[j]
    requires s.clock <= now && forall i :: 0 <= i < |ids| ==> ids[i] !in s.past.events
    ensures var a := OutboxMachine.Timed(now, OutboxMachine.Commit(Inserted(ids, events, clock)));
            && OutboxMachine.Enabled(s, a) && Adds(s.rows, OutboxMachine.Step(s, a).rows, ids, RowsFor(events, clock))
  {
    var added := Inserted(ids, events, clock);
    InsertedRows(ids, events, clock);
    FreshRowsCommit(s, added, now);
    MergingAdds(s.rows, added, ids, RowsFor(events, clock));
  }
}
