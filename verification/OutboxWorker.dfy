/** One batch of the outbox worker, and its place among the steps of the outbox as a whole. */
module OutboxWorker {
  import opened Basics
  import opened Outbox
  import opened OutboxMachine

  /** What the broker says to each event of a batch. */
  function Responses(batch: seq<Id>, broker: Id -> Option<string>): (errors: seq<Option<string>>)
    ensures |errors| == |batch| && forall i :: 0 <= i < |batch| ==> errors[i] == broker(batch[i])
  {
    if batch == [] then [] else Responses(batch[..|batch| - 1], broker) + [broker(batch[|batch| - 1])]
  }

  function FailedIn(batch: seq<Id>, broker: Id -> Option<string>): map<Id, string> {
    map id | id in batch && broker(id).Some? :: broker(id).value
  }

  /** The failures as the worker indexes them: each event's error by its id. */
  function ById(failures: seq<PublishFailure>): map<Id, string> {
    if failures == [] then map[]
    else
      var last := failures[|failures| - 1];
      ById(failures[..|failures| - 1])[last.eventId := last.error]
  }

  method IndexErrors(failures: seq<PublishFailure>) returns (errors: map<Id, string>)
    ensures errors == ById(failures)
  {
    errors := map[];
    for n := 0 to |failures|
      invariant errors == ById(failures[..n])
    {
      assert failures[..n + 1][..n] == failures[..n];
      errors := errors[failures[n].eventId := failures[n].error];
    }
    assert failures[..|failures|] == failures;
  }

  lemma FailuresNext(batch: seq<Id>, broker: Id -> Option<string>)
    requires batch != []
    ensures var n := |batch| - 1;
            Failures(batch, Responses(batch, broker)) == Failures(batch[..n], Responses(batch[..n], broker))
              + if broker(batch[n]).Some? then [PublishFailure(batch[n], broker(batch[n]).value)] else []
  {
    var n := |batch| - 1;
    assert Responses(batch, broker)[..n] == Responses(batch[..n], broker);
  }

  lemma FailedNext(batch: seq<Id>, broker: Id -> Option<string>)
    requires batch != []
    ensures var init, last := FailedIn(batch[..|batch| - 1], broker), batch[|batch| - 1];
            FailedIn(batch, broker) == if broker(last).Some? then init[last := broker(last).value] else init
  {
    assert batch == batch[..|batch| - 1] + [batch[|batch| - 1]];
  }

  /** The index holds exactly the events the broker refused. */
  lemma {:induction false} IndexIsComplete(batch: seq<Id>, broker: Id -> Option<string>)
    ensures ById(Failures(batch, Responses(batch, broker))) == FailedIn(batch, broker)
  {
    if batch != [] {
      var n := |batch| - 1;
      IndexIsComplete(batch[..n], broker);
      FailuresNext(batch, broker);
      FailedNext(batch, broker);
      var before, after := Failures(batch[..n], Responses(batch[..n], broker)), Failures(batch, Responses(batch, broker));
      if broker(batch[n]).Some? {
        assert after[..|after| - 1] == before;
      } else {
        assert after == before;
      }
    }
  }

  /** `[event for event in events if event.id not in failed]`. */
  function Published(batch: seq<Id>, failed: map<Id, string>): (r: seq<Id>)
    ensures forall id :: id in r <==> id in batch && id !in failed
  {
    if batch == [] then []
    else
      assert batch == batch[..|batch| - 1] + [batch[|batch| - 1]];
      Published(batch[..|batch| - 1], failed) + (if batch[|batch| - 1] in failed then [] else [batch[|batch| - 1]])
  }

  lemma {:induction false} PublishedDistinct(batch: seq<Id>, failed: map<Id, string>)
    requires Distinct(batch)
    ensures Distinct(Published(batch, failed))
  {
    if batch != [] {
      var init := batch[..|batch| - 1];
      PublishedDistinct(init, failed);
      var before, last := Published(init, failed), batch[|batch| - 1];
      forall i | 0 <= i < |before| ensures before[i] != last {
        assert before[i] in before;
      }
    }
  }

  lemma ClaimIsDistinct(rows: map<Id, Row>, locked: set<Id>, now: Time, limit: nat, batch: seq<Id>)
    requires IsClaim(rows, locked, now, limit, batch)
    ensures Distinct(batch)
    ensures forall id :: id in batch ==> id in rows && id !in locked && rows[id].Due(now)
  {
    forall i, j | 0 <= i < j < |batch| ensures batch[i] != batch[j] {
      assert Precedes(rows, batch[i], batch[j]);
    }
    forall id | id in batch ensures Claimable(rows, locked, now, id) {
      var i :| 0 <= i < |batch| && batch[i] == id;
    }
  }

  /** What the broker took is processed, what it refused waits with its answer, each under its own clock reading; the rest is untouched. */
  ghost predicate EachIsSettled(before: map<Id, Row>, after: map<Id, Row>, events: seq<Id>, broker: Id -> Option<string>, t: Readings) {
    && after.Keys == before.Keys
    && (forall id :: id in before && id !in events ==> after[id] == before[id])
    && (forall id :: id in before && id in events && broker(id).None? ==> after[id] == Processed(before[id], t.markedAt))
    && (forall id :: id in before && id in events && broker(id).Some? && id in t.deferredAt ==>
          after[id] == Deferred(before[id], broker(id).value, t.deferredAt[id]))
  }

  lemma FinishingSettlesEach(rows: map<Id, Row>, events: seq<Id>, broker: Id -> Option<string>, claimAt: Time, t: Readings)
    ensures EachIsSettled(rows, FinishedRows(rows, Batch(events, |events|, FailedIn(events, broker), claimAt), t), events, broker, t)
  {
  }

  /** Claim, publish each event on its own, mark what got through, reschedule the rest, each at its own clock reading. */
  method ProcessBatch(repo: OutboxRepository, publisher: EventPublisher, limit: nat, locked: set<Id>,
                      claimAt: Time, t: Readings, broker: Id -> Option<string>) returns (events: seq<Id>)
    modifies repo, publisher
    ensures IsClaim(old(repo.rows), locked, claimAt, limit, events)
    ensures forall id :: id in events ==> id in old(repo.rows)
    ensures publisher.broker == old(publisher.broker) + Delivered(old(repo.rows), events, Responses(events, broker))
    ensures repo.rows == FinishedRows(old(repo.rows), Batch(events, |events|, FailedIn(events, broker), claimAt), t)
    ensures EachIsSettled(old(repo.rows), repo.rows, events, broker, t)
  {
    events := repo.GetUnprocessed(limit, locked, claimAt);
    ClaimIsDistinct(repo.rows, locked, claimAt, limit, events);
    ghost var b := Batch(events, |events|, FailedIn(events, broker), claimAt);
    if events == [] {
      assert repo.rows == FinishedRows(repo.rows, b, t);
      FinishingSettlesEach(repo.rows, events, broker, claimAt, t);
      return;
    }
    var failures := publisher.PublishOutbox(repo.rows, events, Responses(events, broker));
    var errors := IndexErrors(failures);
    IndexIsComplete(events, broker);
    var published := Published(events, errors);
    PublishedDistinct(events, errors);
    ghost var before := repo.rows;
    FinishBatch(repo, events, published, errors, claimAt, t);
    FinishingSettlesEach(before, events, broker, claimAt, t);
  }

  method FinishBatch(repo: OutboxRepository, events: seq<Id>, published: seq<Id>, errors: map<Id, string>,
                     ghost claimedAt: Time, t: Readings)
    requires forall id :: id in events ==> id in repo.rows
    requires Distinct(events) && Distinct(published)
    requires forall id :: id in errors ==> id in events
    requires forall id :: id in published <==> id in events && id !in errors
    modifies repo
    ensures repo.rows == FinishedRows(old(repo.rows), Batch(events, |events|, errors, claimedAt), t)
  {
    forall i | 0 <= i < |published| ensures published[i] in repo.rows {
      var id := published[i];
      assert id in published && id in events;
    }
    repo.MarkProcessed(published, t.markedAt);
    RescheduleFailed(repo, events, errors, t);
  }

  method RescheduleFailed(repo: OutboxRepository, events: seq<Id>, errors: map<Id, string>, t: Readings)
    requires forall id :: id in events ==> id in repo.rows
    requires Distinct(events)
    modifies repo
    ensures repo.rows.Keys == old(repo.rows).Keys
    ensures forall id :: id in repo.rows ==>
      repo.rows[id] == if id in events && id in errors then Deferred(old(repo.rows)[id], errors[id], t.For(id)) else old(repo.rows)[id]
  {
    for n := 0 to |events|
      invariant repo.rows.Keys == old(repo.rows).Keys
      invariant forall id :: id in repo.rows ==>
        repo.rows[id] == if id in events[..n] && id in errors then Deferred(old(repo.rows)[id], errors[id], t.For(id)) else old(repo.rows)[id]
    {
      var event := events[n];
      assert event in events && event !in events[..n];
      assert events[..n + 1] == events[..n] + [event];
      if event in errors {
        repo.Reschedule(event, errors[event], t.For(event));
      }
    }
    assert events[..|events|] == events;
  }

  // ----- the batch as steps of the machine -----

  /** Claiming a batch and publishing its first events, one by one. */
  function ClaimAndPublish(w: int, limit: nat, batch: seq<Id>, n: nat, broker: Id -> Option<string>, at: Time): seq<Timed>
    requires n <= |batch|
  {
    if n == 0 then [Timed(at, Claim(w, limit, batch))]
    else ClaimAndPublish(w, limit, batch, n - 1, broker, at) + [Timed(at, Publish(w, broker(batch[n - 1])))]
  }

  /** One more publish of a batch that has been published up to here. */
  lemma OnePublish(s: State, w: int, batch: seq<Id>, n: nat, broker: Id -> Option<string>, at: Time)
    requires n < |batch| && batch[n] in s.rows && s.clock <= at
    requires w in s.workers && s.workers[w] == Batch(batch, n, FailedIn(batch[..n], broker), at)
    ensures var a := Timed(at, Publish(w, broker(batch[n])));
            && Enabled(s, a) && Step(s, a).clock == at && Step(s, a).rows == s.rows
            && Step(s, a).workers == s.workers[w := Batch(batch, n + 1, FailedIn(batch[..n + 1], broker), at)]
            && Step(s, a).broker == s.broker + if broker(batch[n]).None? then [Wire(batch[n], s.rows[batch[n]])] else []
  {
    assert batch[..n + 1] == batch[..n] + [batch[n]];
    var failed, failed' := FailedIn(batch[..n], broker), FailedIn(batch[..n + 1], broker);
    if broker(batch[n]).Some? {
      assert failed' == failed[batch[n] := broker(batch[n]).value];
    } else {
      assert failed' == failed;
    }
  }

  lemma DeliveredNext(rows: map<Id, Row>, batch: seq<Id>, n: nat, broker: Id -> Option<string>)
    requires n < |batch| && forall i :: 0 <= i < |batch| ==> batch[i] in rows
    ensures Delivered(rows, batch[..n + 1], Responses(batch[..n + 1], broker))
         == Delivered(rows, batch[..n], Responses(batch[..n], broker))
            + if broker(batch[n]).None? then [Wire(batch[n], rows[batch[n]])] else []
  {
    var done := batch[..n + 1];
    assert done[..n] == batch[..n];
    assert Responses(done, broker)[..n] == Responses(batch[..n], broker);
  }

  /** The state in which `w` has claimed the batch and published its first events. */
  ghost predicate HasPublished(s: State, s': State, w: int, batch: seq<Id>, n: nat, broker: Id -> Option<string>, at: Time)
    requires n <= |batch| && forall i :: 0 <= i < |batch| ==> batch[i] in s.rows
  {
    && s'.clock == at && s'.rows == s.rows
    && s'.workers == s.workers[w := Batch(batch, n, FailedIn(batch[..n], broker), at)]
    && s'.broker == s.broker + Delivered(s.rows, batch[..n], Responses(batch[..n], broker))
  }

  lemma ClaimBegins(s: State, w: int, limit: nat, batch: seq<Id>, broker: Id -> Option<string>, at: Time)
    requires w !in s.workers && s.clock <= at
    requires IsClaim(s.rows, LockedIds(s.workers), at, limit, batch)
    requires forall i :: 0 <= i < |batch| ==> batch[i] in s.rows
    ensures var a := Timed(at, Claim(w, limit, batch));
            Enabled(s, a) && HasPublished(s, Step(s, a), w, batch, 0, broker, at)
  {
    assert FailedIn(batch[..0], broker) == map[];
    assert Delivered(s.rows, batch[..0], Responses(batch[..0], broker)) == [];
  }

  lemma PublishGoesOn(s: State, s': State, w: int, batch: seq<Id>, n: nat, broker: Id -> Option<string>, at: Time)
    requires n < |batch| && forall i :: 0 <= i < |batch| ==> batch[i] in s.rows
    requires HasPublished(s, s', w, batch, n, broker, at)
    ensures var a := Timed(at, Publish(w, broker(batch[n])));
            Enabled(s', a) && HasPublished(s, Step(s', a), w, batch, n + 1, broker, at)
  {
    OnePublish(s', w, batch, n, broker, at);
    DeliveredNext(s.rows, batch, n, broker);
  }

  /** The state a legal run leads to. */
  ghost predicate LeadsTo(s: State, acts: seq<Timed>, s': State) {
    Legal(s, acts) && Run(s, acts) == s'
  }

  lemma ClaimFirst(s: State, w: int, limit: nat, batch: seq<Id>, broker: Id -> Option<string>, at: Time) returns (s': State)
    requires w !in s.workers && s.clock <= at
    requires IsClaim(s.rows, LockedIds(s.workers), at, limit, batch)
    requires forall i :: 0 <= i < |batch| ==> batch[i] in s.rows
    ensures LeadsTo(s, ClaimAndPublish(w, limit, batch, 0, broker, at), s') && HasPublished(s, s', w, batch, 0, broker, at)
  {
    var claim := Timed(at, Claim(w, limit, batch));
    RunAppend(s, [], claim);
    assert ClaimAndPublish(w, limit, batch, 0, broker, at) == [] + [claim];
    ClaimBegins(s, w, limit, batch, broker, at);
    s' := Step(s, claim);
  }

  lemma PublishNext(s: State, before: seq<Timed>, s1: State, w: int, batch: seq<Id>, n: nat, broker: Id -> Option<string>, at: Time)
    returns (s': State)
    requires n < |batch| && forall i :: 0 <= i < |batch| ==> batch[i] in s.rows
    requires LeadsTo(s, before, s1) && HasPublished(s, s1, w, batch, n, broker, at)
    ensures LeadsTo(s, before + [Timed(at, Publish(w, broker(batch[n])))], s') && HasPublished(s, s', w, batch, n + 1, broker, at)
  {
    PublishGoesOn(s, s1, w, batch, n, broker, at);
    RunAppend(s, before, Timed(at, Publish(w, broker(batch[n]))));
    s' := Step(s1, Timed(at, Publish(w, broker(batch[n]))));
  }

  lemma {:induction false} PublishingInOrder(s: State, w: int, limit: nat, batch: seq<Id>, n: nat, broker: Id -> Option<string>, at: Time)
    returns (s': State)
    requires w !in s.workers && s.clock <= at && n <= |batch|
    requires IsClaim(s.rows, LockedIds(s.workers), at, limit, batch)
    requires forall i :: 0 <= i < |batch| ==> batch[i] in s.rows
    ensures LeadsTo(s, ClaimAndPublish(w, limit, batch, n, broker, at), s') && HasPublished(s, s', w, batch, n, broker, at)
  {
    if n == 0 {
      s' := ClaimFirst(s, w, limit, batch, broker, at);
    } else {
      var before := ClaimAndPublish(w, limit, batch, n - 1, broker, at);
      var s1 := PublishingInOrder(s, w, limit, batch, n - 1, broker, at);
      s' := PublishNext(s, before, s1, w, batch, n - 1, broker, at);
    }
  }

  lemma {:induction false} FinishLast(s: State, before: seq<Timed>, s1: State, w: int, batch: seq<Id>, broker: Id -> Option<string>, at: Time,
                                      t: Readings, finishAt: Time)
    requires w !in s.workers && at <= finishAt && t.Within(at, finishAt)
    requires forall i :: 0 <= i < |batch| ==> batch[i] in s.rows
    requires LeadsTo(s, before, s1) && HasPublished(s, s1, w, batch, |batch|, broker, at)
    ensures var acts := before + [Timed(finishAt, Finish(w, t))];
            && Legal(s, acts)
            && Run(s, acts).rows == FinishedRows(s.rows, Batch(batch, |batch|, FailedIn(batch, broker), at), t)
            && Run(s, acts).broker == s.broker + Delivered(s.rows, batch, Responses(batch, broker))
            && Run(s, acts).workers == s.workers
  {
    assert batch[..|batch|] == batch;
    RunAppend(s, before, Timed(finishAt, Finish(w, t)));
    assert s.workers[w := Batch(batch, |batch|, FailedIn(batch, broker), at)] - {w} == s.workers;
  }

  /**
   A batch that runs to its end is a legal run of the machine, and leaves the rows and the broker
   as the worker's own code does.
   */
  lemma {:induction false} BatchIsARun(s: State, w: int, limit: nat, batch: seq<Id>, broker: Id -> Option<string>, claimAt: Time,
                                       t: Readings, finishAt: Time)
    requires w !in s.workers && s.clock <= claimAt <= finishAt && t.Within(claimAt, finishAt)
    requires IsClaim(s.rows, LockedIds(s.workers), claimAt, limit, batch)
    ensures forall i :: 0 <= i < |batch| ==> batch[i] in s.rows
    ensures var acts := ClaimAndPublish(w, limit, batch, |batch|, broker, claimAt) + [Timed(finishAt, Finish(w, t))];
            && Legal(s, acts)
            && Run(s, acts).rows == FinishedRows(s.rows, Batch(batch, |batch|, FailedIn(batch, broker), claimAt), t)
            && Run(s, acts).broker == s.broker + Delivered(s.rows, batch, Responses(batch, broker))
            && Run(s, acts).workers == s.workers
  {
    forall i | 0 <= i < |batch| ensures batch[i] in s.rows {
      assert Claimable(s.rows, LockedIds(s.workers), claimAt, batch[i]);
    }
    var s' := PublishingInOrder(s, w, limit, batch, |batch|, broker, claimAt);
    FinishLast(s, ClaimAndPublish(w, limit, batch, |batch|, broker, claimAt), s', w, batch, broker, claimAt, t, finishAt);
  }

  // ----- the polling loop -----

  const POLL_BACKOFF_CAP := 30

  /** How many batches in a row have failed, up to and including the last. */
  function TrailingFailures(completed: seq<bool>): nat {
    if completed == [] || completed[|completed| - 1] then 0 else TrailingFailures(completed[..|completed| - 1]) + 1
  }

  /**
   The loop of `start` over the batches it gets to run before it is stopped, with the wait after
   each one in multiples of the poll interval.
   */
  method Start(completed: seq<bool>) returns (waits: seq<int>)
    ensures |waits| == |completed|
    ensures forall i :: 0 <= i < |waits| ==> waits[i] == Min(Shifted(TrailingFailures(completed[..i + 1])), POLL_BACKOFF_CAP)
  {
    var consecutiveFailures := 0;
    waits := [];
    for n := 0 to |completed|
      invariant |waits| == n && consecutiveFailures == TrailingFailures(completed[..n])
      invariant forall i :: 0 <= i < n ==> waits[i] == Min(Shifted(TrailingFailures(completed[..i + 1])), POLL_BACKOFF_CAP)
    {
      assert completed[..n + 1][..n] == completed[..n];
      if completed[n] {
        consecutiveFailures := 0;
      } else {
        consecutiveFailures := consecutiveFailures + 1;
      }
      waits := waits + [Min(Shifted(consecutiveFailures), POLL_BACKOFF_CAP)];
    }
  }

  /** The wait doubles with each failure in a row, stays at thirty intervals from the fifth on, and drops back at once. */
  lemma PollingBacksOff(completed: seq<bool>, k: nat)
    requires k <= |completed| && forall i :: |completed| - k <= i < |completed| ==> !completed[i]
    requires k < |completed| ==> completed[|completed| - k - 1]
    ensures TrailingFailures(completed) == k
    ensures Min(Shifted(k), POLL_BACKOFF_CAP) == 30 <==> k >= 5
    ensures k < 5 ==> Min(Shifted(k), POLL_BACKOFF_CAP) == Shifted(k) && Shifted(k + 1) == 2 * Shifted(k)
  {
    CountsTrailing(completed, k);
    if k >= 5 {
      ShiftedGrows(5, k);
    } else {
      assert Shifted(4) == 16 && Shifted(3) == 8 && Shifted(2) == 4;
    }
  }

  lemma {:induction false} CountsTrailing(completed: seq<bool>, k: nat)
    requires k <= |completed| && forall i :: |completed| - k <= i < |completed| ==> !completed[i]
    requires k < |completed| ==> completed[|completed| - k - 1]
    ensures TrailingFailures(completed) == k
  {
    if k > 0 {
      CountsTrailing(completed[..|completed| - 1], k - 1);
    }
  }
}
