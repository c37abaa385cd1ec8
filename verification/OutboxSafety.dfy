/** What every run of the outbox guarantees: nothing lost, duplicates only by crashes, retries bounded. */
module OutboxSafety {
  import opened Basics
  import opened Outbox
  import opened OutboxMachine

  // ----- delivery -----

  /**
   At least once. In every run no row is held by two workers, and every committed event either
   still has its row, pending or dead-lettered, or has reached the broker.
   */
  lemma {:induction false} NothingIsLost(now: Time, acts: seq<Timed>, id: Id)
    requires Legal(Empty(now), acts)
    requires id in Run(Empty(now), acts).past.events
    ensures Disjoint(Run(Empty(now), acts))
    ensures var s := Run(Empty(now), acts);
            || (id in s.rows && s.rows[id].Pending() && s.rows[id].attempts < MAX_ATTEMPTS)
            || (id in s.rows && s.rows[id].failedAt.Some? && s.rows[id].attempts == MAX_ATTEMPTS)
            || (Done(s, id) && Deliveries(s.broker, id) >= 1)
  {
    RunKeepsInv(now, acts);
    assert IdInv(Run(Empty(now), acts), id);
  }

  /** The deliveries of an event are accounted for to the last one, in every run. */
  lemma {:induction false} DeliveriesAreConserved(now: Time, acts: seq<Timed>, id: Id)
    requires Legal(Empty(now), acts)
    ensures var s := Run(Empty(now), acts);
            Deliveries(s.broker, id) == s.past.lost[id] + Bit(InFlight(s, id)) + Bit(Done(s, id))
    ensures !(InFlight(Run(Empty(now), acts), id) && Done(Run(Empty(now), acts), id))
  {
    RunKeepsInv(now, acts);
    var s := Run(Empty(now), acts);
    assert IdInv(s, id);
    if InFlight(s, id) {
      var w :| SentBy(s, w, id);
      assert WorkerInv(s, s.workers[w]);
    }
  }

  predicate CrashFree(acts: seq<Timed>) {
    forall i :: 0 <= i < |acts| ==> !acts[i].act.Crash?
  }

  predicate ReplayFree(acts: seq<Timed>) {
    forall i :: 0 <= i < |acts| ==> !acts[i].act.Replay?
  }

  lemma {:induction false} NoCrashNoLoss(now: Time, acts: seq<Timed>)
    requires CrashFree(acts)
    ensures Run(Empty(now), acts).past.lost == Run(Empty(now), acts).past.wasted == multiset{}
  {
    if acts != [] {
      NoCrashNoLoss(now, acts[..|acts| - 1]);
    }
  }

  lemma {:induction false} NoReplayNoReturn(now: Time, acts: seq<Timed>)
    requires ReplayFree(acts)
    ensures Run(Empty(now), acts).past.replays == multiset{}
  {
    if acts != [] {
      NoReplayNoReturn(now, acts[..|acts| - 1]);
    }
  }

  /** At most once, unless a worker crashes between a delivery and the end of its batch. */
  lemma {:induction false} AtMostOnceWithoutCrashes(now: Time, acts: seq<Timed>, id: Id)
    requires Legal(Empty(now), acts) && CrashFree(acts)
    ensures Deliveries(Run(Empty(now), acts).broker, id) <= 1
  {
    NoCrashNoLoss(now, acts);
    DeliveriesAreConserved(now, acts, id);
  }

  /** The step removes the row, by pruning it when it had long been processed. */
  ghost predicate Prunes(s: State, a: Timed, id: Id) {
    a.act.Prune? && id in s.rows && s.rows[id].processedAt.Some? && s.rows[id].processedAt.value < a.act.before
  }

  lemma GoneByPruning(s: State, a: Timed, id: Id)
    requires id in s.rows && id !in Step(s, a).rows
    ensures Prunes(s, a, id)
  {
  }

  /**
   Only the row of a delivered event ever disappears. If a row is gone after a run, some step of
   the run pruned it, and it had been processed before that step's cutoff.
   */
  lemma {:induction false} OnlyProcessedRowsAreDeleted(s: State, acts: seq<Timed>, id: Id)
    requires id in s.rows && id !in Run(s, acts).rows
    ensures exists k :: 0 <= k < |acts| && Prunes(Run(s, acts[..k]), acts[k], id)
  {
    if acts != [] {
      var n := |acts| - 1;
      if id in Run(s, acts[..n]).rows {
        GoneByPruning(Run(s, acts[..n]), acts[n], id);
      } else {
        OnlyProcessedRowsAreDeleted(s, acts[..n], id);
        var k :| 0 <= k < n && Prunes(Run(s, acts[..n][..k]), acts[..n][k], id);
        assert acts[..n][..k] == acts[..k];
      }
    }
  }

  // ----- retries -----

  /** Finishing a batch settles or charges every event in it, and touches no other row. */
  lemma BatchMakesProgress(s: State, a: Timed, id: Id)
    requires Inv(s) && Enabled(s, a) && a.act.Finish? && id in s.rows
    ensures var b, row, row' := s.workers[a.act.worker], s.rows[id], Step(s, a).rows[id];
            && (id !in b.ids ==> row' == row)
            && (b.Sent(id) ==> row'.processedAt == Some(a.act.readings.markedAt) && row'.attempts == row.attempts)
            && (id in b.failed ==> row'.attempts == row.attempts + 1 && row'.processedAt.None?)
            && (id in b.failed ==> row'.failedAt == if row.attempts + 1 == MAX_ATTEMPTS then Some(a.act.readings.For(id)) else None)
            && (id in b.ids ==> b.Sent(id) || id in b.failed)
  {
    var b := s.workers[a.act.worker];
    assert WorkerInv(s, b) && IdInv(s, id);
    assert b.ids[..b.done] == b.ids;
  }

  /** The invariant goes on holding from any state in which it holds. */
  lemma {:induction false} InvOverRun(s: State, acts: seq<Timed>)
    requires Inv(s) && Legal(s, acts)
    ensures Inv(Run(s, acts))
  {
    if acts != [] {
      InvOverRun(s, acts[..|acts| - 1]);
      StepKeepsInv(Run(s, acts[..|acts| - 1]), acts[|acts| - 1]);
    }
  }

  /** No claim of the run takes the event. */
  predicate PassesOver(acts: seq<Timed>, id: Id) {
    forall i :: 0 <= i < |acts| && acts[i].act.Claim? ==> id !in acts[i].act.batch
  }

  ghost predicate Free(s: State, id: Id) {
    id in s.rows && s.rows[id].Pending() && id !in LockedIds(s.workers)
  }

  lemma FreeRowStays(s: State, a: Timed, id: Id)
    requires Inv(s) && Enabled(s, a) && Free(s, id) && PassesOver([a], id)
    ensures Free(Step(s, a), id) && Step(s, a).rows[id] == s.rows[id]
  {
    assert [a][0] == a;
    if a.act.Finish? {
      assert WorkerInv(s, s.workers[a.act.worker]);
      assert id !in s.workers[a.act.worker].ids;
    }
    if a.act.Commit? {
      assert IdInv(s, id);
    }
  }

  lemma {:induction false} FreeRowStaysOverRun(s: State, acts: seq<Timed>, id: Id)
    requires Inv(s) && Legal(s, acts) && Free(s, id) && PassesOver(acts, id)
    ensures Free(Run(s, acts), id) && Run(s, acts).rows[id] == s.rows[id]
  {
    if acts != [] {
      var n := |acts| - 1;
      FreeRowStaysOverRun(s, acts[..n], id);
      InvOverRun(s, acts[..n]);
      assert PassesOver([acts[n]], id);
      FreeRowStays(Run(s, acts[..n]), acts[n], id);
    }
  }

  /** An event whose publish failed is free again when its batch is finished. */
  lemma FailedIsFree(s: State, a: Timed, id: Id)
    requires Inv(s) && Enabled(s, a) && a.act.Finish? && id in s.workers[a.act.worker].failed
    requires id in s.rows && s.rows[id].attempts < 7
    ensures Free(Step(s, a), id)
    ensures s.rows[id].Pending() && Step(s, a).rows[id] == Deferred(s.rows[id], s.workers[a.act.worker].failed[id], a.act.readings.For(id))
  {
    var w := a.act.worker;
    assert WorkerInv(s, s.workers[w]) && HeldBy(s, w, id);
    FailureBacksOff(s.rows[id], s.workers[w].failed[id], a.act.readings.For(id), 0);
    forall v | v in s.workers && v != w ensures id !in s.workers[v].ids {
      HeldByOne(s, w, v, id);
    }
  }

  /**
   Retries come on time. An event whose publish failed for the n-th time, n below eight, is offered
   again exactly from two to the n seconds after it was rescheduled: whatever else happens, until
   some worker claims it, a claim may take it at a moment if and only if that time has passed.
   */
  lemma RetriesComeOnTime(s: State, a: Timed, after: seq<Timed>, id: Id, now: Time)
    requires Inv(s) && Enabled(s, a) && a.act.Finish? && id in s.workers[a.act.worker].failed
    requires id in s.rows && s.rows[id].attempts < 7
    requires Legal(Step(s, a), after) && PassesOver(after, id)
    ensures var s' := Run(Step(s, a), after);
            Waiting(s'.rows, LockedIds(s'.workers), now, id)
            <==> now >= a.act.readings.For(id) + Seconds([2, 4, 8, 16, 32, 64, 128][s.rows[id].attempts])
  {
    FailedIsFree(s, a, id);
    StepKeepsInv(s, a);
    FreeRowStaysOverRun(Step(s, a), after, id);
    FailureBacksOff(s.rows[id], s.workers[a.act.worker].failed[id], a.act.readings.For(id), now);
  }

  // ----- the measure -----

  /** What one row adds: eight less its attempts when it is pending, nothing otherwise. */
  function Left(row: Row): nat {
    if row.Pending() && row.attempts <= MAX_ATTEMPTS then MAX_ATTEMPTS - row.attempts else 0
  }

  ghost function AllLeft(rows: map<Id, Row>): map<Id, nat> {
    map id | id in rows :: Left(rows[id])
  }

  ghost function Pick(m: map<Id, nat>): (id: Id)
    requires m != map[]
    ensures id in m
  {
    var id := PickFrom(m.Keys);
    id
  }

  ghost function PickFrom<T(!new)>(s: set<T>): (x: T)
    requires s != {}
    ensures x in s
  {
    var x :| x in s;
    x
  }

  ghost function Sum(m: map<Id, nat>): nat
    decreases |m|
  {
    if m == map[] then 0
    else
      assert (m - {Pick(m)}).Keys == m.Keys - {Pick(m)};
      m[Pick(m)] + Sum(m - {Pick(m)})
  }

  /** The sum of 8 - attempts over the pending rows. */
  ghost function Measure(rows: map<Id, Row>): nat {
    Sum(AllLeft(rows))
  }

  lemma Fewer<V>(m: map<Id, V>, id: Id)
    requires id in m
    ensures (m - {id}).Keys == m.Keys - {id} && |m - {id}| == |m| - 1
  {
    assert (m - {id}).Keys == m.Keys - {id};
  }

  lemma {:induction false} SumWithout(m: map<Id, nat>, x: Id)
    requires x in m
    ensures Sum(m) == m[x] + Sum(m - {x})
    decreases |m|
  {
    var y := Pick(m);
    Fewer(m, x);
    Fewer(m, y);
    if x != y {
      SumWithout(m - {y}, x);
      SumWithout(m - {x}, y);
      assert (m - {y}) - {x} == (m - {x}) - {y};
    }
  }

  /** Nothing has more in the first table than in the second. */
  ghost predicate AtMostEach(a: map<Id, nat>, b: map<Id, nat>) {
    forall id :: id in a && a[id] > 0 ==> id in b && a[id] <= b[id]
  }

  lemma {:induction false} SumIsMonotone(a: map<Id, nat>, b: map<Id, nat>)
    requires AtMostEach(a, b)
    ensures Sum(a) <= Sum(b)
    decreases |a|
  {
    if a != map[] {
      var id := Pick(a);
      Fewer(a, id);
      if id in b {
        SumWithout(b, id);
        SumIsMonotone(a - {id}, b - {id});
      } else {
        SumIsMonotone(a - {id}, b);
      }
    }
  }

  lemma SumFalls(a: map<Id, nat>, b: map<Id, nat>, id: Id)
    requires AtMostEach(a, b) && id in b && b[id] > 0 && (id in a ==> a[id] < b[id])
    ensures Sum(a) < Sum(b)
  {
    SumWithout(b, id);
    if id in a {
      SumWithout(a, id);
      SumIsMonotone(a - {id}, b - {id});
    } else {
      SumIsMonotone(a, b - {id});
    }
  }

  lemma SumOfOneMore(m: map<Id, nat>, more: map<Id, nat>, id: Id)
    requires m.Keys !! more.Keys && id in more
    ensures Sum(m + more) == Sum(m + (more - {id})) + more[id]
  {
    SumWithout(m + more, id);
    assert (m + more) - {id} == m + (more - {id});
  }

  lemma {:induction false} SumOfMore(m: map<Id, nat>, more: map<Id, nat>)
    requires m.Keys !! more.Keys && forall id :: id in more ==> more[id] <= 8
    ensures Sum(m + more) <= Sum(m) + 8 * |more|
    decreases |more|
  {
    if more == map[] {
      assert m + more == m;
    } else {
      var id := Pick(more);
      Fewer(more, id);
      SumOfOneMore(m, more, id);
      SumOfMore(m, more - {id});
    }
  }

  lemma LeftMerged(rows: map<Id, Row>, more: map<Id, Row>)
    requires rows.Keys !! more.Keys
    ensures AllLeft(rows + more) == AllLeft(rows) + AllLeft(more) && |AllLeft(more)| == |more|
  {
    assert AllLeft(more).Keys == more.Keys;
  }

  lemma MergedSize<V>(m: map<Id, V>, more: map<Id, V>)
    requires m.Keys !! more.Keys
    ensures |m + more| == |m| + |more|
  {
    assert (m + more).Keys == m.Keys + more.Keys;
  }

  lemma StepGainsNothing(s: State, a: Timed)
    requires Inv(s) && Enabled(s, a) && !a.act.Commit? && !a.act.Replay?
    ensures AtMostEach(AllLeft(Step(s, a).rows), AllLeft(s.rows))
  {
  }

  /** Nothing but a commit or a replay adds to the measure, and every completed batch with an event in it lowers it. */
  lemma {:induction false} MeasureFalls(s: State, a: Timed)
    requires Inv(s) && Enabled(s, a) && !a.act.Commit? && !a.act.Replay?
    ensures Measure(Step(s, a).rows) <= Measure(s.rows)
    ensures a.act.Finish? && s.workers[a.act.worker].ids != [] ==> Measure(Step(s, a).rows) < Measure(s.rows)
  {
    var before, after := AllLeft(s.rows), AllLeft(Step(s, a).rows);
    StepGainsNothing(s, a);
    SumIsMonotone(after, before);
    if a.act.Finish? && s.workers[a.act.worker].ids != [] {
      var id := s.workers[a.act.worker].ids[0];
      assert WorkerInv(s, s.workers[a.act.worker]) && id in s.workers[a.act.worker].ids && IdInv(s, id);
      BatchMakesProgress(s, a, id);
      SumFalls(after, before, id);
    }
  }

  /** How many batches with at least one event a run completes. */
  ghost function Completed(now: Time, acts: seq<Timed>): nat {
    if acts == [] then 0
    else
      var s, a := Run(Empty(now), acts[..|acts| - 1]), acts[|acts| - 1];
      Completed(now, acts[..|acts| - 1]) + Bit(a.act.Finish? && a.act.worker in s.workers && s.workers[a.act.worker].ids != [])
  }

  /**
   The outbox drains. Without replays, and however often workers crash, the batches completed so
   far and the attempts still left together never exceed eight for each event.
   */
  lemma {:induction false} BatchesAreBounded(now: Time, acts: seq<Timed>)
    requires Legal(Empty(now), acts) && ReplayFree(acts)
    ensures Completed(now, acts) + Measure(Run(Empty(now), acts).rows) <= 8 * |Run(Empty(now), acts).past.events|
  {
    if acts == [] {
      assert AllLeft(map[]) == map[];
    } else {
      var init, a := acts[..|acts| - 1], acts[|acts| - 1];
      var s := Run(Empty(now), init);
      BatchesAreBounded(now, init);
      RunKeepsInv(now, init);
      if a.act.Commit? {
        CommitAddsEight(s, a);
      } else {
        MeasureFalls(s, a);
      }
    }
  }

  lemma CommitAddsEight(s: State, a: Timed)
    requires Inv(s) && Enabled(s, a) && a.act.Commit?
    ensures Measure(Step(s, a).rows) <= Measure(s.rows) + 8 * |a.act.events|
    ensures |Step(s, a).past.events| == |s.past.events| + |a.act.events|
  {
    var events := a.act.events;
    forall id | id in s.rows ensures id !in events {
      assert IdInv(s, id);
    }
    LeftMerged(s.rows, events);
    SumOfMore(AllLeft(s.rows), AllLeft(events));
    MergedSize(s.past.events, events);
  }

  lemma {:induction false} BoundedMultiset<T>(m: multiset<T>, ids: set<T>, bound: nat)
    requires forall id :: id in m ==> id in ids
    requires forall id :: id in ids ==> m[id] <= bound
    ensures |m| <= bound * |ids|
    decreases |ids|
  {
    if ids == {} {
      assert m == multiset{};
    } else {
      var id := AnElement(ids);
      var rest := m[id := 0];
      assert |rest| == |m| - m[id];
      BoundedMultiset(rest, ids - {id}, bound);
      assert bound * |ids| == bound * |ids - {id}| + bound;
    }
  }

  // ----- the bookkeeping against the run itself -----

  /** The step publishes the event, crashes a worker that had tried or sent it, or replays it. */
  predicate PublishesIt(s: State, a: Timed, id: Id) {
    && a.act.Publish? && a.act.worker in s.workers
    && s.workers[a.act.worker].done < |s.workers[a.act.worker].ids| && s.workers[a.act.worker].ids[s.workers[a.act.worker].done] == id
  }

  predicate CrashesAfterTrying(s: State, a: Timed, id: Id) {
    a.act.Crash? && a.act.worker in s.workers && s.workers[a.act.worker].Tried(id)
  }

  predicate CrashesAfterSending(s: State, a: Timed, id: Id) {
    a.act.Crash? && a.act.worker in s.workers && s.workers[a.act.worker].Sent(id)
  }

  predicate ReplaysIt(s: State, a: Timed, id: Id) {
    a.act.Replay? && id in a.act.ids && id in s.rows && s.rows[id].failedAt.Some?
  }

  /** How many steps of a run did each of these. */
  datatype Tally = Tally(published: nat, wasted: nat, lost: nat, replayed: nat)

  function TallyOf(s: State, acts: seq<Timed>, id: Id): Tally {
    if acts == [] then Tally(0, 0, 0, 0)
    else
      var before, at, a := TallyOf(s, acts[..|acts| - 1], id), Run(s, acts[..|acts| - 1]), acts[|acts| - 1];
      Tally(before.published + Bit(PublishesIt(at, a, id)), before.wasted + Bit(CrashesAfterTrying(at, a, id)),
            before.lost + Bit(CrashesAfterSending(at, a, id)), before.replayed + Bit(ReplaysIt(at, a, id)))
  }

  lemma StepIsTallied(s: State, a: Timed, id: Id)
    requires Enabled(s, a) && Inv(s)
    ensures Step(s, a).past.tries[id] == s.past.tries[id] + Bit(PublishesIt(s, a, id))
    ensures Step(s, a).past.wasted[id] == s.past.wasted[id] + Bit(CrashesAfterTrying(s, a, id))
    ensures Step(s, a).past.lost[id] == s.past.lost[id] + Bit(CrashesAfterSending(s, a, id))
    ensures Step(s, a).past.replays[id] == s.past.replays[id] + Bit(ReplaysIt(s, a, id))
  {
    if a.act.Crash? {
      var b := s.workers[a.act.worker];
      assert WorkerInv(s, b);
    }
  }

  /** The counts that the other theorems speak of are those of the steps that happened. */
  lemma {:induction false} PastIsWhatHappened(now: Time, acts: seq<Timed>, id: Id)
    requires Legal(Empty(now), acts)
    ensures var past := Run(Empty(now), acts).past;
            TallyOf(Empty(now), acts, id) == Tally(past.tries[id], past.wasted[id], past.lost[id], past.replays[id])
  {
    if acts != [] {
      var init := acts[..|acts| - 1];
      PastIsWhatHappened(now, init, id);
      RunKeepsInv(now, init);
      StepIsTallied(Run(Empty(now), init), acts[|acts| - 1], id);
    }
  }

  /**
   Retries end. Without crashes and replays no event is published more than eight times, so a run
   over n events makes at most 8n publish attempts.
   */
  lemma {:induction false} RetriesAreBounded(now: Time, acts: seq<Timed>)
    requires Legal(Empty(now), acts) && CrashFree(acts) && ReplayFree(acts)
    ensures var past := Run(Empty(now), acts).past;
            && (forall id :: past.tries[id] <= 8)
            && |past.tries| <= 8 * |past.events|
  {
    RunKeepsInv(now, acts);
    NoCrashNoLoss(now, acts);
    NoReplayNoReturn(now, acts);
    var s := Run(Empty(now), acts);
    forall id ensures s.past.tries[id] <= 8 && (id !in s.past.events ==> s.past.tries[id] == 0) {
      assert IdInv(s, id);
      if BeingTried(s, id) {
        var w :| TriedBy(s, w, id);
        assert WorkerInv(s, s.workers[w]);
      }
    }
    BoundedMultiset(s.past.tries, s.past.events.Keys, 8);
  }

  /** Every crash and every replay buys an event a known number of further attempts, and nothing else does. */
  lemma {:induction false} AttemptsAreAccountedFor(now: Time, acts: seq<Timed>, id: Id)
    requires Legal(Empty(now), acts)
    ensures var past := Run(Empty(now), acts).past;
            past.tries[id] <= past.wasted[id] + 8 * past.replays[id] + 8
  {
    RunKeepsInv(now, acts);
    var s := Run(Empty(now), acts);
    assert IdInv(s, id);
    if BeingTried(s, id) {
      var w :| TriedBy(s, w, id);
      assert WorkerInv(s, s.workers[w]);
    }
  }

  // ----- timing -----

  /** The backoffs of an event that fails every time double from two seconds; the cap never binds. */
  lemma {:induction false} BackoffsInFull(failures: nat)
    requires failures <= 7
    ensures BackoffDelay(failures) == Seconds(Shifted(failures)) && Shifted(failures) < BACKOFF_CAP_SECONDS
    ensures BackoffSum(failures) == Seconds(2 * Shifted(failures) - 2)
  {
    assert Shifted(3) == 8 && Shifted(5) == 32 && Shifted(7) == 128;
    ShiftedGrows(failures, 7);
    if failures > 0 {
      BackoffsInFull(failures - 1);
    }
  }

  /** The step reschedules an uncharged event at this clock reading. */
  ghost predicate FailsFirst(s: State, a: Timed, id: Id, when: Time) {
    && a.act.Finish? && a.act.worker in s.workers && id in s.workers[a.act.worker].failed
    && id in s.rows && s.rows[id].attempts == 0 && when == a.act.readings.For(id)
  }

  lemma FirstFailureMoves(s: State, a: Timed, id: Id)
    requires id in Step(s, a).past.firstFailure
    ensures FailsFirst(s, a, id, Step(s, a).past.firstFailure[id])
         || (id in s.past.firstFailure && Step(s, a).past.firstFailure[id] == s.past.firstFailure[id])
  {
  }

  lemma {:induction false} FirstFailureHappened(s: State, acts: seq<Timed>, id: Id, when: Time)
    requires s.past.firstFailure == map[]
    requires id in Run(s, acts).past.firstFailure && Run(s, acts).past.firstFailure[id] == when
    ensures exists k :: 0 <= k < |acts| && FailsFirst(Run(s, acts[..k]), acts[k], id, when)
  {
    if acts != [] {
      var n := |acts| - 1;
      FirstFailureMoves(Run(s, acts[..n]), acts[n], id);
      if !FailsFirst(Run(s, acts[..n]), acts[n], id, when) {
        FirstFailureHappened(s, acts[..n], id, when);
        var k :| 0 <= k < n && FailsFirst(Run(s, acts[..n][..k]), acts[..n][k], id, when);
        assert acts[..n][..k] == acts[..k];
      }
    }
  }

  /**
   No event is given up on early. A dead-lettered row failed for the eighth time, and some step of
   the run rescheduled it, still uncharged, at least 254 seconds before.
   */
  lemma {:induction false} DeadLetterTakesItsTime(now: Time, acts: seq<Timed>, id: Id)
    requires Legal(Empty(now), acts)
    requires id in Run(Empty(now), acts).rows && Run(Empty(now), acts).rows[id].failedAt.Some?
    ensures Run(Empty(now), acts).rows[id].attempts == 8
    ensures exists k, when ::
      && 0 <= k < |acts| && FailsFirst(Run(Empty(now), acts[..k]), acts[k], id, when)
      && Run(Empty(now), acts).rows[id].failedAt.value >= when + Seconds(254)
  {
    RunKeepsInv(now, acts);
    assert IdInv(Run(Empty(now), acts), id);
    BackoffsInFull(7);
    assert Shifted(3) == 8 && Shifted(5) == 32 && Shifted(7) == 128;
    FirstFailureHappened(Empty(now), acts, id, Run(Empty(now), acts).past.firstFailure[id]);
  }

  // ----- secrets -----

  /** A message of this event: each sensitive field redacted and everything else as committed. */
  ghost predicate Carries(m: Message, original: Row) {
    && m.eventType == original.eventType && m.createdAt == original.createdAt
    && m.aggregateType == original.aggregateType && m.aggregateId == original.aggregateId
    && m.payload.Keys == original.payload.Keys
    && (forall k :: k in m.payload ==> m.payload[k] == if k in original.Sensitive() then REDACTED else original.payload[k])
  }

  /** A row that has lost each sensitive field and kept every other. */
  ghost predicate KeepsNoSecret(row: Row, original: Row) {
    && (forall k :: k in row.payload <==> k in original.payload && k !in original.Sensitive())
    && (forall k :: k in row.payload ==> row.payload[k] == original.payload[k])
  }

  /** No credential reaches the broker and none outlives its use. */
  lemma {:induction false} SecretsAreContained(now: Time, acts: seq<Timed>)
    requires Legal(Empty(now), acts)
    ensures var s := Run(Empty(now), acts);
            && (forall m :: m in s.broker ==> m.eventId in s.past.events && Carries(m, s.past.events[m.eventId]))
            && (forall id :: id in s.rows && s.rows[id].processedAt.Some? ==>
                  id in s.past.events && KeepsNoSecret(s.rows[id], s.past.events[id]))
  {
    RunKeepsInv(now, acts);
    var s := Run(Empty(now), acts);
    forall m | m in s.broker ensures m.eventId in s.past.events && Carries(m, s.past.events[m.eventId]) {
      assert OfAnEvent(m, s.past.events);
    }
    forall id | id in s.rows && s.rows[id].processedAt.Some? ensures id in s.past.events && KeepsNoSecret(s.rows[id], s.past.events[id]) {
      assert IdInv(s, id);
    }
  }
}
