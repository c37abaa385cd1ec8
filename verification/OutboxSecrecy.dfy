/** Non-interference: the values of sensitive fields have no influence on what the broker sees. */
module OutboxSecrecy {
  import opened Basics
  import opened Outbox
  import opened OutboxMachine

  /** Payloads that may differ only in the values of the given keys. */
  ghost predicate SamePublic(a: map<string, Json>, b: map<string, Json>, keys: seq<string>) {
    a.Keys == b.Keys && forall k :: k in a && k !in keys ==> a[k] == b[k]
  }

  /** Rows that may differ only in the values of the keys both mark as sensitive. */
  ghost predicate AlikeRow(a: Row, b: Row) {
    a.(payload := b.payload) == b && SamePublic(a.payload, b.payload, a.Sensitive())
  }

  ghost predicate AlikeRows(a: map<Id, Row>, b: map<Id, Row>) {
    a.Keys == b.Keys && forall id :: id in a ==> AlikeRow(a[id], b[id])
  }

  ghost predicate AlikeState(s: State, t: State) {
    && s.clock == t.clock && s.workers == t.workers && s.broker == t.broker
    && s.past.events.Keys == t.past.events.Keys
    && AlikeRows(s.rows, t.rows)
  }

  /** The same step, except that a commit may carry different secrets. Publish outcomes are the same. */
  ghost predicate AlikeStep(a: Timed, b: Timed) {
    a.at == b.at &&
    if a.act.Commit? && b.act.Commit? then AlikeRows(a.act.events, b.act.events) else a.act == b.act
  }

  ghost predicate AlikeActs(a: seq<Timed>, b: seq<Timed>) {
    |a| == |b| && forall i :: 0 <= i < |a| ==> AlikeStep(a[i], b[i])
  }

  lemma AlikeWire(id: Id, a: Row, b: Row)
    requires AlikeRow(a, b)
    ensures Wire(id, a) == Wire(id, b)
  {
    assert Redacted(a.payload, a.Sensitive()) == Redacted(b.payload, b.Sensitive());
  }

  /** Once the secrets are gone nothing is left to differ. */
  lemma AlikeProcessed(a: Row, b: Row, now: Time)
    requires AlikeRow(a, b)
    ensures Processed(a, now) == Processed(b, now)
  {
    assert DropKeys(a.payload, a.Sensitive()) == DropKeys(b.payload, b.Sensitive());
  }

  lemma AlikeSettled(a: Row, b: Row, id: Id, batch: Batch, t: Readings)
    requires AlikeRow(a, b)
    ensures AlikeRow(Settled(a, id, batch, t), Settled(b, id, batch, t))
  {
    AlikeProcessed(a, b, t.markedAt);
  }

  lemma AlikeClaim(a: map<Id, Row>, b: map<Id, Row>, locked: set<Id>, now: Time, limit: nat, batch: seq<Id>)
    requires AlikeRows(a, b) && IsClaim(a, locked, now, limit, batch)
    ensures IsClaim(b, locked, now, limit, batch)
  {
    forall id ensures Claimable(a, locked, now, id) <==> Claimable(b, locked, now, id) {
      if id in a { assert AlikeRow(a[id], b[id]); }
    }
    forall x, y | x in a && y in a ensures Precedes(a, x, y) <==> Precedes(b, x, y) {
      assert AlikeRow(a[x], b[x]) && AlikeRow(a[y], b[y]);
    }
  }

  lemma AlikeStepsAgree(s: State, t: State, a: Timed, b: Timed)
    requires AlikeState(s, t) && AlikeStep(a, b) && Enabled(s, a)
    requires b.act.Commit? ==> forall id :: id in b.act.events ==> IsNew(b.act.events[id])
    ensures Enabled(t, b) && AlikeState(Step(s, a), Step(t, b))
  {
    match a.act
    case Commit(_) =>
    case Claim(_, limit, batch) => AlikeClaim(s.rows, t.rows, LockedIds(s.workers), a.at, limit, batch);
    case Publish(w, _) =>
      var id := s.workers[w].ids[s.workers[w].done];
      AlikeWire(id, s.rows[id], t.rows[id]);
    case Finish(w, readings) =>
      forall id | id in s.rows ensures AlikeRow(Step(s, a).rows[id], Step(t, b).rows[id]) {
        AlikeSettled(s.rows[id], t.rows[id], id, s.workers[w], readings);
      }
    case Crash(_) =>
    case Replay(_) =>
    case Prune(before) =>
      forall id ensures id in Step(s, a).rows <==> id in Step(t, b).rows {
        if id in s.rows { assert AlikeRow(s.rows[id], t.rows[id]); }
      }
  }

  /** Commits insert rows the way the unit of work builds them. */
  ghost predicate WellBuilt(acts: seq<Timed>) {
    forall i :: 0 <= i < |acts| && acts[i].act.Commit? ==> forall id :: id in acts[i].act.events ==> IsNew(acts[i].act.events[id])
  }

  /**
   Non-interference over whole runs. Two histories that differ only in the values of sensitive
   fields run in step, through retries, crashes, replays and pruning: if one is possible so is the
   other, their brokers see the same messages, and their rows differ at most where secrets still wait.
   */
  lemma {:induction false} SecretsDoNotInterfere(now: Time, a: seq<Timed>, b: seq<Timed>)
    requires AlikeActs(a, b) && WellBuilt(b) && Legal(Empty(now), a)
    ensures Legal(Empty(now), b)
    ensures Run(Empty(now), a).broker == Run(Empty(now), b).broker
    ensures AlikeState(Run(Empty(now), a), Run(Empty(now), b))
  {
    if a != [] {
      var n := |a| - 1;
      SecretsDoNotInterfere(now, a[..n], b[..n]);
      AlikeStepsAgree(Run(Empty(now), a[..n]), Run(Empty(now), b[..n]), a[n], b[n]);
    }
  }
}
