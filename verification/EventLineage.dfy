/**
 The versions of aggregates made and registered in one transaction, and what becomes of the events
 recorded on them.
 */
module EventLineage {
  import opened Basics
  import opened UnitOfWork

  /** A version of an entity, by the lineage it belongs to and the events it holds. */
  datatype Version = Version(root: int, events: seq<Event>)

  datatype Recorded = Recorded(root: int, event: Event)

  /**
   One transaction: every version made so far, the newest of each lineage, every event recorded
   with its lineage, and the registrations in order.
   */
  datatype Work = Work(versions: seq<Version>, newest: map<int, int>, recorded: seq<Recorded>, calls: seq<int>)

  datatype Change =
    | Load                              // a new lineage, with no events
    | Copy(version: int)                // `_with`
    | Record(version: int, event: Event)
    | Register(version: int)

  /** Only the newest version of a lineage is copied or recorded on: older ones are left behind. */
  predicate Allowed(w: Work, c: Change) {
    match c
    case Load => true
    case Copy(v) => IsNewest(w, v)
    case Record(v, _) => IsNewest(w, v)
    case Register(v) => 0 <= v < |w.versions|
  }

  function Apply(w: Work, c: Change): Work
    requires Allowed(w, c)
  {
    match c
    case Load => w.(versions := w.versions + [Version(|w.versions|, [])], newest := w.newest[|w.versions| := |w.versions|])
    case Copy(v) => w.(versions := w.versions + [w.versions[v]], newest := w.newest[w.versions[v].root := |w.versions|])
    case Record(v, e) =>
      w.(versions := w.versions[v := Version(w.versions[v].root, w.versions[v].events + [e])],
         recorded := w.recorded + [Recorded(w.versions[v].root, e)])
    case Register(v) => w.(calls := w.calls + [v])
  }

  /** The events of one lineage, in the order they were recorded. */
  function Of(recorded: seq<Recorded>, root: int): seq<Event> {
    if recorded == [] then []
    else
      var last := recorded[|recorded| - 1];
      Of(recorded[..|recorded| - 1], root) + if last.root == root then [last.event] else []
  }

  /** The events of the given lineages, one lineage after another. */
  function OfAll(recorded: seq<Recorded>, roots: seq<int>): seq<Event> {
    if roots == [] then [] else OfAll(recorded, roots[..|roots| - 1]) + Of(recorded, roots[|roots| - 1])
  }

  function Events(recorded: seq<Recorded>): seq<Event> {
    if recorded == [] then [] else Events(recorded[..|recorded| - 1]) + [recorded[|recorded| - 1].event]
  }

  ghost predicate NewestHolds(w: Work, root: int)
    requires root in w.newest
  {
    var v := w.newest[root];
    0 <= v < |w.versions| && w.versions[v].root == root && w.versions[v].events == Of(w.recorded, root)
  }

  ghost predicate WorkInv(w: Work) {
    && (forall v :: 0 <= v < |w.versions| ==> 0 <= w.versions[v].root < |w.versions|)
    && (forall root {:trigger NewestHolds(w, root)} :: root in w.newest ==> NewestHolds(w, root) && 0 <= root < |w.versions|)
    && (forall i :: 0 <= i < |w.recorded| ==> w.recorded[i].root in w.newest)
    && (forall i :: 0 <= i < |w.calls| ==> 0 <= w.calls[i] < |w.versions|)
  }

  lemma {:induction false} UnknownHasNone(recorded: seq<Recorded>, root: int)
    requires forall i :: 0 <= i < |recorded| ==> recorded[i].root != root
    ensures Of(recorded, root) == []
  {
    if recorded != [] {
      UnknownHasNone(recorded[..|recorded| - 1], root);
    }
  }

  lemma ChangeKeepsNewest(w: Work, c: Change, root: int)
    requires WorkInv(w) && Allowed(w, c) && root in Apply(w, c).newest
    ensures NewestHolds(Apply(w, c), root) && 0 <= root < |Apply(w, c).versions|
  {
    assert root in w.newest ==> NewestHolds(w, root);
    match c
    case Load =>
      if root == |w.versions| {
        UnknownHasNone(w.recorded, root);
      }
    case Copy(v) =>
    case Record(v, e) =>
      OfGrows(w.recorded, Recorded(w.versions[v].root, e), root);
    case Register(v) =>
  }

  lemma ChangeKeepsInv(w: Work, c: Change)
    requires WorkInv(w) && Allowed(w, c)
    ensures WorkInv(Apply(w, c))
  {
    var w' := Apply(w, c);
    forall root | root in w'.newest ensures NewestHolds(w', root) && 0 <= root < |w'.versions| {
      ChangeKeepsNewest(w, c, root);
    }
  }

  /** The work a sequence of changes amounts to, or nothing when one of them is not allowed. */
  function Perform(changes: seq<Change>): Option<Work> {
    if changes == [] then Some(Work([], map[], [], []))
    else
      match Perform(changes[..|changes| - 1])
      case Some(w) => if Allowed(w, changes[|changes| - 1]) then Some(Apply(w, changes[|changes| - 1])) else None
      case None => None
  }

  lemma {:induction false} PerformKeepsInv(changes: seq<Change>)
    requires Perform(changes).Some?
    ensures WorkInv(Perform(changes).value)
  {
    if changes != [] {
      PerformKeepsInv(changes[..|changes| - 1]);
      ChangeKeepsInv(Perform(changes[..|changes| - 1]).value, changes[|changes| - 1]);
    }
  }

  // ----- conservation -----

  function Collected(versions: seq<Version>, tracked: seq<int>): seq<Event>
    requires forall i :: 0 <= i < |tracked| ==> 0 <= tracked[i] < |versions|
  {
    if tracked == [] then []
    else Collected(versions, tracked[..|tracked| - 1]) + versions[tracked[|tracked| - 1]].events
  }

  function Roots(versions: seq<Version>, tracked: seq<int>): (roots: seq<int>)
    requires forall i :: 0 <= i < |tracked| ==> 0 <= tracked[i] < |versions|
    ensures |roots| == |tracked| && forall i :: 0 <= i < |tracked| ==> roots[i] == versions[tracked[i]].root
  {
    if tracked == [] then []
    else Roots(versions, tracked[..|tracked| - 1]) + [versions[tracked[|tracked| - 1]].root]
  }

  predicate IsNewest(w: Work, v: int) {
    0 <= v < |w.versions| && w.versions[v].root in w.newest && w.newest[w.versions[v].root] == v
  }

  predicate OnlyNewest(w: Work) {
    forall i :: 0 <= i < |w.calls| ==> IsNewest(w, w.calls[i])
  }

  /** Every lineage on which something was recorded had its newest version registered. */
  predicate AllRegistered(w: Work) {
    forall i :: 0 <= i < |w.recorded| ==> w.recorded[i].root in w.newest && w.newest[w.recorded[i].root] in w.calls
  }

  lemma {:induction false} CollectedByRoots(w: Work, tracked: seq<int>)
    requires WorkInv(w) && forall i :: 0 <= i < |tracked| ==> tracked[i] in w.calls
    requires OnlyNewest(w)
    ensures Collected(w.versions, tracked) == OfAll(w.recorded, Roots(w.versions, tracked))
  {
    if tracked != [] {
      var n := |tracked| - 1;
      CollectedByRoots(w, tracked[..n]);
      assert Roots(w.versions, tracked)[..n] == Roots(w.versions, tracked[..n]);
      var root := w.versions[tracked[n]].root;
      assert NewestHolds(w, root);
    }
  }

  lemma OfGrows(recorded: seq<Recorded>, x: Recorded, root: int)
    ensures Of(recorded + [x], root) == Of(recorded, root) + if x.root == root then [x.event] else []
  {
    assert (recorded + [x])[..|recorded|] == recorded;
  }

  lemma CountOfBoth(a: seq<Event>, b: seq<Event>, e: Event)
    ensures multiset(a + b)[e] == multiset(a)[e] + multiset(b)[e]
  {
    assert multiset(a + b) == multiset(a) + multiset(b);
  }

  lemma CountOfGrown(recorded: seq<Recorded>, x: Recorded, root: int, e: Event)
    ensures multiset(Of(recorded + [x], root))[e] == multiset(Of(recorded, root))[e] + Bit(x.root == root && x.event == e)
  {
    OfGrows(recorded, x, root);
    CountOfBoth(Of(recorded, root), [x.event], e);
  }

  lemma CountOneRootMore(recorded: seq<Recorded>, roots: seq<int>, e: Event)
    requires roots != []
    ensures var n := |roots| - 1;
            multiset(OfAll(recorded, roots))[e] == multiset(OfAll(recorded, roots[..n]))[e] + multiset(Of(recorded, roots[n]))[e]
  {
    CountOfBoth(OfAll(recorded, roots[..|roots| - 1]), Of(recorded, roots[|roots| - 1]), e);
  }

  lemma LastIsNew(roots: seq<int>, root: int)
    requires Distinct(roots) && roots != []
    ensures var n := |roots| - 1;
            Distinct(roots[..n]) && Bit(root in roots) == Bit(root in roots[..n]) + Bit(root == roots[n])
  {
    var n := |roots| - 1;
    assert roots == roots[..n] + [roots[n]] && roots[n] !in roots[..n];
  }

  lemma {:induction false} OfAllGrows(recorded: seq<Recorded>, more: seq<Recorded>, x: Recorded, roots: seq<int>, e: Event)
    requires Distinct(roots) && more == recorded + [x]
    ensures multiset(OfAll(more, roots))[e] == multiset(OfAll(recorded, roots))[e] + Bit(x.root in roots && x.event == e)
  {
    if roots != [] {
      var n := |roots| - 1;
      LastIsNew(roots, x.root);
      OfAllGrows(recorded, more, x, roots[..n], e);
      CountOfGrown(recorded, x, roots[n], e);
      CountOneRootMore(recorded, roots, e);
      CountOneRootMore(more, roots, e);
    }
  }

  lemma {:induction false} LatestCounted(recorded: seq<Recorded>, roots: seq<int>, e: Event)
    requires Distinct(roots) && recorded != []
    ensures var n := |recorded| - 1;
            multiset(OfAll(recorded, roots))[e] ==
            multiset(OfAll(recorded[..n], roots))[e] + Bit(recorded[n].root in roots && recorded[n].event == e)
  {
    var n := |recorded| - 1;
    assert recorded == recorded[..n] + [recorded[n]];
    OfAllGrows(recorded[..n], recorded, recorded[n], roots, e);
  }

  lemma EventsCounted(recorded: seq<Recorded>, e: Event)
    requires recorded != []
    ensures var n := |recorded| - 1;
            multiset(Events(recorded))[e] == multiset(Events(recorded[..n]))[e] + Bit(recorded[n].event == e)
  {
    var n := |recorded| - 1;
    assert Events(recorded) == Events(recorded[..n]) + [recorded[n].event];
  }

  lemma {:induction false} EachEventOnce(recorded: seq<Recorded>, roots: seq<int>, e: Event)
    requires Distinct(roots) && forall i :: 0 <= i < |recorded| ==> recorded[i].root in roots
    ensures multiset(OfAll(recorded, roots))[e] == multiset(Events(recorded))[e]
  {
    if recorded == [] {
      NothingOfNothing(roots);
    } else {
      EachEventOnce(recorded[..|recorded| - 1], roots, e);
      LatestCounted(recorded, roots, e);
      EventsCounted(recorded, e);
    }
  }

  lemma {:induction false} NothingOfNothing(roots: seq<int>)
    ensures OfAll([], roots) == []
  {
    if roots != [] {
      NothingOfNothing(roots[..|roots| - 1]);
    }
  }

  lemma {:induction false} RootsAreDistinct(w: Work, tracked: seq<int>)
    requires Distinct(tracked) && forall i :: 0 <= i < |tracked| ==> IsNewest(w, tracked[i])
    ensures forall i :: 0 <= i < |tracked| ==> 0 <= tracked[i] < |w.versions|
    ensures Distinct(Roots(w.versions, tracked))
  {
    var roots := Roots(w.versions, tracked);
    forall i, j | 0 <= i < j < |roots| ensures roots[i] != roots[j] {
      assert IsNewest(w, tracked[i]) && IsNewest(w, tracked[j]);
    }
  }

  lemma {:induction false} EveryLineageIsTracked(w: Work, i: nat)
    requires WorkInv(w) && OnlyNewest(w) && AllRegistered(w) && i < |w.recorded|
    ensures forall k :: 0 <= k < |Tracked(w.calls)| ==> 0 <= Tracked(w.calls)[k] < |w.versions|
    ensures w.recorded[i].root in Roots(w.versions, Tracked(w.calls))
  {
    var root, tracked := w.recorded[i].root, Tracked(w.calls);
    assert NewestHolds(w, root);
    forall k | 0 <= k < |tracked| ensures 0 <= tracked[k] < |w.versions| {
      assert tracked[k] in w.calls;
    }
    var k :| 0 <= k < |w.calls| && w.calls[k] == w.newest[root];
    assert w.calls[k] in tracked;
    var m :| 0 <= m < |tracked| && tracked[m] == w.newest[root];
    assert Roots(w.versions, tracked)[m] == root;
  }

  /** Every recorded event exactly once: lineage by lineage as registered, each lineage's in order. */
  ghost predicate Conserved(w: Work, written: seq<Event>) {
    var tracked := Tracked(w.calls);
    && (forall i :: 0 <= i < |tracked| ==> 0 <= tracked[i] < |w.versions|)
    && Distinct(Roots(w.versions, tracked))
    && written == OfAll(w.recorded, Roots(w.versions, tracked))
    && multiset(written) == multiset(Events(w.recorded))
  }

  /**
   When only the newest version of each lineage is registered, and every lineage with events is,
   what is collected holds every recorded event exactly once: each lineage's events together, in
   the order they were recorded, however often a version was copied on the way.
   */
  lemma {:induction false} EventsAreConserved(changes: seq<Change>)
    requires Perform(changes).Some?
    requires var w := Perform(changes).value; OnlyNewest(w) && AllRegistered(w)
    ensures var w := Perform(changes).value;
            var tracked := Tracked(w.calls);
            && (forall i :: 0 <= i < |tracked| ==> 0 <= tracked[i] < |w.versions|)
            && Conserved(w, Collected(w.versions, tracked))
  {
    var w := Perform(changes).value;
    PerformKeepsInv(changes);
    var tracked := Tracked(w.calls);
    TrackedIsDistinct(w.calls);
    forall i | 0 <= i < |tracked| ensures IsNewest(w, tracked[i]) {
      assert tracked[i] in w.calls;
    }
    CollectedByRoots(w, tracked);
    RootsAreDistinct(w, tracked);
    forall i | 0 <= i < |w.recorded| ensures w.recorded[i].root in Roots(w.versions, tracked) {
      EveryLineageIsTracked(w, i);
    }
    forall e: Event {
      EachEventOnce(w.recorded, Roots(w.versions, tracked), e);
    }
  }

  // ----- the objects behind the versions -----

  /** Each version is an object of its own. */
  ghost predicate Realizes(w: Work, objs: seq<Aggregate>)
    reads objs
  {
    && |objs| == |w.versions| && Distinct(objs)
    && (forall v :: 0 <= v < |objs| ==> objs[v].events == w.versions[v].events)
  }

  /** No entity is loaded twice: only versions of one lineage are equal. */
  ghost predicate LoadedOnce(w: Work, objs: seq<Aggregate>)
    requires |objs| == |w.versions|
  {
    forall u, v :: 0 <= u < |objs| && 0 <= v < |objs| && objs[u].identity == objs[v].identity ==>
      w.versions[u].root == w.versions[v].root
  }

  function Objects(objs: seq<Aggregate>, calls: seq<int>): (r: seq<Aggregate>)
    requires forall i :: 0 <= i < |calls| ==> 0 <= calls[i] < |objs|
    ensures |r| == |calls| && forall i :: 0 <= i < |r| ==> r[i] == objs[calls[i]]
  {
    if calls == [] then [] else Objects(objs, calls[..|calls| - 1]) + [objs[calls[|calls| - 1]]]
  }

  lemma {:induction false} ObjectsTracked(objs: seq<Aggregate>, calls: seq<int>)
    requires Distinct(objs) && forall i :: 0 <= i < |calls| ==> 0 <= calls[i] < |objs|
    ensures forall i :: 0 <= i < |Tracked(calls)| ==> 0 <= Tracked(calls)[i] < |objs|
    ensures Tracked(Objects(objs, calls)) == Objects(objs, Tracked(calls))
  {
    if calls != [] {
      var n := |calls| - 1;
      var init, last := calls[..n], calls[n];
      ObjectsTracked(objs, init);
      var tracked := Tracked(init);
      assert Objects(objs, calls)[..n] == Objects(objs, init);
      if last in tracked {
        var i :| 0 <= i < |tracked| && tracked[i] == last;
        assert Objects(objs, tracked)[i] == objs[last];
      } else {
        NotYetTracked(objs, tracked, last);
        assert (tracked + [last])[..|tracked|] == tracked;
      }
    }
  }

  lemma NotYetTracked(objs: seq<Aggregate>, tracked: seq<int>, v: int)
    requires Distinct(objs) && 0 <= v < |objs| && v !in tracked
    requires forall i :: 0 <= i < |tracked| ==> 0 <= tracked[i] < |objs|
    ensures objs[v] !in Objects(objs, tracked)
  {
    forall i | 0 <= i < |tracked| ensures objs[tracked[i]] != objs[v] {
      assert tracked[i] in tracked;
    }
  }

  lemma {:induction false} ObjectsCollected(w: Work, objs: seq<Aggregate>, tracked: seq<int>)
    requires Realizes(w, objs) && forall i :: 0 <= i < |tracked| ==> 0 <= tracked[i] < |objs|
    ensures EventsOf(Objects(objs, tracked)) == Collected(w.versions, tracked)
  {
    if tracked != [] {
      var n := |tracked| - 1;
      ObjectsCollected(w, objs, tracked[..n]);
      assert Objects(objs, tracked)[..n] == Objects(objs, tracked[..n]);
    }
  }

  /** With only newest versions registered, an equal of a registered object is that object. */
  lemma NothingIsShadowed(w: Work, objs: seq<Aggregate>)
    requires Realizes(w, objs) && OnlyNewest(w) && LoadedOnce(w, objs)
    ensures var regs := Objects(objs, w.calls);
            NothingLost(regs)
  {
    var regs := Objects(objs, w.calls);
    forall j | 0 <= j < |regs| ensures !Shadowed(regs, j) {
      if i :| 0 <= i < j && regs[i].identity == regs[j].identity {
        assert IsNewest(w, w.calls[i]) && IsNewest(w, w.calls[j]);
        assert regs[..j][i] == regs[j];
      }
    }
  }

  /**
   What the two units of work collect from the objects: the identity-based one what the versions
   hold, and the equality-based one the same sequence when only newest versions are registered and
   no entity was loaded twice.
   */
  lemma {:induction false} UnitsOfWorkAgree(w: Work, objs: seq<Aggregate>)
    requires WorkInv(w) && Realizes(w, objs)
    ensures forall i :: 0 <= i < |Tracked(w.calls)| ==> 0 <= Tracked(w.calls)[i] < |w.versions|
    ensures EventsOf(Tracked(Objects(objs, w.calls))) == Collected(w.versions, Tracked(w.calls))
    ensures OnlyNewest(w) && LoadedOnce(w, objs) ==> EventsOf(Tracked(Objects(objs, w.calls))) == EventsOf(TrackedByIdentity(Objects(objs, w.calls)))
  {
    ObjectsTracked(objs, w.calls);
    ObjectsCollected(w, objs, Tracked(w.calls));
    if OnlyNewest(w) && LoadedOnce(w, objs) {
      NothingIsShadowed(w, objs);
      SameCollection(Objects(objs, w.calls));
    }
  }

  /** Makes the changes to real objects. `identityOf` says which entity a lineage is loaded for. */
  method MakeChanges(uow: SQLAlchemyUoW, changes: seq<Change>, identityOf: int -> Identity) returns (objs: seq<Aggregate>)
    requires Perform(changes).Some? && uow.aggregates == []
    modifies uow`aggregates
    ensures fresh(objs) && InStep(uow, Perform(changes).value, objs, identityOf)
  {
    objs := [];
    ghost var w := Work([], map[], [], []);
    for n := 0 to |changes|
      invariant fresh(objs) && Perform(changes[..n]) == Some(w)
      invariant InStep(uow, w, objs, identityOf)
    {
      PerformNext(changes, n);
      objs := MakeChange(uow, w, changes[n], objs, identityOf);
      w := Apply(w, changes[n]);
    }
    assert changes[..|changes|] == changes;
  }

  lemma PerformNext(changes: seq<Change>, n: nat)
    requires Perform(changes).Some? && n < |changes| && Perform(changes[..n]).Some?
    ensures Allowed(Perform(changes[..n]).value, changes[n])
    ensures Perform(changes[..n + 1]) == Some(Apply(Perform(changes[..n]).value, changes[n]))
  {
    PerformPrefix(changes, n + 1);
    assert changes[..n + 1][..n] == changes[..n];
  }

  ghost predicate Identified(w: Work, objs: seq<Aggregate>, identityOf: int -> Identity) {
    |objs| == |w.versions| && forall v :: 0 <= v < |objs| ==> objs[v].identity == identityOf(w.versions[v].root)
  }

  lemma {:induction false} PerformPrefix(changes: seq<Change>, n: nat)
    requires Perform(changes).Some? && n <= |changes|
    ensures Perform(changes[..n]).Some?
  {
    if n == |changes| {
      assert changes[..n] == changes;
    } else {
      PerformPrefix(changes[..|changes| - 1], n);
      assert changes[..|changes| - 1][..n] == changes[..n];
    }
  }

  /** The objects and the unit of work are in step with the record of the transaction. */
  ghost predicate InStep(uow: SQLAlchemyUoW, w: Work, objs: seq<Aggregate>, identityOf: int -> Identity)
    reads uow, objs
  {
    && WorkInv(w) && Realizes(w, objs) && Identified(w, objs, identityOf)
    && uow.aggregates == Tracked(Objects(objs, w.calls))
  }

  ghost predicate Extends(objs: seq<Aggregate>, after: seq<Aggregate>) {
    |objs| <= |after| && forall i :: 0 <= i < |objs| ==> after[i] == objs[i]
  }

  method MakeChange(uow: SQLAlchemyUoW, ghost w: Work, c: Change, objs: seq<Aggregate>, identityOf: int -> Identity)
    returns (after: seq<Aggregate>)
    requires Allowed(w, c) && InStep(uow, w, objs, identityOf)
    modifies uow`aggregates, objs
    ensures InStep(uow, Apply(w, c), after, identityOf)
    ensures Extends(objs, after) && forall i :: |objs| <= i < |after| ==> fresh(after[i])
  {
    match c
    case Load => after := LoadOne(uow, w, objs, identityOf);
    case Copy(v) => after := CopyOne(uow, w, v, objs, identityOf);
    case Record(v, e) =>
      RecordOne(uow, w, v, e, objs, identityOf);
      after := objs;
    case Register(v) =>
      RegisterOne(uow, w, v, objs, identityOf);
      after := objs;
  }

  /** One more object for one more version. */
  lemma OneObjectMore(w: Work, w': Work, objs: seq<Aggregate>, a: Aggregate, root: int, identityOf: int -> Identity)
    requires WorkInv(w) && Realizes(w, objs) && Identified(w, objs, identityOf)
    requires a !in objs && a.identity == identityOf(root)
    requires w'.versions == w.versions + [Version(root, a.events)] && w'.calls == w.calls
    ensures Realizes(w', objs + [a]) && Identified(w', objs + [a], identityOf)
    ensures Objects(objs + [a], w.calls) == Objects(objs, w.calls)
  {
    ObjectsOfMore(objs, a, w.calls);
  }

  method LoadOne(uow: SQLAlchemyUoW, ghost w: Work, objs: seq<Aggregate>, identityOf: int -> Identity) returns (after: seq<Aggregate>)
    requires InStep(uow, w, objs, identityOf)
    ensures InStep(uow, Apply(w, Load), after, identityOf)
    ensures Extends(objs, after) && forall i :: |objs| <= i < |after| ==> fresh(after[i])
  {
    ChangeKeepsInv(w, Load);
    var loaded := new Aggregate(identityOf(|objs|));
    OneObjectMore(w, Apply(w, Load), objs, loaded, |objs|, identityOf);
    after := objs + [loaded];
  }

  method CopyOne(uow: SQLAlchemyUoW, ghost w: Work, v: int, objs: seq<Aggregate>, identityOf: int -> Identity) returns (after: seq<Aggregate>)
    requires Allowed(w, Copy(v)) && InStep(uow, w, objs, identityOf)
    ensures InStep(uow, Apply(w, Copy(v)), after, identityOf)
    ensures Extends(objs, after) && forall i :: |objs| <= i < |after| ==> fresh(after[i])
  {
    ChangeKeepsInv(w, Copy(v));
    var copy := objs[v].With();
    assert w.versions[v] == Version(w.versions[v].root, copy.events);
    OneObjectMore(w, Apply(w, Copy(v)), objs, copy, w.versions[v].root, identityOf);
    after := objs + [copy];
  }

  method RecordOne(uow: SQLAlchemyUoW, ghost w: Work, v: int, e: Event, objs: seq<Aggregate>, identityOf: int -> Identity)
    requires Allowed(w, Record(v, e)) && InStep(uow, w, objs, identityOf)
    modifies objs
    ensures InStep(uow, Apply(w, Record(v, e)), objs, identityOf)
  {
    ChangeKeepsInv(w, Record(v, e));
    objs[v].RecordEvent(e);
  }

  lemma RegisteringKeepsObjects(w: Work, v: int, objs: seq<Aggregate>, identityOf: int -> Identity)
    requires Allowed(w, Register(v)) && WorkInv(w) && Realizes(w, objs) && Identified(w, objs, identityOf)
    ensures WorkInv(Apply(w, Register(v))) && Realizes(Apply(w, Register(v)), objs) && Identified(Apply(w, Register(v)), objs, identityOf)
    ensures Apply(w, Register(v)).calls == w.calls + [v]
  {
    ChangeKeepsInv(w, Register(v));
  }

  lemma OneMoreRegistered(objs: seq<Aggregate>, calls: seq<int>, v: int)
    requires 0 <= v < |objs| && forall i :: 0 <= i < |calls| ==> 0 <= calls[i] < |objs|
    ensures var before, after := Tracked(Objects(objs, calls)), Tracked(Objects(objs, calls + [v]));
            after == if objs[v] in before then before else before + [objs[v]]
  {
    assert (calls + [v])[..|calls|] == calls;
    var regs := Objects(objs, calls + [v]);
    assert regs[..|calls|] == Objects(objs, calls) && regs[|calls|] == objs[v];
  }

  method RegisterOne(uow: SQLAlchemyUoW, ghost w: Work, v: int, objs: seq<Aggregate>, identityOf: int -> Identity)
    requires Allowed(w, Register(v)) && InStep(uow, w, objs, identityOf)
    modifies uow`aggregates
    ensures InStep(uow, Apply(w, Register(v)), objs, identityOf)
  {
    RegisteringKeepsObjects(w, v, objs, identityOf);
    OneMoreRegistered(objs, w.calls, v);
    uow.Register(objs[v]);
  }

  lemma ObjectsOfMore(objs: seq<Aggregate>, a: Aggregate, calls: seq<int>)
    requires forall i :: 0 <= i < |calls| ==> 0 <= calls[i] < |objs|
    ensures Objects(objs + [a], calls) == Objects(objs, calls)
  {
  }

  /**
   A whole transaction on real objects: changes, registrations, events handed over directly, and
   commit. If only newest versions are registered and every lineage with events is, the outbox
   gains one row for each event handed over and then one for each recorded event, each lineage's
   in order; if something raises, none.
   */
  method Transaction(uow: SQLAlchemyUoW, changes: seq<Change>, identityOf: int -> Identity, handed: seq<Event>,
                     clock: nat -> Time, raised: bool)
    returns (ok: bool, ghost written: seq<Event>)
    requires Perform(changes).Some?
    requires uow.aggregates == [] && uow.pendingEvents == [] && uow.session == []
    modifies uow
    ensures ok == !raised
    ensures uow.outbox == old(uow.outbox) + if ok then RowsFor(handed + written, clock) else []
    ensures OnlyNewest(Perform(changes).value) && AllRegistered(Perform(changes).value) ==> Conserved(Perform(changes).value, written)
  {
    written := Prepare(uow, changes, identityOf);
    assert [] + handed == handed;
    uow.AddEvents(handed);
    ok := uow.Commit(clock, raised);
  }

  method Prepare(uow: SQLAlchemyUoW, changes: seq<Change>, identityOf: int -> Identity) returns (ghost collected: seq<Event>)
    requires Perform(changes).Some? && uow.aggregates == []
    modifies uow`aggregates
    ensures Distinct(uow.aggregates) && fresh(uow.aggregates) && collected == EventsOf(uow.aggregates)
    ensures OnlyNewest(Perform(changes).value) && AllRegistered(Perform(changes).value) ==> Conserved(Perform(changes).value, collected)
  {
    var objs := MakeChanges(uow, changes, identityOf);
    collected := WhatIsCollected(uow, changes, objs, identityOf);
  }

  lemma WhatIsCollected(uow: SQLAlchemyUoW, changes: seq<Change>, objs: seq<Aggregate>, identityOf: int -> Identity)
    returns (collected: seq<Event>)
    requires Perform(changes).Some? && InStep(uow, Perform(changes).value, objs, identityOf)
    ensures Distinct(uow.aggregates) && collected == EventsOf(uow.aggregates)
    ensures forall i :: 0 <= i < |uow.aggregates| ==> uow.aggregates[i] in objs
    ensures OnlyNewest(Perform(changes).value) && AllRegistered(Perform(changes).value) ==> Conserved(Perform(changes).value, collected)
  {
    var w := Perform(changes).value;
    TrackedAreObjects(objs, w.calls);
    UnitsOfWorkAgree(w, objs);
    collected := EventsOf(uow.aggregates);
    if OnlyNewest(w) && AllRegistered(w) {
      EventsAreConserved(changes);
    }
  }

  lemma TrackedAreObjects(objs: seq<Aggregate>, calls: seq<int>)
    requires forall i :: 0 <= i < |calls| ==> 0 <= calls[i] < |objs|
    ensures var tracked := Tracked(Objects(objs, calls));
            Distinct(tracked) && forall i :: 0 <= i < |tracked| ==> tracked[i] in objs
  {
    var regs := Objects(objs, calls);
    var tracked := Tracked(regs);
    TrackedIsDistinct(regs);
    forall i | 0 <= i < |tracked| ensures tracked[i] in objs {
      var k :| 0 <= k < |regs| && regs[k] == tracked[i];
    }
  }
}
