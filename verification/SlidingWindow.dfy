/**
 The reference for the in-memory limiters: an unbounded history of what was logged, refused and
 forgotten, and what that history says about any window of time.
 */
module SlidingWindow {
  import opened Basics

  datatype Event =
    | Logged(key: string, at: Time)
    | Refused(key: string, at: Time)
    | Forgotten(keys: set<string>)

  /** Does this event wipe a key's log, by an explicit reset or by eviction? */
  predicate Forgets(e: Event, key: string) {
    e.Forgotten? && key in e.keys
  }

  /** The timestamps later than a cutoff, in order. */
  function After(log: seq<Time>, cutoff: Time): seq<Time> {
    if log == [] then []
    else if log[|log| - 1] > cutoff then After(log[..|log| - 1], cutoff) + [log[|log| - 1]]
    else After(log[..|log| - 1], cutoff)
  }

  /** The timestamps in the half-open window (end - width, end]. */
  function Within(log: seq<Time>, width: int, end: Time): seq<Time> {
    if log == [] then []
    else if end - width < log[|log| - 1] <= end then Within(log[..|log| - 1], width, end) + [log[|log| - 1]]
    else Within(log[..|log| - 1], width, end)
  }

  /** Everything logged for a key since it was last forgotten. */
  function LogOf(hist: seq<Event>, key: string): seq<Time> {
    if hist == [] then []
    else
      var earlier := LogOf(hist[..|hist| - 1], key);
      match hist[|hist| - 1]
      case Logged(k, at) => if k == key then earlier + [at] else earlier
      case Refused(_, _) => earlier
      case Forgotten(keys) => if key in keys then [] else earlier
  }

  /** Everything logged for a key, forgotten or not. */
  function AllLogged(hist: seq<Event>, key: string): seq<Time> {
    if hist == [] then []
    else
      var earlier := AllLogged(hist[..|hist| - 1], key);
      match hist[|hist| - 1]
      case Logged(k, at) => if k == key then earlier + [at] else earlier
      case Refused(_, _) => earlier
      case Forgotten(_) => earlier
  }

  /** Does a log leave room for one more entry at this moment? */
  predicate HasRoom(log: seq<Time>, capacity: int, width: int, now: Time) {
    |After(log, now - width)| < capacity
  }

  /**
   The decisions of an unbounded log: an entry is logged exactly when there is room for it, is
   refused exactly when there is not, and time never runs backwards.
   */
  ghost predicate Faithful(hist: seq<Event>, capacity: int, width: int) {
    hist == [] ||
    (var earlier := hist[..|hist| - 1];
     && Faithful(earlier, capacity, width)
     && match hist[|hist| - 1]
        case Logged(k, at) => HasRoom(LogOf(earlier, k), capacity, width, at) && NoneLater(earlier, at)
        case Refused(k, at) => !HasRoom(LogOf(earlier, k), capacity, width, at) && NoneLater(earlier, at)
        case Forgotten(_) => true)
  }

  /** No event carries a timestamp later than the given one. */
  ghost predicate NoneLater(hist: seq<Event>, now: Time) {
    forall i :: 0 <= i < |hist| && !hist[i].Forgotten? ==> hist[i].at <= now
  }

  ghost predicate AtMost(log: seq<Time>, limit: Time) {
    forall i :: 0 <= i < |log| ==> log[i] <= limit
  }

  // ----- filtering -----

  lemma {:induction false} AfterMembers(log: seq<Time>, cutoff: Time, ts: Time)
    ensures ts in After(log, cutoff) <==> ts in log && ts > cutoff
  {
    if log != [] {
      var init, last := log[..|log| - 1], log[|log| - 1];
      AfterMembers(init, cutoff, ts);
      assert log == init + [last];
    }
  }

  lemma {:induction false} WithinMembers(log: seq<Time>, width: int, end: Time, ts: Time)
    ensures ts in Within(log, width, end) <==> ts in log && end - width < ts <= end
  {
    if log != [] {
      var init, last := log[..|log| - 1], log[|log| - 1];
      WithinMembers(init, width, end, ts);
      assert log == init + [last];
    }
  }

  lemma {:induction false} AfterAfter(log: seq<Time>, first: Time, second: Time)
    requires first <= second
    ensures After(After(log, first), second) == After(log, second)
  {
    if log != [] {
      var init, last := log[..|log| - 1], log[|log| - 1];
      AfterAfter(init, first, second);
      if last > first {
        assert (After(init, first) + [last])[..|After(init, first)|] == After(init, first);
      }
    }
  }

  lemma AfterAppend(log: seq<Time>, at: Time, cutoff: Time)
    ensures After(log + [at], cutoff) == if at > cutoff then After(log, cutoff) + [at] else After(log, cutoff)
  {
    assert (log + [at])[..|log|] == log;
  }

  lemma {:induction false} AfterShrinks(log: seq<Time>, first: Time, second: Time)
    requires first <= second
    ensures |After(log, second)| <= |After(log, first)| <= |log|
    ensures |After(log, second)| == |After(log, first)| <==> forall ts :: ts in After(log, first) ==> ts > second
    ensures (forall ts :: ts in After(log, first) ==> ts > second) ==> After(log, second) == After(log, first)
  {
    if log != [] {
      var init, last := log[..|log| - 1], log[|log| - 1];
      AfterShrinks(init, first, second);
      if last > first {
        assert After(log, first) == After(init, first) + [last];
        assert last in After(log, first);
        assert forall ts :: ts in After(init, first) ==> ts in After(init, first) + [last];
      }
    }
  }

  lemma {:induction false} AfterEmpty(log: seq<Time>, cutoff: Time)
    requires AtMost(log, cutoff)
    ensures After(log, cutoff) == []
  {
    if log != [] {
      AfterEmpty(log[..|log| - 1], cutoff);
    }
  }

  lemma {:induction false} WithinIsAfter(log: seq<Time>, width: int, end: Time)
    ensures |Within(log, width, end)| <= |After(log, end - width)|
    ensures AtMost(log, end) ==> Within(log, width, end) == After(log, end - width)
  {
    if log != [] {
      WithinIsAfter(log[..|log| - 1], width, end);
    }
  }

  lemma WithinAppend(log: seq<Time>, at: Time, width: int, end: Time)
    ensures Within(log + [at], width, end)
         == if end - width < at <= end then Within(log, width, end) + [at] else Within(log, width, end)
  {
    assert (log + [at])[..|log|] == log;
  }

  lemma LastWithin(log: seq<Time>, width: int, end: Time)
    requires log != []
    ensures var n := |log| - 1;
            Within(log, width, end) == Within(log[..n], width, end) + if end - width < log[n] <= end then [log[n]] else []
  {
  }

  lemma {:induction false} WithinSplit(a: seq<Time>, b: seq<Time>, width: int, end: Time)
    ensures Within(a + b, width, end) == Within(a, width, end) + Within(b, width, end)
  {
    if b == [] {
      assert a + b == a;
    } else {
      var n := |b| - 1;
      var both := a + b;
      WithinSplit(a, b[..n], width, end);
      LastWithin(both, width, end);
      LastWithin(b, width, end);
      assert both[..|both| - 1] == a + b[..n] && both[|both| - 1] == b[n];
    }
  }

  // ----- histories -----

  lemma {:induction false} LogOfIsBounded(hist: seq<Event>, key: string, now: Time)
    requires NoneLater(hist, now)
    ensures AtMost(LogOf(hist, key), now)
  {
    if hist != [] {
      LogOfIsBounded(hist[..|hist| - 1], key, now);
    }
  }

  lemma {:induction false} NoCapacityNoLog(hist: seq<Event>, capacity: int, width: int, key: string)
    requires capacity < 1 && Faithful(hist, capacity, width)
    ensures LogOf(hist, key) == []
  {
    if hist != [] {
      NoCapacityNoLog(hist[..|hist| - 1], capacity, width, key);
    }
  }

  lemma {:induction false} FaithfulPrefix(hist: seq<Event>, n: nat, capacity: int, width: int)
    requires n <= |hist| && Faithful(hist, capacity, width)
    ensures Faithful(hist[..n], capacity, width)
  {
    if n == |hist| {
      assert hist[..n] == hist;
    } else {
      FaithfulPrefix(hist[..|hist| - 1], n, capacity, width);
      assert hist[..|hist| - 1][..n] == hist[..n];
    }
  }

  lemma LoggingKeepsBound(log: seq<Time>, at: Time, capacity: int, width: int, end: Time)
    requires HasRoom(log, capacity, width, at)
    requires |Within(log, width, end)| <= Max(capacity, 0)
    ensures |Within(log + [at], width, end)| <= Max(capacity, 0)
  {
    WithinAppend(log, at, width, end);
    if end - width < at <= end {
      WithinIsAfter(log, width, end);
      AfterShrinks(log, at - width, end - width);
    }
  }

  /** A key's live log never exceeds the capacity, whichever window one looks at. */
  lemma {:induction false} LiveLogIsBounded(hist: seq<Event>, capacity: int, width: int, key: string, end: Time)
    requires Faithful(hist, capacity, width)
    ensures |Within(LogOf(hist, key), width, end)| <= Max(capacity, 0)
  {
    if hist != [] {
      var earlier := hist[..|hist| - 1];
      LiveLogIsBounded(earlier, capacity, width, key, end);
      match hist[|hist| - 1]
      case Logged(k, at) =>
        if k == key {
          LoggingKeepsBound(LogOf(earlier, key), at, capacity, width, end);
        }
      case Refused(_, _) =>
      case Forgotten(_) =>
    }
  }

  lemma {:induction false} LogOfSuffix(hist: seq<Event>, from: nat, key: string)
    requires from <= |hist|
    requires forall i :: from <= i < |hist| ==> !Forgets(hist[i], key)
    ensures LogOf(hist, key) == LogOf(hist[..from], key) + AllLogged(hist[from..], key)
  {
    if from == |hist| {
      assert hist[..from] == hist;
    } else {
      var init := hist[..|hist| - 1];
      LogOfSuffix(init, from, key);
      assert init[..from] == hist[..from];
      assert hist[from..][..|hist[from..]| - 1] == init[from..];
    }
  }

  /**
   The limiter's promise. Over any stretch of a run in which the key is neither reset nor evicted,
   no window (end - width, end] holds more than the capacity.
   */
  lemma WindowBound(hist: seq<Event>, capacity: int, width: int, key: string, from: nat, to: nat, end: Time)
    requires Faithful(hist, capacity, width)
    requires from <= to <= |hist|
    requires forall i :: from <= i < to ==> !Forgets(hist[i], key)
    ensures |Within(AllLogged(hist[from..to], key), width, end)| <= Max(capacity, 0)
  {
    FaithfulPrefix(hist, to, capacity, width);
    LiveLogIsBounded(hist[..to], capacity, width, key, end);
    LogOfSuffix(hist[..to], from, key);
    assert hist[..to][..from] == hist[..from] && hist[..to][from..] == hist[from..to];
    WithinSplit(LogOf(hist[..from], key), AllLogged(hist[from..to], key), width, end);
  }

  // ----- when a refusal ends -----

  function Earliest(log: seq<Time>): (m: Time)
    requires log != []
    ensures m in log && forall ts :: ts in log ==> m <= ts
  {
    if |log| == 1 then log[0]
    else
      assert log == log[..|log| - 1] + [log[|log| - 1]];
      Min(log[|log| - 1], Earliest(log[..|log| - 1]))
  }

  /** While nothing more is logged for the key, room returns when the earliest live entry leaves the window. */
  lemma RoomReturns(hist: seq<Event>, capacity: int, width: int, key: string, now: Time, later: Time)
    requires Faithful(hist, capacity, width) && NoneLater(hist, now) && now <= later
    requires capacity >= 1
    requires !HasRoom(LogOf(hist, key), capacity, width, now)
    ensures HasRoom(LogOf(hist, key), capacity, width, later)
       <==> later >= Earliest(After(LogOf(hist, key), now - width)) + width
  {
    var log := LogOf(hist, key);
    LiveLogIsBounded(hist, capacity, width, key, now);
    LogOfIsBounded(hist, key, now);
    WithinIsAfter(log, width, now);
    AfterShrinks(log, now - width, later - width);
  }

  /** From a moment on, a log has room exactly from the given end. */
  ghost predicate OpensAt(log: seq<Time>, capacity: int, width: int, from: Time, end: Time) {
    forall t {:trigger HasRoom(log, capacity, width, t)} :: t >= from ==> (HasRoom(log, capacity, width, t) <==> t >= end)
  }

  lemma RoomOpens(hist: seq<Event>, capacity: int, width: int, key: string, now: Time)
    requires Faithful(hist, capacity, width) && NoneLater(hist, now) && capacity >= 1
    requires !HasRoom(LogOf(hist, key), capacity, width, now)
    ensures OpensAt(LogOf(hist, key), capacity, width, now, Earliest(After(LogOf(hist, key), now - width)) + width)
  {
    var log, end := LogOf(hist, key), Earliest(After(LogOf(hist, key), now - width)) + width;
    forall t {:trigger HasRoom(log, capacity, width, t)} | t >= now ensures HasRoom(log, capacity, width, t) <==> t >= end {
      RoomReturns(hist, capacity, width, key, now, t);
    }
  }

  /** An event that neither forgets the key nor, if it concerns the key, lies outside the given stretch of time. */
  predicate Waits(e: Event, key: string, from: Time, until: Time) {
    match e
    case Logged(k, at) => k == key ==> from <= at < until
    case Refused(k, at) => k == key ==> from <= at < until
    case Forgotten(keys) => key !in keys
  }

  /**
   A refusal's reset time is exact. Whatever happens after a refusal, to this key or any other,
   as long as the key is not forgotten: every check of the key before the reset time is refused,
   and the first one at or after it is not.
   */
  lemma {:induction false} ResetTimeIsExact(hist: seq<Event>, more: seq<Event>, capacity: int, width: int, key: string, now: Time, later: Time)
    requires Faithful(hist + more, capacity, width) && NoneLater(hist, now) && now <= later
    requires capacity >= 1
    requires !HasRoom(LogOf(hist, key), capacity, width, now)
    requires var reset := Earliest(After(LogOf(hist, key), now - width)) + width;
             forall i :: 0 <= i < |more| ==> Waits(more[i], key, now, reset)
    ensures LogOf(hist + more, key) == LogOf(hist, key)
    ensures forall i :: 0 <= i < |more| && more[i].Logged? ==> more[i].key != key
    ensures HasRoom(LogOf(hist + more, key), capacity, width, later)
       <==> later >= Earliest(After(LogOf(hist, key), now - width)) + width
  {
    FaithfulPrefix(hist + more, |hist|, capacity, width);
    assert (hist + more)[..|hist|] == hist;
    if more == [] {
      assert hist + more == hist;
    } else {
      var init, last := more[..|more| - 1], more[|more| - 1];
      assert hist + more == (hist + init) + [last];
      assert (hist + more)[..|hist + more| - 1] == hist + init;
      ResetTimeIsExact(hist, init, capacity, width, key, now, later);
      if last.Logged? && last.key == key {
        RoomReturns(hist, capacity, width, key, now, last.at);
        assert false;
      }
    }
    RoomReturns(hist, capacity, width, key, now, later);
  }

  /** The same, with the refusal at some point of a longer history. */
  lemma ResetTimeOfPrefix(hist: seq<Event>, n: nat, capacity: int, width: int, key: string, now: Time, later: Time)
    requires n <= |hist| && Faithful(hist, capacity, width) && NoneLater(hist[..n], now) && now <= later
    requires capacity >= 1
    requires !HasRoom(LogOf(hist[..n], key), capacity, width, now)
    requires var reset := Earliest(After(LogOf(hist[..n], key), now - width)) + width;
             forall i :: n <= i < |hist| ==> Waits(hist[i], key, now, reset)
    ensures HasRoom(LogOf(hist, key), capacity, width, later)
       <==> later >= Earliest(After(LogOf(hist[..n], key), now - width)) + width
  {
    ResetTimeOfParts(hist, hist[..n], hist[n..], capacity, width, key, now, later);
  }

  lemma ResetTimeOfParts(hist: seq<Event>, past: seq<Event>, more: seq<Event>, capacity: int, width: int, key: string, now: Time, later: Time)
    requires hist == past + more
    requires Faithful(hist, capacity, width) && NoneLater(past, now) && now <= later && capacity >= 1
    requires !HasRoom(LogOf(past, key), capacity, width, now)
    requires var reset := Earliest(After(LogOf(past, key), now - width)) + width;
             forall i :: |past| <= i < |hist| ==> Waits(hist[i], key, now, reset)
    ensures HasRoom(LogOf(hist, key), capacity, width, later) <==> later >= Earliest(After(LogOf(past, key), now - width)) + width
  {
    assert forall i :: 0 <= i < |more| ==> more[i] == hist[|past| + i];
    ResetTimeIsExact(past, more, capacity, width, key, now, later);
  }
}
