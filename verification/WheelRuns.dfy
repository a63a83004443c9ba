/**
  The driver over a timer wheel of any size (extras/citadel_interview/main.cpp:962-995 with the wheel classes of lines
  556-703 and 709-793), on values, and which sizes count as the reference does.
*/
module WheelRuns {
  import opened ReconcilerSpec
  import opened TimedEntries
  import opened Expiry
  import opened FlatReconcilers
  import opened DirectReconcilers

  /** The two wheel classes: over the flat table, and over a vector indexed by ids up to a maximum. */
  datatype Kind = Flat | Direct(maxId: nat) {
    function Rule(): Policy {
      match this
      case Flat => FLAT_POLICY
      case Direct(maxId) => DirectPolicy(maxId)
    }

    function OnFeed(w: nat, s: WheelState, f: Feed, e: Execution): (t: WheelState)
      requires |s.wheel| > 0
      ensures |t.wheel| == |s.wheel| && t.lastTimer == s.lastTimer
    {
      match this
      case Flat => FlatWheelFeed(w, s, f, e)
      case Direct(maxId) => DirectWheelFeed(maxId, w, s, f, e)
    }
  }

  /** The driver's timers and the driver (Bench.RunBench) over these values. */
  function FireWheel(w: nat, s: WheelState, next: nat, upTo: nat): (t: WheelState)
    requires w >= 1 && |s.wheel| > 0
    ensures |t.wheel| == |s.wheel|
    decreases upTo + 1 - next
  {
    if upTo >= next then FireWheel(w, WheelTimer(s, next), next + w, upTo) else s
  }

  function WheelBenchFrom(kind: Kind, w: nat, s: WheelState, now: nat, next: nat, events: seq<Event>): nat
    requires w >= 1 && |s.wheel| > 0
    decreases |events|
  {
    if events == [] then FireWheel(w, s, next, FlushTo(w, now)).alerts
    else
      var e := events[0];
      var now' := Max(now, e.exec.ts);
      var s' := kind.OnFeed(w, FireWheel(w, s, next, now'), e.feed, e.exec);
      WheelBenchFrom(kind, w, s', now', NextTimer(w, next, now'), events[1..])
  }

  function WheelBench(kind: Kind, w: nat, n: nat, events: seq<Event>): nat
    requires w >= 1 && n > 0
  {
    WheelBenchFrom(kind, w, EmptyWheel(n), 0, w, events)
  }

  // ----- Which sizes are right -----

  /** The streams on which the class's policy gives the reference's count (ReconcilerSpec.Agreement). */
  ghost predicate Suits(kind: Kind, events: seq<Event>) {
    AllAdmitted(kind.Rule(), events) && (kind.Direct? ==> Steady(events))
  }

  ghost predicate CountsRight(kind: Kind, w: nat, n: nat)
    requires w >= 1 && n > 0
  {
    forall events :: Suits(kind, events) ==> WheelBench(kind, w, n, events) == ScanAlerts(w, events)
  }

  /** A wheel counts right if and only if it has at least two slots per tick of the window, less one. */
  lemma TurnIff(kind: Kind, w: nat, n: nat)
    requires w >= 1 && n >= 1
    ensures CountsRight(kind, w, n) <==> n >= 2 * w - 1
  {
    if n >= 2 * w - 1 {
      forall events | Suits(kind, events) ensures WheelBench(kind, w, n, events) == ScanAlerts(w, events) {
        LongTurn(kind, w, n, events);
        Agreement(kind.Rule(), w, events);
      }
    } else {
      var id := kind.Rule().minId;
      assert Suits(kind, ShortTurnStream(w, id));
      ShortTurn(kind, w, n, id);
    }
  }

  // ----- A turn that is long enough -----

  /** The timers of a wheel whose entries are covered follow the reference. */
  lemma {:induction false} TimersFollow(w: nat, s: WheelState, next: nat, upTo: nat)
    requires w >= 1 && |s.wheel| > 0 && Covered(s, w) && next == s.lastTimer + w
    ensures var t := FireWheel(w, s, next, upTo);
      && t.Plain() == FireTimers(w, s.Plain(), next, upTo)
      && Covered(t, w) && t.lastTimer + w == NextTimer(w, next, upTo)
    decreases upTo + 1 - next
  {
    if upTo < next {
    } else {
      TimerSimulates(s, w, next);
      TimersFollow(w, WheelTimer(s, next), next + w, upTo);
    }
  }

  lemma FeedFollows(kind: Kind, w: nat, s: WheelState, f: Feed, e: Execution)
    requires |s.wheel| > 0 && Covered(s, w) && e.ts + w <= s.lastTimer + |s.wheel|
    ensures var t := kind.OnFeed(w, s, f, e);
      Covered(t, w) && t.Plain() == ReconcilerSpec.OnFeed(kind.Rule(), w, s.Plain(), f, e)
  {
    match kind
    case Flat => FlatWheelFollows(w, s, f, e);
    case Direct(maxId) => DirectWheelFollows(maxId, w, s, f, e);
  }

  /** An event arrives less than one window after the last timer, so two windows less one tick ahead is as far as any
      window is scheduled. */
  lemma {:induction false} RunFollows(kind: Kind, w: nat, s: WheelState, now: nat, next: nat, events: seq<Event>)
    requires w >= 1 && |s.wheel| > 0 && |s.wheel| >= 2 * w - 1
    requires Covered(s, w) && next == s.lastTimer + w && now < next
    ensures WheelBenchFrom(kind, w, s, now, next, events) == BenchFrom(kind.Rule(), w, s.Plain(), now, next, events)
    decreases |events|
  {
    if events == [] {
      TimersFollow(w, s, next, FlushTo(w, now));
    } else {
      var e := events[0];
      var now' := Max(now, e.exec.ts);
      var t := FireWheel(w, s, next, now');
      TimersFollow(w, s, next, now');
      FeedFollows(kind, w, t, e.feed, e.exec);
      RunFollows(kind, w, kind.OnFeed(w, t, e.feed, e.exec), now', NextTimer(w, next, now'), events[1..]);
    }
  }

  /** A wheel of two windows less one slot, or larger, gives the count of its class's policy on every stream. */
  lemma LongTurn(kind: Kind, w: nat, n: nat, events: seq<Event>)
    requires w >= 1 && n >= 1 && n >= 2 * w - 1
    ensures WheelBench(kind, w, n, events) == Bench(kind.Rule(), w, events)
  {
    WheelStart(n, w);
    assert EmptyWheel(n).Plain() == START;
    RunFollows(kind, w, EmptyWheel(n), 0, w, events);
  }

  // ----- A turn that is too short -----

  /** Three events: a window opened just before the first timer, and two that disagree after the second. */
  function ShortTurnStream(w: nat, id: nat): seq<Event>
    requires w >= 2
  {
    [Event(One, Execution(id, 100, 1, w - 1)), Event(One, Execution(id, 100, 1, 2 * w + 1)),
     Event(Two, Execution(id, 101, 1, 2 * w + 1))]
  }

  /** Every shorter wheel, for every window, loses the first window's expiry, still keeps that window when the third
      event comes, and misses the alert that the reference raises. */
  lemma ShortTurn(kind: Kind, w: nat, n: nat, id: nat)
    requires 1 <= n <= 2 * w - 2 && kind.Rule().Admits(id)
    ensures ScanAlerts(w, ShortTurnStream(w, id)) == 1
    ensures WheelBench(kind, w, n, ShortTurnStream(w, id)) == 0
  {
    ShortTurnScan(w, id);
    ShortTurnWheel(kind, w, n, id);
  }

  lemma ShortTurnScan(w: nat, id: nat)
    requires w >= 2
    ensures ScanAlerts(w, ShortTurnStream(w, id)) == 1
  {
    var events := ShortTurnStream(w, id);
    var a, b, c := events[0], events[1], events[2];
    assert events[1..] == [b, c] && [b, c][1..] == [c] && [c][1..] == [];
    var s := OnFeed(SCAN_POLICY, w, START, One, a.exec);
    assert s.entries == map[id := Entry(w - 1, w - 1, NO_FEEDS.Put(One, a.exec), false)];
    var t := OnTimer(w, OnTimer(w, s, w), 2 * w);
    assert t == State(map[], 0, 2 * w);
    assert FireTimers(w, s, w, 2 * w + 1) == FireTimers(w, OnTimer(w, s, w), 2 * w, 2 * w + 1) == t;
    assert NextTimer(w, w, 2 * w + 1) == NextTimer(w, 2 * w, 2 * w + 1) == 3 * w;
    var u := OnFeed(SCAN_POLICY, w, t, One, b.exec);
    var v := OnFeed(SCAN_POLICY, w, u, Two, c.exec);
    assert u.entries[id] == Entry(2 * w + 1, 2 * w + 1, NO_FEEDS.Put(One, b.exec), false);
    assert v.alerts == 1;
    assert BenchFrom(SCAN_POLICY, w, START, 0, w, events) == BenchFrom(SCAN_POLICY, w, s, w - 1, w, [b, c]);
    assert BenchFrom(SCAN_POLICY, w, s, w - 1, w, [b, c]) == BenchFrom(SCAN_POLICY, w, u, 2 * w + 1, 3 * w, [c]);
    assert BenchFrom(SCAN_POLICY, w, u, 2 * w + 1, 3 * w, [c]) == BenchFrom(SCAN_POLICY, w, v, 2 * w + 1, 3 * w, []);
    TimersKeepAlerts(w, v, 3 * w, FlushTo(w, 2 * w + 1));
  }

  lemma FireWheelKeepsAlerts(w: nat, s: WheelState, next: nat, upTo: nat)
    requires w >= 1 && |s.wheel| > 0
    ensures FireWheel(w, s, next, upTo).alerts == s.alerts
    decreases upTo + 1 - next
  {
    if upTo < next {
    } else {
      FireWheelKeepsAlerts(w, WheelTimer(s, next), next + w, upTo);
    }
  }

  lemma ShortTurnWheel(kind: Kind, w: nat, n: nat, id: nat)
    requires 1 <= n <= 2 * w - 2 && kind.Rule().Admits(id)
    ensures WheelBench(kind, w, n, ShortTurnStream(w, id)) == 0
  {
    var events := ShortTurnStream(w, id);
    var a, b, c := events[0], events[1], events[2];
    assert events[1..] == [b, c] && [b, c][1..] == [c] && [c][1..] == [];
    var s := kind.OnFeed(w, EmptyWheel(n), One, a.exec);
    var t := WheelTimer(WheelTimer(s, w), 2 * w);
    ShortTurnLoses(kind, w, n, id);
    assert FireWheel(w, s, w, 2 * w + 1) == FireWheel(w, WheelTimer(s, w), 2 * w, 2 * w + 1) == t;
    assert NextTimer(w, w, 2 * w + 1) == NextTimer(w, 2 * w, 2 * w + 1) == 3 * w;
    var u := kind.OnFeed(w, t, One, b.exec);
    var v := kind.OnFeed(w, u, Two, c.exec);
    assert v.alerts == 0;
    assert WheelBenchFrom(kind, w, EmptyWheel(n), 0, w, events) == WheelBenchFrom(kind, w, s, w - 1, w, [b, c]);
    assert WheelBenchFrom(kind, w, s, w - 1, w, [b, c]) == WheelBenchFrom(kind, w, u, 2 * w + 1, 3 * w, [c]);
    assert WheelBenchFrom(kind, w, u, 2 * w + 1, 3 * w, [c]) == WheelBenchFrom(kind, w, v, 2 * w + 1, 3 * w, []);
    FireWheelKeepsAlerts(w, v, 3 * w, FlushTo(w, 2 * w + 1));
  }

  /** The first window, due at 2 w - 1, waits in a bucket that the first timer clears, and so outlives the second. */
  lemma ShortTurnLoses(kind: Kind, w: nat, n: nat, id: nat)
    requires 1 <= n <= 2 * w - 2 && kind.Rule().Admits(id)
    ensures var a := Execution(id, 100, 1, w - 1);
      var t := WheelTimer(WheelTimer(kind.OnFeed(w, EmptyWheel(n), One, a), w), 2 * w);
      && t.alerts == 0 && t.lastTimer == 2 * w && |t.wheel| == n
      && id in t.entries && t.entries[id] == Timed(w - 1, w - 1, 2 * w - 1, NO_FEEDS.Put(One, a), false)
  {
    var a := Execution(id, 100, 1, w - 1);
    var s := kind.OnFeed(w, EmptyWheel(n), One, a);
    assert s.entries == map[id := Timed(w - 1, w - 1, 2 * w - 1, NO_FEEDS.Put(One, a), false)];
    assert s.wheel == Scheduling(EmptyWheel(n).wheel, id, 2 * w - 1);
    var t := SameBucketBefore(2 * w - 1, n, w);
    ClearedEarly(s.entries, s.wheel, 0, w, id, t);
    var (left, rest) := SweepBuckets(s.entries, s.wheel, 0, w);
    LostStays(left, rest, w, 2 * w, id);
  }

  /** A time up to `limit` that has the bucket of e. */
  lemma {:induction false} SameBucketBefore(e: nat, n: nat, limit: nat) returns (t: nat)
    requires 1 <= n < e && limit < e <= 2 * limit
    ensures 1 <= t <= limit && t % n == e % n
  {
    t := e - n;
    Circle.OneTurn(t, n);
    if t > limit {
      t := SameBucketBefore(t, n, limit);
    }
  }

  /** An id that waits in the bucket of time t only is in no bucket after a sweep over t, but still kept if it is due
      later. */
  lemma {:induction false} ClearedEarly(m: map<nat, Timed>, wheel: seq<seq<nat>>, from: nat, upTo: nat, id: nat, t: nat)
    requires |wheel| > 0 && id in m && upTo < m[id].expireAt
    requires forall b :: 0 <= b < |wheel| && b != t % |wheel| ==> id !in wheel[b]
    ensures var (left, rest) := SweepBuckets(m, wheel, from, upTo);
      && id in left && left[id] == m[id]
      && (forall b :: 0 <= b < |wheel| && b != t % |wheel| ==> id !in rest[b])
      && (from < t <= upTo ==> InNoBucket(rest, id))
    decreases upTo
  {
    if upTo <= from {
    } else {
      ClearedEarly(m, wheel, from, upTo - 1, id, t);
      var (left, rest) := SweepBuckets(m, wheel, from, upTo - 1);
      OtherIdsStay(left, rest[upTo % |rest|], upTo, id);
    }
  }
}
