/**
  What the feed reconcilers of extras/citadel_interview/main.cpp compute, as functions on values.
  `ReconcilerUnorderedScan` (lines 145-211) is the reference: a map from id to entry, filtered
  on every timer. The other classes are proved to follow these functions; the only freedom they
  take is recorded in a `Policy`.
  Timestamps are unbounded naturals; prices are integer ticks.
*/
module ReconcilerSpec {
  import opened Options
  import opened Sealing

  datatype Execution = Execution(id: nat, price: int, size: nat, ts: nat)

  datatype Feed = One | Two | Three

  datatype Event = Event(feed: Feed, exec: Execution)

  predicate EqExec(x: Execution, y: Execution) {
    x.id == y.id && x.size == y.size && x.price == y.price
  }

  predicate Mismatch(a: Option<Execution>, b: Option<Execution>) {
    a.Some? && b.Some? && !EqExec(a.value, b.value)
  }

  /** The last execution seen on each of the three feeds. */
  datatype Trio = Trio(one: Option<Execution>, two: Option<Execution>, three: Option<Execution>) {
    function Put(f: Feed, e: Execution): Trio {
      match f
      case One => this.(one := Some(e))
      case Two => this.(two := Some(e))
      case Three => this.(three := Some(e))
    }

    predicate AnyMismatch() {
      Mismatch(one, two) || Mismatch(one, three) || Mismatch(two, three)
    }
  }

  const NO_FEEDS := Trio(None, None, None)

  datatype Entry = Entry(first: nat, last: nat, feeds: Trio, alerted: bool)

  const BLANK := Entry(0, 0, NO_FEEDS, false)

  datatype State = State(entries: map<nat, Entry>, alerts: nat, lastTimer: nat)

  const START := State(map[], 0, 0)

  /**
    How a class departs from the reference: ids outside `minId..maxId` are never kept, and
    a window is fresh when its entry is absent (`byPresence`) rather than when both of its
    timestamps are zero.
  */
  datatype Policy = Policy(minId: nat, maxId: Option<nat>, byPresence: bool) {
    predicate Admits(id: nat) {
      minId <= id && (maxId.Some? ==> id <= maxId.value)
    }
  }

  const SCAN_POLICY := Policy(0, None, false)
  const FLAT_POLICY := Policy(2, None, false)
  function DirectPolicy(maxId: nat): Policy { Policy(0, Some(maxId), true) }

  predicate Late(w: nat, s: State, e: Execution) {
    e.ts + w <= s.lastTimer
  }

  /** Whether an event for `id` opens a new window. */
  predicate Fresh(p: Policy, s: State, id: nat) {
    id !in s.entries ||
    (!p.byPresence && s.entries[id].first == 0 && s.entries[id].last == 0)
  }

  /** The entry of the event's id once the event is recorded, before the alert test. */
  function Recorded(p: Policy, s: State, f: Feed, e: Execution): Entry {
    var was := if e.id in s.entries then s.entries[e.id] else BLANK;
    Entry(if Fresh(p, s, e.id) then e.ts else was.first, e.ts, was.feeds.Put(f, e), was.alerted)
  }

  predicate RaisesAlert(p: Policy, w: nat, s: State, f: Feed, e: Execution) {
    var ent := Recorded(p, s, f, e);
    !ent.alerted && ent.feeds.AnyMismatch() && e.ts < ent.first + w
  }

  function OnFeed(p: Policy, w: nat, s: State, f: Feed, e: Execution): State {
    if Late(w, s, e) || !p.Admits(e.id) then s
    else
      var ent := Recorded(p, s, f, e);
      if RaisesAlert(p, w, s, f, e)
      then State(s.entries[e.id := ent.(alerted := true)], s.alerts + 1, s.lastTimer)
      else State(s.entries[e.id := ent], s.alerts, s.lastTimer)
  }

  predicate IsExpired(w: nat, ent: Entry, now: nat) {
    now >= ent.first + w
  }

  function OnTimer(w: nat, s: State, now: nat): State {
    State(map id | id in s.entries && !IsExpired(w, s.entries[id], now) :: s.entries[id],
          s.alerts, now)
  }

  /** Fires the timers next, next + w, ... up to `upTo`. */
  function FireTimers(w: nat, s: State, next: nat, upTo: nat): State
    requires w >= 1
    decreases upTo + 1 - next
  {
    if upTo >= next then FireTimers(w, OnTimer(w, s, next), next + w, upTo) else s
  }

  /** The first timer after those that `FireTimers` fires. */
  function NextTimer(w: nat, next: nat, upTo: nat): (n: nat)
    requires w >= 1
    ensures n > upTo && n >= next && (n == next || n <= upTo + w)
    decreases upTo + 1 - next
  {
    if upTo >= next then NextTimer(w, next + w, upTo) else next
  }

  function Max(a: nat, b: nat): nat { if a < b then b else a }

  /** Where the final flush stops (line 989). */
  function FlushTo(w: nat, now: nat): nat
    requires w >= 1
  {
    (now / w + 3) * w
  }

  /** The driver `runBench` (lines 962-995) from the middle of a run; its value is the alert count. */
  function BenchFrom(p: Policy, w: nat, s: State, now: nat, next: nat, events: seq<Event>): nat
    requires w >= 1
    decreases |events|
  {
    if events == [] then
      FireTimers(w, s, next, FlushTo(w, now)).alerts
    else
      var e := events[0];
      var now' := Max(now, e.exec.ts);
      var s' := OnFeed(p, w, FireTimers(w, s, next, now'), e.feed, e.exec);
      BenchFrom(p, w, s', now', NextTimer(w, next, now'), events[1..])
  }

  function Bench(p: Policy, w: nat, events: seq<Event>): nat
    requires w >= 1
  {
    BenchFrom(p, w, START, 0, w, events)
  }

  /** The reference count: the scan over every id. */
  function ScanAlerts(w: nat, events: seq<Event>): nat
    requires w >= 1
  {
    Bench(SCAN_POLICY, w, events)
  }

  // ----- Agreement of the policies -----

  ghost predicate AllAdmitted(p: Policy, events: seq<Event>) {
    forall i :: 0 <= i < |events| ==> p.Admits(events[i].exec.id)
  }

  /** No id is seen at a positive time after having been seen at time 0; positive timestamps are enough. */
  ghost predicate Steady(events: seq<Event>) {
    forall i, j :: 0 <= i < j < |events| && events[i].exec.id == events[j].exec.id && events[i].exec.ts == 0 ==>
      events[j].exec.ts == 0
  }

  lemma PositiveIsSteady(events: seq<Event>)
    requires forall i :: 0 <= i < |events| ==> events[i].exec.ts >= 1
    ensures Steady(events)
  {
  }

  /** No event to come has a positive time for an id whose entry carries two zero timestamps. */
  ghost predicate ZerosOver(s: State, events: seq<Event>) {
    forall i :: 0 <= i < |events| ==>
      var e := events[i].exec;
      (e.id in s.entries && s.entries[e.id].first == 0 && s.entries[e.id].last == 0 ==> e.ts == 0)
  }

  lemma FireTimersKeepsZeros(w: nat, s: State, next: nat, upTo: nat, events: seq<Event>)
    requires w >= 1 && ZerosOver(s, events)
    ensures ZerosOver(FireTimers(w, s, next, upTo), events)
    decreases upTo + 1 - next
  {
    if upTo < next {
    } else {
      FireTimersKeepsZeros(w, OnTimer(w, s, next), next + w, upTo, events);
    }
  }

  /** An event keeps that, and the two freshness rules treat it alike. */
  lemma FeedKeepsZeros(p: Policy, w: nat, s: State, events: seq<Event>)
    requires events != [] && Steady(events) && ZerosOver(s, events)
    ensures ZerosOver(OnFeed(p, w, s, events[0].feed, events[0].exec), events[1..]) && Steady(events[1..])
    ensures p.Admits(events[0].exec.id) ==>
      OnFeed(p, w, s, events[0].feed, events[0].exec) == OnFeed(SCAN_POLICY, w, s, events[0].feed, events[0].exec)
  {
    var rest := events[1..];
    assert forall i :: 0 <= i < |rest| ==> rest[i] == events[i + 1];
  }

  lemma {:induction false} AgreementFrom(p: Policy, w: nat, s: State, now: nat, next: nat, events: seq<Event>)
    requires w >= 1 && AllAdmitted(p, events) && (p.byPresence ==> Steady(events) && ZerosOver(s, events))
    ensures BenchFrom(p, w, s, now, next, events) == BenchFrom(SCAN_POLICY, w, s, now, next, events)
    decreases |events|
  {
    if events == [] {
    } else {
      var e := events[0];
      var now' := Max(now, e.exec.ts);
      var t := FireTimers(w, s, next, now');
      if p.byPresence {
        FireTimersKeepsZeros(w, s, next, now', events);
        FeedKeepsZeros(p, w, t, events);
      }
      assert OnFeed(p, w, t, e.feed, e.exec) == OnFeed(SCAN_POLICY, w, t, e.feed, e.exec);
      AgreementFrom(p, w, OnFeed(p, w, t, e.feed, e.exec), now', NextTimer(w, next, now'), events[1..]);
    }
  }

  /** When every id is admitted (and, for presence-based freshness, the stream is steady) a class raises
      exactly the alerts of the reference. The stream need not be sorted. */
  lemma Agreement(p: Policy, w: nat, events: seq<Event>)
    requires w >= 1 && AllAdmitted(p, events) && (p.byPresence ==> Steady(events))
    ensures Bench(p, w, events) == ScanAlerts(w, events)
  {
    AgreementFrom(p, w, START, 0, w, events);
  }

  /** One event is treated alike by the two freshness rules unless it hits an entry whose
      timestamps are both zero and itself carries a positive time. */
  lemma FreshnessRulesAgreeIff(w: nat, s: State, f: Feed, e: Execution)
    ensures OnFeed(SCAN_POLICY, w, s, f, e) == OnFeed(SCAN_POLICY.(byPresence := true), w, s, f, e)
            <==> Late(w, s, e) || e.ts == 0 || e.id !in s.entries ||
                 s.entries[e.id].first != 0 || s.entries[e.id].last != 0
  {
    var a := OnFeed(SCAN_POLICY, w, s, f, e);
    var b := OnFeed(SCAN_POLICY.(byPresence := true), w, s, f, e);
    if !Late(w, s, e) {
      assert a.entries[e.id].first == Recorded(SCAN_POLICY, s, f, e).first;
      assert b.entries[e.id].first == Recorded(SCAN_POLICY.(byPresence := true), s, f, e).first;
    }
  }

  // ----- Ids left out cost exactly their own alerts -----

  ghost predicate Split(whole: State, low: State, high: State, c: nat) {
    forall z {:trigger Peek(z)} :: Peek(z) ==>
      && whole.lastTimer == low.lastTimer == high.lastTimer
      && whole.alerts == low.alerts + high.alerts
      && (forall id :: id in low.entries ==> id <= c)
      && (forall id :: id in high.entries ==> id > c)
      && whole.entries == low.entries + high.entries
  }

  lemma FireTimersKeepsSplit(w: nat, whole: State, low: State, high: State, c: nat, next: nat, upTo: nat)
    requires w >= 1 && Split(whole, low, high, c)
    ensures Split(FireTimers(w, whole, next, upTo), FireTimers(w, low, next, upTo),
                  FireTimers(w, high, next, upTo), c)
    decreases upTo + 1 - next
  {
    if upTo < next {
    } else {
      TimerKeepsSplit(w, whole, low, high, c, next);
      FireTimersKeepsSplit(w, OnTimer(w, whole, next), OnTimer(w, low, next),
                           OnTimer(w, high, next), c, next + w, upTo);
    }
  }

  lemma TimerKeepsSplit(w: nat, whole: State, low: State, high: State, c: nat, now: nat)
    requires Split(whole, low, high, c)
    ensures Split(OnTimer(w, whole, now), OnTimer(w, low, now), OnTimer(w, high, now), c)
  {
    assert Peek(0);
  }

  lemma SplitUpdate(whole: State, low: State, high: State, c: nat, id: nat, ent: Entry, extra: nat)
    requires Split(whole, low, high, c)
    ensures var whole' := State(whole.entries[id := ent], whole.alerts + extra, whole.lastTimer);
      && (id <= c ==> Split(whole', State(low.entries[id := ent], low.alerts + extra, low.lastTimer), high, c))
      && (id > c ==> Split(whole', low, State(high.entries[id := ent], high.alerts + extra, high.lastTimer), c))
  {
    assert Peek(0);
    if id <= c {
      assert whole.entries[id := ent] == low.entries[id := ent] + high.entries;
    } else {
      assert whole.entries[id := ent] == low.entries + high.entries[id := ent];
    }
  }

  lemma FeedKeepsSplit(bp: bool, c: nat, w: nat, whole: State, low: State, high: State, f: Feed, e: Execution)
    requires Split(whole, low, high, c)
    ensures Split(OnFeed(Policy(0, None, bp), w, whole, f, e), OnFeed(Policy(0, Some(c), bp), w, low, f, e),
                  OnFeed(Policy(c + 1, None, bp), w, high, f, e), c)
  {
    assert Peek(0);
    var p := Policy(0, None, bp);
    var ent := Recorded(p, whole, f, e);
    SplitUpdate(whole, low, high, c, e.id, ent.(alerted := true), 1);
    SplitUpdate(whole, low, high, c, e.id, ent, 0);
    if e.id <= c {
      assert Recorded(Policy(0, Some(c), bp), low, f, e) == ent;
    } else {
      assert Recorded(Policy(c + 1, None, bp), high, f, e) == ent;
    }
  }

  lemma {:induction false} SplitFrom(bp: bool, c: nat, w: nat, whole: State, low: State, high: State,
                                     now: nat, next: nat, events: seq<Event>)
    requires w >= 1 && Split(whole, low, high, c)
    ensures BenchFrom(Policy(0, None, bp), w, whole, now, next, events)
            == BenchFrom(Policy(0, Some(c), bp), w, low, now, next, events)
               + BenchFrom(Policy(c + 1, None, bp), w, high, now, next, events)
    decreases |events|
  {
    if events == [] {
      FireTimersKeepsSplit(w, whole, low, high, c, next, FlushTo(w, now));
      assert Peek(0);
    } else {
      var e := events[0];
      var now' := Max(now, e.exec.ts);
      FireTimersKeepsSplit(w, whole, low, high, c, next, now');
      var a, l, h := FireTimers(w, whole, next, now'), FireTimers(w, low, next, now'), FireTimers(w, high, next, now');
      var a' := OnFeed(Policy(0, None, bp), w, a, e.feed, e.exec);
      var l' := OnFeed(Policy(0, Some(c), bp), w, l, e.feed, e.exec);
      var h' := OnFeed(Policy(c + 1, None, bp), w, h, e.feed, e.exec);
      FeedKeepsSplit(bp, c, w, a, l, h, e.feed, e.exec);
      SplitFrom(bp, c, w, a', l', h', now', NextTimer(w, next, now'), events[1..]);
    }
  }

  /** Alerts are accounted for id by id: cutting the ids at `c` splits the count exactly. */
  lemma AlertsSplit(bp: bool, c: nat, w: nat, events: seq<Event>)
    requires w >= 1
    ensures Bench(Policy(0, None, bp), w, events)
            == Bench(Policy(0, Some(c), bp), w, events) + Bench(Policy(c + 1, None, bp), w, events)
  {
    SplitFrom(bp, c, w, START, START, START, 0, w, events);
  }

  /** On streams without id 0 the flat tables' policy gives the reference count exactly when the events of id 1, the
      tombstone mark, raise no alert by themselves. (Id 0, the empty mark, can break a table: see FlatTables.) */
  lemma FlatAgreesIff(w: nat, events: seq<Event>)
    requires w >= 1 && forall i :: 0 <= i < |events| ==> events[i].exec.id != 0
    ensures Bench(FLAT_POLICY, w, events) == ScanAlerts(w, events)
            <==> Bench(Policy(1, Some(1), false), w, events) == 0
  {
    AlertsSplit(false, 1, w, events);
    OnlyOne(w, START, 0, w, events);
  }

  lemma {:induction false} OnlyOne(w: nat, s: State, now: nat, next: nat, events: seq<Event>)
    requires w >= 1 && forall i :: 0 <= i < |events| ==> events[i].exec.id != 0
    ensures BenchFrom(Policy(0, Some(1), false), w, s, now, next, events)
            == BenchFrom(Policy(1, Some(1), false), w, s, now, next, events)
    decreases |events|
  {
    if events == [] {
    } else {
      var e := events[0];
      var now' := Max(now, e.exec.ts);
      var t := FireTimers(w, s, next, now');
      OnlyOne(w, OnFeed(Policy(0, Some(1), false), w, t, e.feed, e.exec), now', NextTimer(w, next, now'), events[1..]);
    }
  }

  /** The direct-index tables give the reference count, on steady streams, exactly when the ids above
      `maxId` raise no alert. */
  lemma DirectAgreesIff(maxId: nat, w: nat, events: seq<Event>)
    requires w >= 1 && Steady(events)
    ensures Bench(DirectPolicy(maxId), w, events) == ScanAlerts(w, events)
            <==> Bench(Policy(maxId + 1, None, true), w, events) == 0
  {
    AlertsSplit(true, maxId, w, events);
    Agreement(Policy(0, None, true), w, events);
  }

  // ----- Where the classes part from the reference -----

  /** Timers change no alert count. */
  lemma TimersKeepAlerts(w: nat, s: State, next: nat, upTo: nat)
    requires w >= 1
    ensures FireTimers(w, s, next, upTo).alerts == s.alerts
    decreases upTo + 1 - next
  {
    if upTo < next {
    } else {
      TimersKeepAlerts(w, OnTimer(w, s, next), next + w, upTo);
    }
  }

  /** The benchmark's own workload draws ids from 1 (line 903). Id 1 is the flat tables' tombstone mark: two feeds that
      disagree on it raise one alert in the reference and none in a flat table. */
  lemma SentinelIdMissesAlert()
    ensures var events := [Event(One, Execution(1, 100, 1, 1)), Event(Two, Execution(1, 101, 1, 1))];
      ScanAlerts(10, events) == 1 && Bench(FLAT_POLICY, 10, events) == 0
  {
    var e, f := Event(One, Execution(1, 100, 1, 1)), Event(Two, Execution(1, 101, 1, 1));
    var events := [e, f];
    assert events[1..] == [f] && [f][1..] == [];
    var s := OnFeed(SCAN_POLICY, 10, START, One, e.exec);
    var t := OnFeed(SCAN_POLICY, 10, s, Two, f.exec);
    assert t.alerts == 1;
    TimersKeepAlerts(10, t, 10, FlushTo(10, 1));
    TimersKeepAlerts(10, START, 10, FlushTo(10, 1));
    assert BenchFrom(SCAN_POLICY, 10, s, 1, 10, [f]) == BenchFrom(SCAN_POLICY, 10, t, 1, 10, []);
    assert BenchFrom(FLAT_POLICY, 10, START, 1, 10, [f]) == BenchFrom(FLAT_POLICY, 10, START, 1, 10, []);
  }

  /** A window opened at time 0 looks fresh to the reference once more, so it restarts at its second event; a
      direct-index class keeps the first start, has dropped the window by the third event, and misses the alert. */
  lemma TimeZeroMissesAlert()
    ensures var events := [Event(One, Execution(7, 100, 1, 0)), Event(One, Execution(7, 100, 1, 3)),
                           Event(Two, Execution(7, 101, 1, 6))];
      ScanAlerts(5, events) == 1 && Bench(DirectPolicy(9), 5, events) == 0
  {
    var a, b, c := Event(One, Execution(7, 100, 1, 0)), Event(One, Execution(7, 100, 1, 3)),
                   Event(Two, Execution(7, 101, 1, 6));
    var events := [a, b, c];
    assert events[1..] == [b, c] && [b, c][1..] == [c] && [c][1..] == [];
    ZeroRun(SCAN_POLICY, a, b, c);
    ZeroRun(DirectPolicy(9), a, b, c);
    var s := OnFeed(SCAN_POLICY, 5, OnFeed(SCAN_POLICY, 5, START, One, a.exec), One, b.exec);
    assert s.entries[7] == Entry(3, 3, NO_FEEDS.Put(One, b.exec), false);
    assert OnTimer(5, s, 5).entries[7] == s.entries[7];
    var p := DirectPolicy(9);
    var t := OnFeed(p, 5, OnFeed(p, 5, START, One, a.exec), One, b.exec);
    assert t.entries[7].first == 0;
    assert 7 !in OnTimer(5, t, 5).entries;
  }

  /** The driver on such a stream: the timer at 5 fires before the third event. */
  lemma ZeroRun(p: Policy, a: Event, b: Event, c: Event)
    requires a.exec.ts == 0 && b.exec.ts == 3 && c.exec.ts == 6
    ensures var s := OnFeed(p, 5, OnFeed(p, 5, START, a.feed, a.exec), b.feed, b.exec);
      Bench(p, 5, [a, b, c]) == OnFeed(p, 5, OnTimer(5, s, 5), c.feed, c.exec).alerts
  {
    var s := OnFeed(p, 5, OnFeed(p, 5, START, a.feed, a.exec), b.feed, b.exec);
    assert [a, b, c][1..] == [b, c] && [b, c][1..] == [c] && [c][1..] == [];
    assert FireTimers(5, s, 5, 6) == FireTimers(5, OnTimer(5, s, 5), 10, 6) == OnTimer(5, s, 5);
    var s1 := OnFeed(p, 5, START, a.feed, a.exec);
    var u := OnFeed(p, 5, OnTimer(5, s, 5), c.feed, c.exec);
    assert BenchFrom(p, 5, START, 0, 5, [a, b, c]) == BenchFrom(p, 5, s1, 0, 5, [b, c]);
    assert BenchFrom(p, 5, s1, 0, 5, [b, c]) == BenchFrom(p, 5, s, 3, 5, [c]);
    assert NextTimer(5, 5, 6) == NextTimer(5, 10, 6) == 10;
    assert BenchFrom(p, 5, s, 3, 5, [c]) == BenchFrom(p, 5, u, 6, 10, []);
    TimersKeepAlerts(5, u, 10, FlushTo(5, 6));
  }
}
