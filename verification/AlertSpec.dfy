/**
  What the alert count of a run means, read off the stream of events alone (extras/citadel_interview/main.cpp:99-130 and
  962-995): no timer, no entry and no comparison of the reconcilers occurs here, only timestamps, prices and sizes.
*/
module AlertSpec {
  import opened Options
  import opened ReconcilerSpec
  import opened Sealing
  import Circle

  /** The latest timestamp among the first n events. */
  function Clock(events: seq<Event>, n: nat): nat
    requires n <= |events|
  {
    if n == 0 then 0
    else
      var before, ts := Clock(events, n - 1), events[n - 1].exec.ts;
      if before < ts then ts else before
  }

  /** The timer fires at multiples of the window: the last one by the time of event i. */
  function LastMultiple(w: nat, events: seq<Event>, i: nat): nat
    requires w >= 1 && i < |events|
  {
    Clock(events, i + 1) / w * w
  }

  /** Whether event i counts: its id is admitted, and a window opened by it would still run. */
  predicate Taken(p: Policy, w: nat, events: seq<Event>, i: nat)
    requires w >= 1 && i < |events|
  {
    var e := events[i].exec;
    p.minId <= e.id && (p.maxId.Some? ==> e.id <= p.maxId.value) && e.ts + w > LastMultiple(w, events, i)
  }

  /** The first positive timestamp, 0 if there is none. */
  function FirstPositive(window: seq<Event>): nat
    decreases |window|
  {
    if window == [] then 0
    else
      var before := FirstPositive(window[..|window| - 1]);
      if before > 0 then before else window[|window| - 1].exec.ts
  }

  /** When a window starts: where a fresh window is known by its timestamps, events at time 0 do not start it. */
  function Opening(p: Policy, window: seq<Event>): nat
    requires window != []
  {
    if p.byPresence then window[0].exec.ts else FirstPositive(window)
  }

  /** The events that the id's latest window has received among the first n. */
  function Window(p: Policy, w: nat, events: seq<Event>, n: nat, id: nat): seq<Event>
    requires w >= 1 && n <= |events|
    decreases n
  {
    if n == 0 then []
    else
      var before := Window(p, w, events, n - 1, id);
      if events[n - 1].exec.id != id || !Taken(p, w, events, n - 1) then before
      else if before != [] && Opening(p, before) + w > LastMultiple(w, events, n - 1) then before + [events[n - 1]]
      else [events[n - 1]]
  }

  /** The last execution on a feed. */
  function LastOn(window: seq<Event>, f: Feed): Option<Execution>
    decreases |window|
  {
    if window == [] then None
    else
      var e := window[|window| - 1];
      if e.feed == f then Some(e.exec) else LastOn(window[..|window| - 1], f)
  }

  predicate Disagree(a: Option<Execution>, b: Option<Execution>) {
    a.Some? && b.Some? && (a.value.price != b.value.price || a.value.size != b.value.size)
  }

  /** Two feeds disagree in price or in size, in time. */
  ghost predicate Alarm(p: Policy, w: nat, window: seq<Event>) {
    && window != []
    && (exists f, g :: f != g && Disagree(LastOn(window, f), LastOn(window, g)))
    && window[|window| - 1].exec.ts < Opening(p, window) + w
  }

  /** Event i is the first of its window at which there is reason for an alert. */
  ghost predicate Fires(p: Policy, w: nat, events: seq<Event>, i: nat)
    requires w >= 1 && i < |events|
  {
    && Taken(p, w, events, i)
    && var window := Window(p, w, events, i + 1, events[i].exec.id);
       Alarm(p, w, window) && forall k :: 0 <= k < |window| ==> !Alarm(p, w, window[..k])
  }

  ghost function Firing(p: Policy, w: nat, events: seq<Event>, n: nat): set<nat>
    requires w >= 1 && n <= |events|
  {
    set i: nat | i < n && Fires(p, w, events, i)
  }

  // ----- One event -----

  function On(feeds: Trio, f: Feed): Option<Execution> {
    match f
    case One => feeds.one
    case Two => feeds.two
    case Three => feeds.three
  }

  /** What the feeds of an id hold once an event is delivered. */
  function Held(s: State, f: Feed, e: Execution, g: Feed): Option<Execution> {
    if g == f then Some(e) else if e.id in s.entries then On(s.entries[e.id].feeds, g) else None
  }

  ghost predicate OwnIds(feeds: Trio, id: nat) {
    forall f :: On(feeds, f).Some? ==> On(feeds, f).value.id == id
  }

  /** When the window of an event's id began: with the event itself if the id is not kept, or, where a fresh window is
      known by its timestamps, if both of them are zero. */
  function Began(p: Policy, s: State, e: Execution): nat {
    if e.id !in s.entries then e.ts
    else if !p.byPresence && s.entries[e.id].first == 0 && s.entries[e.id].last == 0 then e.ts
    else s.entries[e.id].first
  }

  predicate Alerted(s: State, id: nat) {
    id in s.entries && s.entries[id].alerted
  }

  /** The window has raised no alert, still runs at the event's time, and holds two feeds that disagree in price or
      size, the event's own feed holding the event. */
  ghost predicate Reason(p: Policy, w: nat, s: State, f: Feed, e: Execution) {
    && !Alerted(s, e.id) && e.ts < Began(p, s, e) + w
    && exists g, h :: g != h && Disagree(Held(s, f, e, g), Held(s, f, e, h))
  }

  /** An event in time raises an alert if and only if there is reason for one, and takes its own feed's place. */
  lemma AlertIff(p: Policy, w: nat, s: State, f: Feed, e: Execution)
    requires p.Admits(e.id) && s.lastTimer < e.ts + w
    requires e.id in s.entries ==> OwnIds(s.entries[e.id].feeds, e.id)
    ensures var t := OnFeed(p, w, s, f, e);
      && t.alerts == (if Reason(p, w, s, f, e) then s.alerts + 1 else s.alerts) && t.lastTimer == s.lastTimer
      && e.id in t.entries
      && t.entries[e.id].first == Began(p, s, e) && t.entries[e.id].last == e.ts
      && t.entries[e.id].alerted == (Reason(p, w, s, f, e) || Alerted(s, e.id))
      && (forall g :: On(t.entries[e.id].feeds, g) == Held(s, f, e, g))
      && (forall id :: id != e.id ==> (id in t.entries <==> id in s.entries))
      && (forall id :: id != e.id && id in s.entries ==> t.entries[id] == s.entries[id])
  {
    var was := if e.id in s.entries then s.entries[e.id].feeds else NO_FEEDS;
    MismatchIff(was, f, e);
    assert forall g :: Held(s, f, e, g) == On(was.Put(f, e), g);
  }

  lemma MismatchIff(was: Trio, f: Feed, e: Execution)
    requires OwnIds(was, e.id)
    ensures var now := was.Put(f, e);
      && (forall g :: On(now, g) == if g == f then Some(e) else On(was, g))
      && (now.AnyMismatch() <==> exists g, h :: g != h && Disagree(On(now, g), On(now, h)))
  {
    var now := was.Put(f, e);
    forall g ensures On(now, g).Some? ==> On(now, g).value.id == e.id {
      assert On(now, g) == if g == f then Some(e) else On(was, g);
    }
    assert On(now, One) == now.one && On(now, Two) == now.two && On(now, Three) == now.three;
    assert Mismatch(now.one, now.two) <==> Disagree(On(now, One), On(now, Two));
    assert Mismatch(now.one, now.three) <==> Disagree(On(now, One), On(now, Three));
    assert Mismatch(now.two, now.three) <==> Disagree(On(now, Two), On(now, Three));
    if g, h :| g != h && Disagree(On(now, g), On(now, h)) {
      assert Disagree(On(now, h), On(now, g));
    }
  }

  // ----- Runs -----

  /** An entry says what its window has received. */
  ghost predicate Summary(p: Policy, w: nat, id: nat, ent: Entry, window: seq<Event>) {
    forall z {:trigger Peek(z)} :: Peek(z) ==>
      && window != []
      && (forall i :: 0 <= i < |window| ==> window[i].exec.id == id)
      && (forall f :: On(ent.feeds, f) == LastOn(window, f))
      && ent.first == Opening(p, window) && ent.last == window[|window| - 1].exec.ts
      && (!p.byPresence && ent.first == 0 ==> ent.last == 0)
      && (ent.alerted <==> Alarmed(p, w, window))
  }

  /** The windows still open at time t are the entries. */
  ghost predicate Follows(p: Policy, w: nat, s: State, events: seq<Event>, n: nat)
    requires w >= 1 && n <= |events|
  {
    forall z {:trigger Look(z)} :: Look(z) ==>
      && s.alerts == |Firing(p, w, events, n)|
      && (forall id :: id in s.entries ==> Summary(p, w, id, s.entries[id], Window(p, w, events, n, id)))
      && (forall id :: id in s.entries ==> s.entries[id].first + w > s.lastTimer)
      && (forall id: nat :: Window(p, w, events, n, id) != [] && id !in s.entries ==>
           Opening(p, Window(p, w, events, n, id)) + w <= s.lastTimer)
  }

  /** The timers that fire leave the entries that the last of them leaves. */
  lemma {:induction false} TimersFilter(w: nat, s: State, next: nat, upTo: nat)
    requires w >= 1 && next == s.lastTimer + w && forall id :: id in s.entries ==> s.entries[id].first + w > s.lastTimer
    ensures var t := FireTimers(w, s, next, upTo);
      && t.lastTimer + w == NextTimer(w, next, upTo) && t.lastTimer >= s.lastTimer && t.alerts == s.alerts
      && (forall id :: id in t.entries <==> id in s.entries && s.entries[id].first + w > t.lastTimer)
      && (forall id :: id in t.entries ==> t.entries[id] == s.entries[id])
    decreases upTo + 1 - next
  {
    if upTo < next {
    } else {
      TimersFilter(w, OnTimer(w, s, next), next + w, upTo);
    }
  }

  /** The next timer is the first multiple of the window that is still to come. */
  lemma {:induction false} NextMultiple(w: nat, q: nat, upTo: nat)
    requires w >= 1 && q * w <= upTo
    ensures NextTimer(w, q * w + w, upTo) == upTo / w * w + w
    decreases upTo - q * w
  {
    if upTo < q * w + w {
      assert q * w == w * q;
      Circle.Remainder(upTo, w, q, upTo - q * w);
    } else {
      assert (q + 1) * w == q * w + w;
      NextMultiple(w, q + 1, upTo);
    }
  }

  lemma NextAfter(w: nat, now: nat, upTo: nat)
    requires w >= 1 && now <= upTo
    ensures NextTimer(w, now / w * w + w, upTo) == upTo / w * w + w
  {
    assert now / w * w <= now;
    NextMultiple(w, now / w, upTo);
  }

  lemma TimersFollow(p: Policy, w: nat, s: State, next: nat, upTo: nat, events: seq<Event>, n: nat)
    requires w >= 1 && n <= |events| && Follows(p, w, s, events, n) && next == s.lastTimer + w
    ensures Follows(p, w, FireTimers(w, s, next, upTo), events, n)
    ensures FireTimers(w, s, next, upTo).lastTimer + w == NextTimer(w, next, upTo)
  {
    assert Look(0);
    TimersFilter(w, s, next, upTo);
    var t := FireTimers(w, s, next, upTo);
    forall id: nat | Window(p, w, events, n, id) != [] && id !in t.entries
      ensures Opening(p, Window(p, w, events, n, id)) + w <= t.lastTimer
    {
      if id in s.entries {
        assert Summary(p, w, id, s.entries[id], Window(p, w, events, n, id));
        assert Peek(0);
      }
    }
  }

  lemma WindowGrows(p: Policy, window: seq<Event>, e: Event)
    ensures FirstPositive(window + [e]) == if FirstPositive(window) > 0 then FirstPositive(window) else e.exec.ts
    ensures forall f :: LastOn(window + [e], f) == if f == e.feed then Some(e.exec) else LastOn(window, f)
  {
    assert (window + [e])[..|window + [e]| - 1] == window;
  }

  /** There is reason for an alert in the longer window if there was before, or at its end. */
  ghost predicate Alarmed(p: Policy, w: nat, window: seq<Event>) {
    exists k :: 0 <= k <= |window| && Alarm(p, w, window[..k])
  }

  lemma AlarmedGrows(p: Policy, w: nat, window: seq<Event>, e: Event)
    ensures Alarmed(p, w, window + [e]) <==> Alarm(p, w, window + [e]) || Alarmed(p, w, window)
  {
    var now := window + [e];
    assert now[..|now|] == now;
    assert forall k :: 0 <= k <= |window| ==> now[..k] == window[..k];
    if Alarmed(p, w, window) {
      var k :| 0 <= k <= |window| && Alarm(p, w, window[..k]);
      assert Alarm(p, w, now[..k]);
    }
  }

  /** What the entry of an id says about its window. */
  lemma SummaryMeans(p: Policy, w: nat, id: nat, ent: Entry, window: seq<Event>)
    requires Summary(p, w, id, ent, window)
    ensures window != [] && OwnIds(ent.feeds, id) && (forall f :: On(ent.feeds, f) == LastOn(window, f))
    ensures ent.first == Opening(p, window) && ent.last == window[|window| - 1].exec.ts
    ensures (!p.byPresence && ent.first == 0 ==> ent.last == 0) && (ent.alerted <==> Alarmed(p, w, window))
  {
    assert Peek(0);
    OwnLast(window, id);
  }

  lemma NoAlarm(p: Policy, w: nat)
    ensures !Alarmed(p, w, [])
  {
  }

  /** The window before an event and what is known of its id. */
  ghost predicate Before(p: Policy, w: nat, s: State, id: nat, window: seq<Event>) {
    if id in s.entries then Summary(p, w, id, s.entries[id], window) else window == []
  }

  lemma ReasonIff(p: Policy, w: nat, s: State, e: Event, window: seq<Event>)
    requires Before(p, w, s, e.exec.id, window)
    ensures Began(p, s, e.exec) == Opening(p, window + [e]) && (Alerted(s, e.exec.id) <==> Alarmed(p, w, window))
    ensures forall g :: Held(s, e.feed, e.exec, g) == LastOn(window + [e], g)
    ensures Reason(p, w, s, e.feed, e.exec) <==> Alarm(p, w, window + [e]) && !Alarmed(p, w, window)
  {
    var id, now := e.exec.id, window + [e];
    WindowGrows(p, window, e);
    NoAlarm(p, w);
    if id in s.entries {
      SummaryMeans(p, w, id, s.entries[id], window);
    }
    assert forall g :: Held(s, e.feed, e.exec, g) == LastOn(now, g);
    assert Began(p, s, e.exec) == Opening(p, now);
  }

  /** The entry of a window that goes on, or is opened, by an event. */
  lemma SummaryGrows(p: Policy, w: nat, s: State, e: Event, window: seq<Event>)
    requires p.Admits(e.exec.id) && s.lastTimer < e.exec.ts + w && Before(p, w, s, e.exec.id, window)
    ensures var t := OnFeed(p, w, s, e.feed, e.exec);
      && e.exec.id in t.entries && Summary(p, w, e.exec.id, t.entries[e.exec.id], window + [e])
      && t.alerts == (if Alarm(p, w, window + [e]) && !Alarmed(p, w, window) then s.alerts + 1 else s.alerts)
  {
    ReasonIff(p, w, s, e, window);
    if e.exec.id in s.entries {
      SummaryMeans(p, w, e.exec.id, s.entries[e.exec.id], window);
    }
    AlertIff(p, w, s, e.feed, e.exec);
    AlarmedGrows(p, w, window, e);
    WindowGrows(p, window, e);
    assert forall i :: 0 <= i < |window| ==> window[i].exec.id == e.exec.id by { assert Peek(0); }
  }

  lemma {:induction false} OwnLast(window: seq<Event>, id: nat)
    requires forall i :: 0 <= i < |window| ==> window[i].exec.id == id
    ensures forall f :: LastOn(window, f).Some? ==> LastOn(window, f).value.id == id
    decreases |window|
  {
    if window == [] {
    } else {
      OwnLast(window[..|window| - 1], id);
    }
  }

  /** An event that does not count leaves every window alone. */
  lemma SkippedFollows(p: Policy, w: nat, s: State, events: seq<Event>, n: nat)
    requires w >= 1 && n < |events| && Follows(p, w, s, events, n) && s.lastTimer == LastMultiple(w, events, n)
    requires !Taken(p, w, events, n)
    ensures Follows(p, w, OnFeed(p, w, s, events[n].feed, events[n].exec), events, n + 1)
  {
    assert Look(0);
    assert Firing(p, w, events, n + 1) == Firing(p, w, events, n);
    assert forall id: nat :: Window(p, w, events, n + 1, id) == Window(p, w, events, n, id);
  }

  lemma TakenFollows(p: Policy, w: nat, s: State, events: seq<Event>, n: nat)
    requires w >= 1 && n < |events| && Follows(p, w, s, events, n) && s.lastTimer == LastMultiple(w, events, n)
    requires Taken(p, w, events, n)
    ensures Follows(p, w, OnFeed(p, w, s, events[n].feed, events[n].exec), events, n + 1)
  {
    OwnWindow(p, w, s, events, n);
    OtherWindows(p, w, s, events, n);
    assert Look(0);
  }

  /** The window of the event's id goes on, or a new one is opened. */
  lemma OwnWindow(p: Policy, w: nat, s: State, events: seq<Event>, n: nat)
    requires w >= 1 && n < |events| && Follows(p, w, s, events, n) && s.lastTimer == LastMultiple(w, events, n)
    requires Taken(p, w, events, n)
    ensures var id, t := events[n].exec.id, OnFeed(p, w, s, events[n].feed, events[n].exec);
      && id in t.entries && Summary(p, w, id, t.entries[id], Window(p, w, events, n + 1, id))
      && t.entries[id].first + w > t.lastTimer && t.alerts == |Firing(p, w, events, n + 1)|
  {
    var window := WindowGoesOn(p, w, s, events, n);
    SummaryGrows(p, w, s, events[n], window);
    AlertCounted(p, w, events, n, window);
    assert s.alerts == |Firing(p, w, events, n)| by { assert Look(0); }
    StillOpen(p, w, s, events[n]);
    var id := events[n].exec.id;
    assert id in s.entries ==> s.entries[id].first + w > s.lastTimer by { assert Look(0); }
  }

  /** What the event adds itself to: the window of its id, if that is still open. */
  lemma WindowGoesOn(p: Policy, w: nat, s: State, events: seq<Event>, n: nat) returns (window: seq<Event>)
    requires w >= 1 && n < |events| && Follows(p, w, s, events, n) && s.lastTimer == LastMultiple(w, events, n)
    requires Taken(p, w, events, n)
    ensures Window(p, w, events, n + 1, events[n].exec.id) == window + [events[n]]
    ensures Before(p, w, s, events[n].exec.id, window)
  {
    var id := events[n].exec.id;
    var before := Window(p, w, events, n, id);
    window := if id in s.entries then before else [];
    assert id in s.entries ==> Summary(p, w, id, s.entries[id], before) && s.entries[id].first + w > s.lastTimer
      by { assert Look(0); }
    assert id in s.entries ==> before != [] && s.entries[id].first == Opening(p, before) by { assert Peek(0); }
    assert id !in s.entries && before != [] ==> Opening(p, before) + w <= s.lastTimer by { assert Look(0); }
  }

  lemma StillOpen(p: Policy, w: nat, s: State, e: Event)
    requires p.Admits(e.exec.id) && s.lastTimer < e.exec.ts + w
    ensures var id, t := e.exec.id, OnFeed(p, w, s, e.feed, e.exec);
      && id in t.entries && t.lastTimer == s.lastTimer
      && (id in s.entries ==> t.entries[id].first == s.entries[id].first || t.entries[id].first == e.exec.ts)
      && (id !in s.entries ==> t.entries[id].first == e.exec.ts)
  {
  }

  lemma OtherWindows(p: Policy, w: nat, s: State, events: seq<Event>, n: nat)
    requires w >= 1 && n < |events|
    ensures var id, t := events[n].exec.id, OnFeed(p, w, s, events[n].feed, events[n].exec);
      && t.lastTimer == s.lastTimer
      && (forall other: nat :: other != id ==> Window(p, w, events, n + 1, other) == Window(p, w, events, n, other))
      && (forall other: nat :: other != id ==> (other in t.entries <==> other in s.entries))
      && (forall other: nat :: other != id && other in s.entries ==> t.entries[other] == s.entries[other])
  {
  }

  lemma AlertCounted(p: Policy, w: nat, events: seq<Event>, n: nat, window: seq<Event>)
    requires w >= 1 && n < |events| && Taken(p, w, events, n)
    requires Window(p, w, events, n + 1, events[n].exec.id) == window + [events[n]]
    ensures |Firing(p, w, events, n + 1)| == |Firing(p, w, events, n)|
              + if Alarm(p, w, window + [events[n]]) && !Alarmed(p, w, window) then 1 else 0
  {
    var now := window + [events[n]];
    assert forall k :: 0 <= k < |now| ==> now[..k] == window[..k];
    var before := Firing(p, w, events, n);
    assert Firing(p, w, events, n + 1) == if Fires(p, w, events, n) then before + {n} else before;
  }

  /** The timers before event n and the event itself. */
  lemma EventFollows(p: Policy, w: nat, s: State, events: seq<Event>, n: nat) returns (t: State)
    requires w >= 1 && n < |events| && Follows(p, w, s, events, n) && s.lastTimer == Clock(events, n) / w * w
    ensures t == FireTimers(w, s, s.lastTimer + w, Clock(events, n + 1))
    ensures t.lastTimer == LastMultiple(w, events, n)
    ensures t.lastTimer + w == NextTimer(w, s.lastTimer + w, Clock(events, n + 1))
    ensures Follows(p, w, OnFeed(p, w, t, events[n].feed, events[n].exec), events, n + 1)
  {
    var now' := Clock(events, n + 1);
    t := FireTimers(w, s, s.lastTimer + w, now');
    TimersFollow(p, w, s, s.lastTimer + w, now', events, n);
    NextAfter(w, Clock(events, n), now');
    if Taken(p, w, events, n) {
      TakenFollows(p, w, t, events, n);
    } else {
      SkippedFollows(p, w, t, events, n);
    }
  }

  lemma {:induction false} CountFrom(p: Policy, w: nat, s: State, events: seq<Event>, n: nat)
    requires w >= 1 && n <= |events| && Follows(p, w, s, events, n) && s.lastTimer == Clock(events, n) / w * w
    ensures BenchFrom(p, w, s, Clock(events, n), s.lastTimer + w, events[n..]) == |Firing(p, w, events, |events|)|
    decreases |events| - n
  {
    if n == |events| {
      assert Look(0);
      TimersKeepAlerts(w, s, s.lastTimer + w, FlushTo(w, Clock(events, n)));
    } else {
      assert events[n..][0] == events[n] && events[n..][1..] == events[n + 1..];
      var t := EventFollows(p, w, s, events, n);
      CountFrom(p, w, OnFeed(p, w, t, events[n].feed, events[n].exec), events, n + 1);
    }
  }

  // ----- The final flush -----

  ghost predicate BegunBy(s: State, now: nat) {
    forall z {:trigger Look(z)} :: Look(z) ==> forall id :: id in s.entries ==> s.entries[id].first <= now
  }

  lemma {:induction false} TimersBegin(w: nat, s: State, next: nat, upTo: nat, now: nat)
    requires w >= 1 && BegunBy(s, now)
    ensures BegunBy(FireTimers(w, s, next, upTo), now)
    decreases upTo + 1 - next
  {
    if upTo < next {
    } else {
      assert BegunBy(OnTimer(w, s, next), now) by { assert Look(0); }
      TimersBegin(w, OnTimer(w, s, next), next + w, upTo, now);
    }
  }

  lemma EventBegins(p: Policy, w: nat, s: State, next: nat, now: nat, now': nat, e: Event)
    requires w >= 1 && BegunBy(s, now) && now <= now' && e.exec.ts <= now'
    ensures BegunBy(OnFeed(p, w, FireTimers(w, s, next, now'), e.feed, e.exec), now')
  {
    TimersBegin(w, s, next, now', now);
    assert Look(0);
  }

  /** The final flush leaves no window open: every window began by now, and the last timer comes after its end. */
  lemma FlushEmpties(w: nat, s: State, now: nat)
    requires w >= 1 && s.lastTimer <= now < s.lastTimer + w && BegunBy(s, now)
    ensures FireTimers(w, s, s.lastTimer + w, FlushTo(w, now)).entries == map[]
  {
    assert Look(0);
    var upTo := FlushTo(w, now);
    assert upTo == now / w * w + 3 * w && now < now / w * w + w;
    var t := OnTimer(w, s, s.lastTimer + w);
    TimersFilter(w, t, s.lastTimer + 2 * w, upTo);
    var u := FireTimers(w, t, s.lastTimer + 2 * w, upTo);
    assert FireTimers(w, s, s.lastTimer + w, upTo) == u;
    assert u.lastTimer + w > upTo;
  }

  /** The alert count of a run is the number of events at which the events alone give reason for an alert, for every
      policy and every stream. */
  lemma AlertsAreFiring(p: Policy, w: nat, events: seq<Event>)
    requires w >= 1
    ensures Bench(p, w, events) == |Firing(p, w, events, |events|)|
  {
    assert events[0..] == events;
    assert Firing(p, w, events, 0) == {};
    CountFrom(p, w, START, events, 0);
  }
}
