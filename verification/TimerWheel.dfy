/**
  The timer wheel of topics/io/timer_wheel.cpp (lines 14-53). A callback is a name and what it schedules when it
  runs, in order; time is counted in ticks.
*/
module TimerWheels {
  import opened Sealing
  import Circle

  datatype Callback = Callback(name: nat, spawns: seq<Spawn>)
  datatype Spawn = Spawn(delay: nat, callback: Callback)

  /** A scheduled callback and the tick that is to run it. */
  datatype Event = Event(callback: Callback, due: nat)

  /** Whole tick intervals in a delay, at least one. */
  function Ticks(delay: nat, interval: nat): (k: nat)
    requires interval >= 1
    ensures k >= 1
  {
    if delay / interval == 0 then 1 else delay / interval
  }

  lemma TicksMean(delay: nat, interval: nat)
    requires interval >= 1
    ensures var k := Ticks(delay, interval);
      if delay < interval then k == 1 else k * interval <= delay < (k + 1) * interval
  {
    assert delay == delay / interval * interval + delay % interval;
    if delay < interval {
      Circle.Remainder(delay, interval, 0, delay);
    }
  }

  /** How many ticks later a callback scheduled k ticks ahead runs on a wheel of n slots. */
  function Wait(k: nat, n: nat): (w: nat)
    requires k >= 1 && n >= 1
    ensures 1 <= w <= n
  {
    (k - 1) % n + 1
  }

  /** A wheel keeps time exactly as long as the delay fits in one turn; longer ones run early. */
  lemma WaitIsExact(k: nat, n: nat)
    requires k >= 1 && n >= 1
    ensures Wait(k, n) == k <==> k <= n
    ensures exists turns: nat :: k == turns * n + Wait(k, n)
  {
    assert k == (k - 1) / n * n + Wait(k, n);
    if k <= n {
      Circle.SlotIsRemainder(k - 1, n);
    }
  }

  /** The callbacks due at tick t, in the order of scheduling. */
  function DueAt(events: seq<Event>, t: nat): seq<Callback>
    decreases |events|
  {
    if events == [] then []
    else
      var e := events[|events| - 1];
      DueAt(events[..|events| - 1], t) + if e.due == t then [e.callback] else []
  }

  lemma DueAtSnoc(events: seq<Event>, e: Event, t: nat)
    ensures DueAt(events + [e], t) == DueAt(events, t) + if e.due == t then [e.callback] else []
  {
    assert (events + [e])[..|events + [e]| - 1] == events;
  }

  lemma {:induction false} NoneDue(events: seq<Event>, t: nat)
    requires forall e :: e in events ==> e.due != t
    ensures DueAt(events, t) == []
    decreases |events|
  {
    if events == [] {
    } else {
      assert events[|events| - 1] in events;
      NoneDue(events[..|events| - 1], t);
    }
  }

  /** Each scheduled callback stands exactly once among those of its tick: behind the ones of that tick scheduled
      before it. */
  lemma {:induction false} EachOnce(events: seq<Event>, i: nat)
    requires i < |events|
    ensures var t, r := events[i].due, |DueAt(events[..i], events[i].due)|;
      r < |DueAt(events, t)| && DueAt(events, t)[r] == events[i].callback
    decreases |events|
  {
    var last := |events| - 1;
    if i >= last {
    } else {
      EachOnce(events[..last], i);
      assert events[..last][..i] == events[..i];
    }
  }

  lemma {:induction false} CountDue(events: seq<Event>, t: nat)
    ensures |DueAt(events, t)| == |set i: nat | i < |events| && events[i].due == t|
    decreases |events|
  {
    var all := set i: nat | i < |events| && events[i].due == t;
    if events == [] {
      assert all == {};
    } else {
      var last := |events| - 1;
      var before := events[..last];
      CountDue(before, t);
      var some := set i: nat | i < |before| && before[i].due == t;
      assert all == some + if events[last].due == t then {last} else {};
    }
  }

  /** What callbacks schedule when they run one after the other at tick `now`. */
  function AfterRunning(events: seq<Event>, run: seq<Callback>, now: nat, interval: nat, n: nat): seq<Event>
    requires interval >= 1 && n >= 1
    decreases |run|
  {
    if run == [] then events
    else
      var m := |run| - 1;
      AfterRunning(events, run[..m], now, interval, n) + Spawned(run[m].spawns, now, interval, n)
  }

  function Spawned(spawns: seq<Spawn>, now: nat, interval: nat, n: nat): seq<Event>
    requires interval >= 1 && n >= 1
  {
    seq(|spawns|, i requires 0 <= i < |spawns| =>
      Event(spawns[i].callback, now + Wait(Ticks(spawns[i].delay, interval), n)))
  }

  /** Callbacks run one after the other: what an earlier one schedules comes before what a later one schedules. */
  lemma {:induction false} RunsInOrder(events: seq<Event>, a: seq<Callback>, b: seq<Callback>, now: nat, interval: nat,
                                       n: nat)
    requires interval >= 1 && n >= 1
    ensures AfterRunning(events, a + b, now, interval, n)
         == AfterRunning(AfterRunning(events, a, now, interval, n), b, now, interval, n)
    ensures |b| == 1 ==> AfterRunning(events, b, now, interval, n) == events + Spawned(b[0].spawns, now, interval, n)
    decreases |b|
  {
    if b == [] {
      assert a + b == a;
    } else {
      var m := |b| - 1;
      RunsInOrder(events, a, b[..m], now, interval, n);
      assert (a + b)[..|a + b| - 1] == a + b[..m];
      if m == 0 { assert b[..0] == []; }
    }
  }

  // ----- The wheel -----

  /** Each slot holds what is due when the wheel gets to it next; nothing is due later than a full turn. */
  ghost predicate Holds(slots: seq<seq<Callback>>, events: seq<Event>, now: nat) {
    forall z {:trigger Peek(z)} :: Peek(z) ==>
      && |slots| >= 1
      && (forall t :: now < t <= now + |slots| ==> slots[Circle.Slot(t, |slots|)] == DueAt(events, t))
      && (forall e :: e in events ==> 1 <= e.due <= now + |slots|)
  }

  /** What every tick so far has run. */
  ghost predicate HasRun(ran: seq<seq<Callback>>, events: seq<Event>) {
    forall z {:trigger Peek(z)} :: Peek(z) ==>
      forall t :: 1 <= t <= |ran| ==> ran[t - 1] == DueAt(events, t)
  }

  /** The slot that schedule_after picks is that of the tick after the wait. */
  lemma SlotOfWait(now: nat, k: nat, n: nat)
    requires k >= 1 && n >= 1
    ensures (Circle.Slot(now, n) + k) % n == Circle.Slot(now + Wait(k, n), n)
  {
    var c := Circle.Slot(now, n);
    Circle.SlotIsRemainder(c + k, n);
    Circle.SlotIsRemainder(k - 1, n);
    AddSlot(now, Circle.Slot(k - 1, n) + 1, n);
    AddSlot(k - 1, c + 1, n);
  }

  lemma {:induction false} AddSlot(a: nat, k: nat, n: nat)
    requires n >= 1
    ensures Circle.Slot(Circle.Slot(a, n) + k, n) == Circle.Slot(a + k, n)
  {
    if a < n {
    } else {
      AddSlot(a - n, k, n);
    }
  }

  lemma ScheduleHolds(slots: seq<seq<Callback>>, events: seq<Event>, now: nat, callback: Callback, due: nat)
    requires Holds(slots, events, now) && |slots| >= 1 && now < due <= now + |slots|
    ensures var at := Circle.Slot(due, |slots|);
      Holds(slots[at := slots[at] + [callback]], events + [Event(callback, due)], now)
  {
    assert Peek(0);
    var n, e := |slots|, Event(callback, due);
    var at := Circle.Slot(due, n);
    var slots' := slots[at := slots[at] + [callback]];
    forall t | now < t <= now + n ensures slots'[Circle.Slot(t, n)] == DueAt(events + [e], t) {
      DueAtSnoc(events, e, t);
      if t < due { Circle.Apart(t, due, n); }
      if due < t { Circle.Apart(due, t, n); }
    }
  }

  lemma ScheduleHasRun(ran: seq<seq<Callback>>, events: seq<Event>, e: Event)
    requires HasRun(ran, events) && e.due > |ran|
    ensures HasRun(ran, events + [e])
  {
    assert Peek(0);
    forall t | 1 <= t <= |ran| ensures ran[t - 1] == DueAt(events + [e], t) {
      DueAtSnoc(events, e, t);
    }
  }

  /** Advancing the wheel by one and emptying the slot it gets to. */
  lemma AdvanceHolds(slots: seq<seq<Callback>>, events: seq<Event>, now: nat)
    requires Holds(slots, events, now) && |slots| >= 1
    ensures var at := Circle.Slot(now + 1, |slots|);
      slots[at] == DueAt(events, now + 1) && Holds(slots[at := []], events, now + 1)
  {
    assert Peek(0);
    var n := |slots|;
    var at := Circle.Slot(now + 1, n);
    forall t | now + 1 < t <= now + 1 + n ensures slots[at := []][Circle.Slot(t, n)] == DueAt(events, t) {
      if t == now + 1 + n {
        assert Circle.Slot(t, n) == at;
        NoneDue(events, t);
      } else {
        Circle.Apart(now + 1, t, n);
      }
    }
  }

  lemma AdvanceHasRun(ran: seq<seq<Callback>>, events: seq<Event>)
    requires HasRun(ran, events)
    ensures HasRun(ran + [DueAt(events, |ran| + 1)], events)
  {
    assert Peek(0);
  }

  class TimerWheel {
    const interval: nat
    var slots: seq<seq<Callback>>
    var currentSlot: nat
    /** What each tick has run, in order. */
    var ran: seq<seq<Callback>>
    /** Everything ever scheduled, in order. */
    ghost var events: seq<Event>

    ghost predicate Valid()
      reads this
    {
      && interval >= 1 && |slots| >= 1
      && currentSlot == Circle.Slot(|ran|, |slots|)
      && Holds(slots, events, |ran|) && HasRun(ran, events)
    }

    constructor (numSlots: nat, interval: nat)
      requires numSlots >= 1 && interval >= 1
      ensures Valid() && events == [] && ran == [] && |slots| == numSlots && this.interval == interval
    {
      this.interval := interval;
      slots, currentSlot, ran, events := seq(numSlots, _ => []), 0, [], [];
    }

    method ScheduleAfter(delay: nat, callback: Callback)
      requires Valid()
      modifies this`slots, this`events
      ensures Valid() && |slots| == |old(slots)|
      ensures events == old(events) + [Event(callback, |ran| + Wait(Ticks(delay, interval), |slots|))]
    {
      var ticks := delay / interval;
      if ticks == 0 {
        ticks := 1;
      }
      Place(ticks, callback);
    }

    /** Lines 28-30: into the slot that many ticks ahead. */
    method Place(ticks: nat, callback: Callback)
      requires Valid() && ticks >= 1
      modifies this`slots, this`events
      ensures Valid() && |slots| == |old(slots)|
      ensures events == old(events) + [Event(callback, |ran| + Wait(ticks, |slots|))]
    {
      var slot := (currentSlot + ticks) % |slots|;
      ghost var e := Event(callback, |ran| + Wait(ticks, |slots|));
      SlotOfWait(|ran|, ticks, |slots|);
      ScheduleHolds(slots, events, |ran|, callback, e.due);
      ScheduleHasRun(ran, events, e);
      slots := slots[slot := slots[slot] + [callback]];
      events := events + [e];
    }

    /** One tick runs exactly what is due at it, in the order of scheduling, and nothing else; what the callbacks
        schedule meanwhile comes later. */
    method Tick()
      requires Valid()
      modifies this
      ensures Valid() && |slots| == |old(slots)|
      ensures ran == old(ran) + [DueAt(old(events), |old(ran)| + 1)]
      ensures events == AfterRunning(old(events), DueAt(old(events), |ran|), |ran|, interval, |slots|)
    {
      Circle.Successor(|ran|, |slots|);
      Circle.SlotIsRemainder(currentSlot + 1, |slots|);
      AdvanceHolds(slots, events, |ran|);
      AdvanceHasRun(ran, events);
      currentSlot := (currentSlot + 1) % |slots|;
      var toRun := slots[currentSlot];
      slots := slots[currentSlot := []];
      ran := ran + [toRun];
      RunAll(toRun);
    }

    /** for (auto& f : to_run) f(); */
    method RunAll(toRun: seq<Callback>)
      requires Valid()
      modifies this`slots, this`events
      ensures Valid() && |slots| == |old(slots)|
      ensures events == AfterRunning(old(events), toRun, |ran|, interval, |slots|)
    {
      var i := 0;
      assert toRun[..0] == [];
      while i < |toRun|
        invariant 0 <= i <= |toRun|
        invariant Valid() && |slots| == |old(slots)|
        invariant events == AfterRunning(old(events), toRun[..i], |ran|, interval, |slots|)
      {
        assert toRun[..i + 1][..i] == toRun[..i];
        Invoke(toRun[i]);
        i := i + 1;
      }
      assert toRun[..i] == toRun;
    }

    /** Running a callback: it schedules its spawns in order. */
    method Invoke(callback: Callback)
      requires Valid()
      modifies this`slots, this`events
      ensures Valid() && |slots| == |old(slots)|
      ensures events == old(events) + Spawned(callback.spawns, |ran|, interval, |slots|)
    {
      var i := 0;
      while i < |callback.spawns|
        invariant 0 <= i <= |callback.spawns|
        invariant Valid() && |slots| == |old(slots)|
        invariant events == old(events) + Spawned(callback.spawns, |ran|, interval, |slots|)[..i]
      {
        ScheduleAfter(callback.spawns[i].delay, callback.spawns[i].callback);
        i := i + 1;
      }
    }

    /** Everything scheduled so far that is due by now has run at its tick, exactly once and in order; the rest is due
        within the next turn. */
    lemma Promise(i: nat)
      requires Valid() && i < |events|
      ensures var e := events[i];
        if e.due <= |ran|
        then e.due >= 1 && ran[e.due - 1] == DueAt(events, e.due)
             && |ran[e.due - 1]| == |set j: nat | j < |events| && events[j].due == e.due|
             && |DueAt(events[..i], e.due)| < |ran[e.due - 1]|
             && ran[e.due - 1][|DueAt(events[..i], e.due)|] == e.callback
        else e.due <= |ran| + |slots|
    {
      assert Peek(0);
      EachOnce(events, i);
      CountDue(events, events[i].due);
      assert events[i] in events;
    }
  }
}
