/**
  The reconcilers over the flat table: with a lazy heap (extras/citadel_interview/main.cpp:396-550) and
  with a timer wheel (lines 556-703). Their table keeps no entry for the marks 0 and 1, so they follow
  the reference with ids below 2 left out, provided storing 0 never cuts a live id off (FlatTable.Harmless).
*/
module FlatReconcilers {
  import opened Expiry
  import opened ReconcilerSpec
  import opened TimedEntries
  import opened Displacement
  import opened FlatTables
  import opened ExpiryHeap

  /** Writing the entry of an id: the tombstone mark is not kept. */
  function FlatPut(m: map<nat, Timed>, id: nat, ent: Timed): map<nat, Timed> {
    if id > 1 then m[id := ent] else m
  }

  function FlatEntry(m: map<nat, Timed>, id: nat): Timed {
    if id > 1 then EntryFor(m, id) else BLANK_TIMED
  }

  predicate IsBlank(ent: Timed) {
    ent.first == 0 && ent.last == 0
  }

  function Opened(was: Timed, ts: nat, w: nat): Timed {
    var first := if was.first == 0 && was.last == 0 then ts else was.first;
    was.(first := first, expireAt := first + w)
  }

  /** An event of a sentinel id lands in a blank entry: it cannot mismatch and leaves no trace. */
  lemma FlatFeed(m: map<nat, Timed>, w: nat, s: State, f: Feed, e: Execution, ent: Timed)
    requires s.entries == PlainMap(m) && !Late(w, s, e)
    requires ent == Touched(FlatEntry(m, e.id), w, f, e)
    ensures e.id <= 1 ==> !Raises(ent, e.ts)
    ensures var last := if Raises(ent, e.ts) then ent.(alerted := true) else ent;
      OnFeed(FLAT_POLICY, w, s, f, e) ==
        State(PlainMap(FlatPut(m, e.id, last)),
              if Raises(ent, e.ts) then s.alerts + 1 else s.alerts, s.lastTimer)
  {
    if e.id > 1 {
      TimedFeed(FLAT_POLICY, m, w, s, f, e, ent);
    }
  }

  lemma Overwrite(m: map<nat, Timed>, id: nat, a: Timed, b: Timed)
    ensures m[id := a][id := b] == m[id := b]
  {
  }

  /** Entering an id and then storing its entry writes that entry. */
  lemma StoredView(m: map<nat, Timed>, entered: map<nat, Timed>, stored: map<nat, Timed>, id: nat, ent: Timed)
    requires entered == if id > 1 && id !in m then m[id := BLANK_TIMED] else m
    requires stored == if id > 1 then entered[id := ent] else entered
    ensures stored == FlatPut(m, id, ent)
  {
    Overwrite(m, id, BLANK_TIMED, ent);
  }

  lemma ScheduleFlat(m: map<nat, Timed>, expiry: multiset<Exp>, w: nat, id: nat, ent: Timed)
    requires Scheduled(m, expiry, w) && ent.expireAt == ent.first + w
    ensures Scheduled(FlatPut(m, id, ent), expiry + multiset{Exp(ent.expireAt, id)}, w)
  {
    ScheduleOne(m, expiry, w, id, ent);
    ScheduleMore(m, expiry, w, Exp(ent.expireAt, id));
  }

  class FlatHashHeap {
    const window: nat
    const table: FlatTable
    var expiry: multiset<Exp>
    var alerts: nat
    var lastTimer: nat

    ghost predicate Valid()
      reads this, table, table.keys, table.entries, table.used
    {
      table.Valid() && Scheduled(table.view, expiry, window)
    }

    ghost function View(): State
      reads this, table, table.keys, table.entries, table.used
      requires Valid()
    {
      State(PlainMap(table.view), alerts, lastTimer)
    }

    constructor (hash: nat -> nat, window: nat, expectedIds: nat)
      ensures this.window == window && Valid() && View() == START && table.Ever() == {}
      ensures fresh(table) && fresh(table.keys) && fresh(table.entries) && fresh(table.used)
      ensures table.cap >= 2 * expectedIds
    {
      this.window := window;
      table := new FlatTable(hash, expectedIds);
      expiry, alerts, lastTimer := multiset{}, 0, 0;
    }

    method OnTimer(now: nat)
      requires Valid() && |table.Ever()| < table.cap
      modifies this, table, table.keys, table.entries, table.used
      ensures Valid() && table.Ever() == old(table.Ever())
      ensures View() == ReconcilerSpec.OnTimer(window, old(View()), now)
    {
      lastTimer := now;
      ghost var was := table.view;
      while expiry != multiset{}
        invariant table.Valid() && table.Ever() == old(table.Ever())
        invariant Scheduled(table.view, expiry, window)
        invariant Draining(was, table.view, now)
        invariant alerts == old(alerts) && lastTimer == now
        decreases |expiry|
      {
        var top := Top(expiry);
        if top.expireAt > now {
          break;
        }
        PopKeeps(was, table.view, expiry, window, now, top);
        expiry := expiry - multiset{top};
        var idx := table.FindIndex(top.id);
        if idx.Some? && table.used[idx.value] && table.entries[idx.value].expireAt == top.expireAt {
          table.EraseAt(idx.value);
        }
      }
      Drained(was, old(expiry), table.view, expiry, window, now, old(View()));
    }

    method OnFeed(f: Feed, exec: Execution)
      requires Valid() && (exec.ts + window > lastTimer ==> table.Takes(exec.id))
      modifies this, table, table.keys, table.entries, table.used
      ensures Valid() && table.Ever() <= old(table.Ever()) + Counted(exec.id)
      ensures View() == ReconcilerSpec.OnFeed(FLAT_POLICY, window, old(View()), f, exec)
    {
      var ts := exec.ts;
      if ts + window <= lastTimer {
        return;
      }
      ghost var ent := Touched(FlatEntry(table.view, exec.id), window, f, exec);
      FlatFeed(table.view, window, View(), f, exec, ent);
      Record(f, exec);
    }

    /** Lines 516-521: the entry of the id, with its times brought up to date. */
    method Enter(id: nat, ts: nat) returns (idx: nat, ent: Timed)
      requires table.Valid() && table.Takes(id)
      modifies table, table.keys, table.entries, table.used
      ensures table.Valid() && table.Ever() == old(table.Ever()) + Counted(id)
      ensures idx < table.cap && table.keys[idx] == id
      ensures table.view ==
        if id > 1 && id !in old(table.view) then old(table.view)[id := BLANK_TIMED] else old(table.view)
      ensures ent == Opened(FlatEntry(old(table.view), id), ts, window).(last := ts)
    {
      idx := table.FindOrInsert(id);
      ent := table.entries[idx];
      if ent.first == 0 && ent.last == 0 {
        ent := ent.(first := ts);
      }
      ent := ent.(last := ts, expireAt := ent.first + window);
    }

    /** Lines 516-539: an event in time. */
    method Record(f: Feed, exec: Execution)
      requires Valid() && table.Takes(exec.id)
      modifies this, table, table.keys, table.entries, table.used
      ensures Valid() && table.Ever() <= old(table.Ever()) + Counted(exec.id) && lastTimer == old(lastTimer)
      ensures var ent := Touched(FlatEntry(old(table.view), exec.id), window, f, exec);
        && table.view == FlatPut(old(table.view), exec.id,
                                 if Raises(ent, exec.ts) then ent.(alerted := true) else ent)
        && alerts == old(alerts) + if Raises(ent, exec.ts) then 1 else 0
    {
      var ts := exec.ts;
      ghost var m, before := table.view, expiry;
      var idx, ent := Enter(exec.id, ts);
      ent := ent.(feeds := ent.feeds.Put(f, exec));
      assert ent == Touched(FlatEntry(m, exec.id), window, f, exec);
      var raised := 0;
      if Raises(ent, ts) {
        ent := ent.(alerted := true);
        raised := 1;
      }
      ScheduleFlat(m, before, window, exec.id, ent);
      ghost var entered := table.view;
      table.Store(idx, ent);
      StoredView(m, entered, table.view, exec.id, ent);
      expiry := expiry + multiset{Exp(ent.expireAt, exec.id)};
      alerts := alerts + raised;
    }
  }

  // ----- With a timer wheel -----

  /** The entry of an event under a wheel: only a blank one gets its times. */
  function WheelOpened(was: Timed, ts: nat, w: nat): Timed {
    if IsBlank(was) then was.(first := ts, expireAt := ts + w) else was
  }

  /** onFeed of FlatHashWheel on values, wherever the opened window ends. */
  function FlatWheelFeed(w: nat, s: WheelState, f: Feed, e: Execution): WheelState
    requires |s.wheel| > 0
  {
    if e.ts + w <= s.lastTimer then s
    else
      var was := FlatEntry(s.entries, e.id);
      var wheel := if IsBlank(was) then Scheduling(s.wheel, e.id, e.ts + w) else s.wheel;
      var ent := WheelOpened(was, e.ts, w).(last := e.ts, feeds := was.feeds.Put(f, e));
      var last := if Raises(ent, e.ts) then ent.(alerted := true) else ent;
      WheelState(FlatPut(s.entries, e.id, last), wheel, if Raises(ent, e.ts) then s.alerts + 1 else s.alerts,
                 s.lastTimer)
  }

  /** It follows the reference, and every entry stays covered, if an opened window ends within one turn. */
  lemma FlatWheelFollows(w: nat, s: WheelState, f: Feed, e: Execution)
    requires |s.wheel| > 0 && Covered(s, w)
    requires e.id > 1 && IsBlank(FlatEntry(s.entries, e.id)) ==> e.ts + w <= s.lastTimer + |s.wheel|
    ensures var t := FlatWheelFeed(w, s, f, e);
      Covered(t, w) && t.Plain() == OnFeed(FLAT_POLICY, w, s.Plain(), f, e)
  {
    if s.lastTimer < e.ts + w {
      var was := FlatEntry(s.entries, e.id);
      if !IsBlank(was) {
        WheelDue(s.entries, s.wheel, w, s.lastTimer, s.lastTimer + |s.wheel|, e.id);
      }
      var ent := WheelOpened(was, e.ts, w).(last := e.ts, feeds := was.feeds.Put(f, e));
      FlatFeed(s.entries, w, s.Plain(), f, e, ent);
      FlatWheelCovers(w, s, f, e);
    }
  }

  lemma FlatWheelCovers(w: nat, s: WheelState, f: Feed, e: Execution)
    requires |s.wheel| > 0 && Covered(s, w) && s.lastTimer < e.ts + w
    requires e.id > 1 && IsBlank(FlatEntry(s.entries, e.id)) ==> e.ts + w <= s.lastTimer + |s.wheel|
    ensures Covered(FlatWheelFeed(w, s, f, e), w)
  {
    var lo, hi := s.lastTimer, s.lastTimer + |s.wheel|;
    var was := FlatEntry(s.entries, e.id);
    var begun := WheelOpened(was, e.ts, w);
    var ent := begun.(last := e.ts, feeds := was.feeds.Put(f, e));
    var last := if Raises(ent, e.ts) then ent.(alerted := true) else ent;
    var t := FlatWheelFeed(w, s, f, e);
    assert t.entries == FlatPut(s.entries, e.id, last) && t.lastTimer == lo;
    WheelFlat(s.entries, s.wheel, w, lo, hi, e.id, e.ts, begun, t.wheel);
    WheelTouch(s.entries, t.wheel, w, lo, hi, e.id, begun, last);
  }

  /** The wheel after an event has reached its entry: a fresh window is scheduled. */
  lemma WheelFlat(m: map<nat, Timed>, wheel: seq<seq<nat>>, w: nat, lo: int, hi: int, id: nat, ts: nat, ent: Timed,
                  wheel': seq<seq<nat>>)
    requires Pending(m, wheel, w, lo, hi) && |wheel| > 0 && lo < ts + w
    requires id > 1 && IsBlank(FlatEntry(m, id)) ==> ts + w <= hi
    requires ent == WheelOpened(FlatEntry(m, id), ts, w)
    requires wheel' == if IsBlank(FlatEntry(m, id)) then Scheduling(wheel, id, ts + w) else wheel
    ensures |wheel'| == |wheel| && Pending(FlatPut(m, id, ent), wheel', w, lo, hi)
  {
    if !IsBlank(FlatEntry(m, id)) {
      WheelKeep(m, wheel, w, lo, hi, id, ent);
    } else if id > 1 {
      WheelOpen(m, wheel, w, lo, hi, id, ent);
    } else {
      WheelCrowd(m, wheel, w, lo, hi, ent.expireAt % |wheel|, id);
    }
  }

  lemma WheelTouch(m: map<nat, Timed>, wheel: seq<seq<nat>>, w: nat, lo: int, hi: int, id: nat, a: Timed, b: Timed)
    requires Pending(FlatPut(m, id, a), wheel, w, lo, hi)
    requires a.first == b.first && a.expireAt == b.expireAt
    ensures Pending(FlatPut(m, id, b), wheel, w, lo, hi)
  {
    if id > 1 {
      WheelKeep(m[id := a], wheel, w, lo, hi, id, b);
      Overwrite(m, id, a, b);
    }
  }

  class FlatHashWheel {
    const window: nat
    const tickMod: nat
    const table: FlatTable
    const wheel: array<seq<nat>>
    var lastTimer: nat
    var alerts: nat

    ghost predicate Valid()
      reads this, table, table.keys, table.entries, table.used
    {
      table.Valid() && wheel.Length == tickMod > 0
    }

    /** What the class keeps, on values. */
    ghost function Wheels(): WheelState
      reads this, table, wheel
    {
      WheelState(table.view, wheel[..], alerts, lastTimer)
    }

    ghost function View(): State
      reads this, table
    {
      State(PlainMap(table.view), alerts, lastTimer)
    }

    constructor (hash: nat -> nat, window: nat, expectedIds: nat, tickMod: nat)
      requires tickMod > 0
      ensures this.window == window && this.tickMod == tickMod
      ensures Valid() && Wheels() == EmptyWheel(tickMod) && Covered(Wheels(), window) && View() == START
      ensures table.Ever() == {} && table.cap >= 2 * expectedIds
      ensures fresh(table) && fresh(table.keys) && fresh(table.entries) && fresh(table.used) && fresh(wheel)
    {
      this.window := window;
      this.tickMod := tickMod;
      table := new FlatTable(hash, expectedIds);
      wheel := new seq<nat>[tickMod](_ => []);
      lastTimer, alerts := 0, 0;
      new;
      WheelStart(tickMod, window);
      assert wheel[..] == EmptyWheel(tickMod).wheel;
    }

    /** Sweeps and clears the buckets lastTimer + 1 .. now. That is a full scan while every entry is covered and time
        does not run back. */
    method OnTimer(now: nat)
      requires Valid() && |table.Ever()| < table.cap
      modifies this, table, table.keys, table.entries, table.used, wheel
      ensures Valid() && table.Ever() == old(table.Ever()) && Wheels() == WheelTimer(old(Wheels()), now)
      ensures old(Covered(Wheels(), window)) && old(lastTimer) <= now ==>
                Covered(Wheels(), window) && View() == ReconcilerSpec.OnTimer(window, old(View()), now)
    {
      ghost var s := Wheels();
      var t := lastTimer + 1;
      while t <= now
        invariant Valid() && table.Ever() == old(table.Ever())
        invariant t > s.lastTimer && (t <= now + 1 || t == s.lastTimer + 1)
        invariant (table.view, wheel[..]) == SweepBuckets(s.entries, s.wheel, s.lastTimer, t - 1)
        invariant alerts == s.alerts && lastTimer == s.lastTimer
      {
        SweepBucket(t);
        t := t + 1;
      }
      lastTimer := now;
      if Covered(s, window) && s.lastTimer <= now {
        TimerSimulates(s, window, now);
      }
    }

    /** The body of the timer loop: lines 576-584. */
    method SweepBucket(t: nat)
      requires Valid() && |table.Ever()| < table.cap
      modifies table, table.keys, table.entries, table.used, wheel
      ensures Valid() && table.Ever() == old(table.Ever())
      ensures table.view == SweepIds(old(table.view), old(wheel[..])[t % tickMod], t)
      ensures wheel[..] == old(wheel[..])[t % tickMod := []]
    {
      var bucket := wheel[t % tickMod];
      ghost var w := wheel[..];
      assert bucket[..0] == [];
      for i := 0 to |bucket|
        invariant Valid() && table.Ever() == old(table.Ever()) && wheel[..] == w
        invariant table.view == SweepIds(old(table.view), bucket[..i], t)
      {
        assert bucket[..i + 1][..i] == bucket[..i];
        var idx := table.FindIndex(bucket[i]);
        if idx.Some? && table.used[idx.value] && table.entries[idx.value].expireAt <= t {
          table.EraseAt(idx.value);
        }
      }
      assert bucket[..|bucket|] == bucket;
      wheel[t % tickMod] := [];
      assert wheel[..] == w[t % tickMod := []];
    }

    method Schedule(id: nat, expireAt: nat)
      requires wheel.Length == tickMod > 0
      modifies wheel
      ensures wheel[..] == Scheduling(old(wheel[..]), id, expireAt)
    {
      ghost var next := Scheduling(wheel[..], id, expireAt);
      wheel[expireAt % tickMod] := wheel[expireAt % tickMod] + [id];
      assert wheel[..] == next;
    }

    /** Lines 667-673: the entry of the id, scheduled for expiry if it opens a window. */
    method Enter(id: nat, ts: nat) returns (idx: nat, ent: Timed)
      requires Valid() && table.Takes(id)
      modifies table, table.keys, table.entries, table.used, wheel
      ensures table.Valid() && table.Ever() == old(table.Ever()) + Counted(id)
      ensures idx < table.cap && table.keys[idx] == id
      ensures table.view ==
        if id > 1 && id !in old(table.view) then old(table.view)[id := BLANK_TIMED] else old(table.view)
      ensures var was := FlatEntry(old(table.view), id);
        && ent == WheelOpened(was, ts, window)
        && wheel[..] == if IsBlank(was) then Scheduling(old(wheel[..]), id, ts + window) else old(wheel[..])
    {
      idx := table.FindOrInsert(id);
      ent := Begin(id, ts, table.entries[idx]);
    }

    /** Lines 669-673. */
    method Begin(id: nat, ts: nat, was: Timed) returns (ent: Timed)
      requires wheel.Length == tickMod > 0
      modifies wheel
      ensures ent == WheelOpened(was, ts, window)
      ensures wheel[..] == if IsBlank(was) then Scheduling(old(wheel[..]), id, ts + window) else old(wheel[..])
    {
      ent := was;
      if ent.first == 0 && ent.last == 0 {
        ent := ent.(first := ts, expireAt := ts + window);
        Schedule(id, ent.expireAt);
      }
    }

    /** Follows the reference while every entry is covered and an opened window ends within one turn of the wheel. */
    method OnFeed(f: Feed, exec: Execution)
      requires Valid() && (exec.ts + window > lastTimer ==> table.Takes(exec.id))
      modifies this, table, table.keys, table.entries, table.used, wheel
      ensures Valid() && table.Ever() <= old(table.Ever()) + Counted(exec.id)
      ensures Wheels() == FlatWheelFeed(window, old(Wheels()), f, exec)
      ensures old(Covered(Wheels(), window)) &&
              (exec.id > 1 && IsBlank(FlatEntry(old(table.view), exec.id)) ==>
                exec.ts + window <= old(lastTimer) + tickMod) ==>
                Covered(Wheels(), window) &&
                View() == ReconcilerSpec.OnFeed(FLAT_POLICY, window, old(View()), f, exec)
    {
      ghost var s := Wheels();
      Step(f, exec);
      if Covered(s, window) &&
         (exec.id > 1 && IsBlank(FlatEntry(s.entries, exec.id)) ==> exec.ts + window <= s.lastTimer + tickMod)
      {
        FlatWheelFollows(window, s, f, exec);
      }
    }

    /** The body of onFeed: lines 663-691. */
    method Step(f: Feed, exec: Execution)
      requires Valid() && (exec.ts + window > lastTimer ==> table.Takes(exec.id))
      modifies this, table, table.keys, table.entries, table.used, wheel
      ensures Valid() && table.Ever() <= old(table.Ever()) + Counted(exec.id)
      ensures Wheels() == FlatWheelFeed(window, old(Wheels()), f, exec)
    {
      var ts := exec.ts;
      if ts + window <= lastTimer {
        return;
      }
      ghost var m := table.view;
      var idx, ent := Enter(exec.id, ts);
      ent := ent.(last := ts, feeds := ent.feeds.Put(f, exec));
      var raised := 0;
      if !ent.alerted && ent.feeds.AnyMismatch() && ts < ent.expireAt {
        ent := ent.(alerted := true);
        raised := 1;
      }
      ghost var entered := table.view;
      table.Store(idx, ent);
      StoredView(m, entered, table.view, exec.id, ent);
      alerts := alerts + raised;
    }
  }
}
