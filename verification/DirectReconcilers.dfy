/**
  The reconcilers that index a vector by id (extras/citadel_interview/main.cpp:709-883), with a timer wheel
  and with a lazy heap. They drop ids above `maxId` and know a fresh window by its `active` flag.
*/
module DirectReconcilers {
  import opened Sealing
  import opened ReconcilerSpec
  import opened TimedEntries
  import opened ExpiryHeap
  import opened Expiry

  datatype IndexEntry = IndexEntry(active: bool, alerted: bool, first: nat, expireAt: nat, feeds: Trio)

  const BLANK_INDEX := IndexEntry(false, false, 0, 0, NO_FEEDS)

  ghost predicate Shows(e: IndexEntry, t: Timed) {
    e == IndexEntry(true, t.alerted, t.first, t.expireAt, t.feeds)
  }

  /** The active entries are the kept windows; the others are blank. */
  ghost predicate Indexed(entries: seq<IndexEntry>, view: map<nat, Timed>) {
    forall z {:trigger Peek(z)} :: Peek(z) ==>
      && (forall id :: 0 <= id < |entries| ==>
           if id in view then Shows(entries[id], view[id]) else entries[id] == BLANK_INDEX)
      && (forall id :: id in view ==> id < |entries|)
  }

  lemma IndexedAt(entries: seq<IndexEntry>, view: map<nat, Timed>, id: nat)
    requires Indexed(entries, view) && id < |entries|
    ensures if id in view then Shows(entries[id], view[id]) else entries[id] == BLANK_INDEX
  {
    assert Peek(0);
  }

  lemma IndexedStart(n: nat)
    ensures Indexed(seq(n, _ => BLANK_INDEX), map[])
  {
  }

  lemma IndexedPut(entries: seq<IndexEntry>, view: map<nat, Timed>, id: nat, e: IndexEntry, t: Timed)
    requires Indexed(entries, view) && id < |entries| && Shows(e, t)
    ensures Indexed(entries[id := e], view[id := t])
  {
    assert Peek(0);
  }

  lemma IndexedDrop(entries: seq<IndexEntry>, view: map<nat, Timed>, id: nat)
    requires Indexed(entries, view) && id < |entries|
    ensures Indexed(entries[id := BLANK_INDEX], view - {id})
  {
    assert Peek(0);
  }

  lemma IndexedOut(entries: seq<IndexEntry>, view: map<nat, Timed>, id: nat)
    requires Indexed(entries, view) && id >= |entries|
    ensures id !in view
  {
    assert Peek(0);
  }

  /** The window of an id after an event: opened if absent, else extended. */
  function Noted(m: map<nat, Timed>, w: nat, f: Feed, e: Execution): Timed {
    if e.id in m then m[e.id].(last := e.ts, feeds := m[e.id].feeds.Put(f, e))
    else Timed(e.ts, e.ts, e.ts + w, NO_FEEDS.Put(f, e), false)
  }

  lemma DirectFeed(maxId: nat, m: map<nat, Timed>, w: nat, s: State, f: Feed, e: Execution)
    requires s.entries == PlainMap(m) && !Late(w, s, e) && e.id <= maxId
    requires e.id in m ==> m[e.id].expireAt == m[e.id].first + w
    ensures var ent := Noted(m, w, f, e);
      var last := if Raises(ent, e.ts) then ent.(alerted := true) else ent;
      OnFeed(DirectPolicy(maxId), w, s, f, e) ==
        State(PlainMap(m[e.id := last]), if Raises(ent, e.ts) then s.alerts + 1 else s.alerts, s.lastTimer)
  {
    var ent := Noted(m, w, f, e);
    assert ent.Plain() == Recorded(DirectPolicy(maxId), s, f, e);
    PlainUpdate(m, e.id, ent);
    PlainUpdate(m, e.id, ent.(alerted := true));
  }

  class DirectIndexHeap {
    const window: nat
    const maxId: nat
    const entries: array<IndexEntry>
    var expiry: multiset<Exp>
    var alerts: nat
    var lastTimer: nat

    ghost var view: map<nat, Timed>

    ghost predicate Valid()
      reads this, entries
    {
      && entries.Length == maxId + 1
      && Indexed(entries[..], view)
      && Scheduled(view, expiry, window)
    }

    ghost function View(): State
      reads this
    {
      State(PlainMap(view), alerts, lastTimer)
    }

    constructor (window: nat, maxId: nat)
      ensures this.window == window && this.maxId == maxId && Valid() && View() == START && fresh(entries)
    {
      this.window := window;
      this.maxId := maxId;
      entries := new IndexEntry[maxId + 1](_ => BLANK_INDEX);
      expiry, alerts, lastTimer, view := multiset{}, 0, 0, map[];
      new;
      IndexedStart(maxId + 1);
      assert entries[..] == seq(maxId + 1, _ => BLANK_INDEX);
    }

    method OnTimer(now: nat)
      requires Valid()
      modifies this, entries
      ensures Valid() && View() == ReconcilerSpec.OnTimer(window, old(View()), now)
    {
      lastTimer := now;
      ghost var was := view;
      while expiry != multiset{}
        invariant entries.Length == maxId + 1 && Indexed(entries[..], view)
        invariant Scheduled(view, expiry, window) && Draining(was, view, now)
        invariant alerts == old(alerts) && lastTimer == now
        decreases |expiry|
      {
        var top := Top(expiry);
        if top.expireAt > now {
          break;
        }
        PopKeeps(was, view, expiry, window, now, top);
        expiry := expiry - multiset{top};
        if top.id > maxId {
          IndexedOut(entries[..], view, top.id);
          continue;
        }
        IndexedAt(entries[..], view, top.id);
        var ent := entries[top.id];
        if ent.active && ent.expireAt == top.expireAt {
          IndexedDrop(entries[..], view, top.id);
          ghost var next := entries[..][top.id := BLANK_INDEX];
          entries[top.id] := BLANK_INDEX;
          assert entries[..] == next;
          view := view - {top.id};
        }
      }
      Drained(was, old(expiry), view, expiry, window, now, old(View()));
    }

    method OnFeed(f: Feed, exec: Execution)
      requires Valid()
      modifies this, entries
      ensures Valid() && View() == ReconcilerSpec.OnFeed(DirectPolicy(maxId), window, old(View()), f, exec)
    {
      var ts := exec.ts;
      if ts + window <= lastTimer {
        return;
      }
      if exec.id > maxId {
        return;
      }
      ScheduledDue(view, expiry, window, exec.id);
      DirectFeed(maxId, view, window, View(), f, exec);
      Record(f, exec);
    }

    /** Lines 852-875: an event in time with an id in range. */
    method Record(f: Feed, exec: Execution)
      requires Valid() && exec.id <= maxId
      modifies this, entries
      ensures Valid() && lastTimer == old(lastTimer)
      ensures var ent := Noted(old(view), window, f, exec);
        && view == old(view)[exec.id := if Raises(ent, exec.ts) then ent.(alerted := true) else ent]
        && alerts == old(alerts) + if Raises(ent, exec.ts) then 1 else 0
    {
      var ts := exec.ts;
      ghost var before := expiry;
      var ent := Activate(exec.id, ts);
      ent := ent.(feeds := ent.feeds.Put(f, exec));
      ghost var t := Noted(view, window, f, exec);
      assert Shows(ent, t);
      var raised := 0;
      if !ent.alerted && ent.feeds.AnyMismatch() && ts < ent.expireAt {
        ent := ent.(alerted := true);
        t := t.(alerted := true);
        raised := 1;
      }
      ScheduleDirect(view, before, window, exec.id, t, expiry);
      Store(exec.id, ent, t);
      alerts := alerts + raised;
    }

    /** Lines 852-858: the entry of the id, pushed on the heap if it opens a window. */
    method Activate(id: nat, ts: nat) returns (ent: IndexEntry)
      requires Valid() && id <= maxId
      modifies this`expiry
      ensures if id in view
        then Shows(ent, view[id]) && view[id].expireAt == view[id].first + window && expiry == old(expiry)
        else ent == IndexEntry(true, false, ts, ts + window, NO_FEEDS) &&
             expiry == old(expiry) + multiset{Exp(ts + window, id)}
    {
      IndexedAt(entries[..], view, id);
      ScheduledDue(view, expiry, window, id);
      ent := entries[id];
      if !ent.active {
        ent := ent.(active := true, first := ts, expireAt := ts + window);
        expiry := expiry + multiset{Exp(ent.expireAt, id)};
      }
    }

    method Store(id: nat, ent: IndexEntry, ghost t: Timed)
      requires entries.Length == maxId + 1 && Indexed(entries[..], view) && id <= maxId && Shows(ent, t)
      modifies this`view, entries
      ensures Indexed(entries[..], view) && view == old(view)[id := t]
    {
      IndexedPut(entries[..], view, id, ent, t);
      ghost var next := entries[..][id := ent];
      entries[id] := ent;
      assert entries[..] == next;
      view := view[id := t];
    }
  }

  // ----- With a timer wheel -----

  /** onFeed of DirectIndexWheel on values, wherever the opened window ends. */
  function DirectWheelFeed(maxId: nat, w: nat, s: WheelState, f: Feed, e: Execution): WheelState
    requires |s.wheel| > 0
  {
    if e.ts + w <= s.lastTimer || e.id > maxId then s
    else
      var ent := Noted(s.entries, w, f, e);
      var wheel := if e.id in s.entries then s.wheel else Scheduling(s.wheel, e.id, ent.expireAt);
      if Raises(ent, e.ts) then WheelState(s.entries[e.id := ent.(alerted := true)], wheel, s.alerts + 1, s.lastTimer)
      else WheelState(s.entries[e.id := ent], wheel, s.alerts, s.lastTimer)
  }

  /** It follows the reference, and every entry stays covered, if an opened window ends within one turn. */
  lemma DirectWheelFollows(maxId: nat, w: nat, s: WheelState, f: Feed, e: Execution)
    requires |s.wheel| > 0 && Covered(s, w)
    requires e.id <= maxId && e.id !in s.entries ==> e.ts + w <= s.lastTimer + |s.wheel|
    ensures var t := DirectWheelFeed(maxId, w, s, f, e);
      Covered(t, w) && t.Plain() == OnFeed(DirectPolicy(maxId), w, s.Plain(), f, e)
  {
    if s.lastTimer < e.ts + w && e.id <= maxId {
      var lo, hi := s.lastTimer, s.lastTimer + |s.wheel|;
      if e.id in s.entries { WheelDue(s.entries, s.wheel, w, lo, hi, e.id); }
      DirectFeed(maxId, s.entries, w, s.Plain(), f, e);
      var ent := Noted(s.entries, w, f, e);
      var last := if Raises(ent, e.ts) then ent.(alerted := true) else ent;
      WheelDirect(s.entries, s.wheel, w, lo, hi, e.id, last, DirectWheelFeed(maxId, w, s, f, e).wheel);
    }
  }

  class DirectIndexWheel {
    const window: nat
    const maxId: nat
    const tickMod: nat
    const entries: array<IndexEntry>
    const wheel: array<seq<nat>>
    var lastTimer: nat
    var alerts: nat

    ghost var view: map<nat, Timed>

    ghost predicate Valid()
      reads this, entries
    {
      entries.Length == maxId + 1 && wheel.Length == tickMod > 0 && Indexed(entries[..], view)
    }

    /** What the class keeps, on values. */
    ghost function Wheels(): WheelState
      reads this, wheel
    {
      WheelState(view, wheel[..], alerts, lastTimer)
    }

    ghost function View(): State
      reads this
    {
      State(PlainMap(view), alerts, lastTimer)
    }

    constructor (window: nat, maxId: nat, tickMod: nat)
      requires tickMod > 0
      ensures this.window == window && this.maxId == maxId && this.tickMod == tickMod
      ensures Valid() && Wheels() == EmptyWheel(tickMod) && Covered(Wheels(), window) && View() == START
      ensures fresh(entries) && fresh(wheel)
    {
      this.window := window;
      this.maxId := maxId;
      this.tickMod := tickMod;
      entries := new IndexEntry[maxId + 1](_ => BLANK_INDEX);
      wheel := new seq<nat>[tickMod](_ => []);
      lastTimer, alerts, view := 0, 0, map[];
      new;
      IndexedStart(maxId + 1);
      WheelStart(tickMod, window);
      assert entries[..] == seq(maxId + 1, _ => BLANK_INDEX);
      assert wheel[..] == EmptyWheel(tickMod).wheel;
    }

    /** Sweeps and clears the buckets lastTimer + 1 .. now. That is a full scan while every entry is covered and, as
        line 721 assumes, time does not run back. */
    method OnTimer(now: nat)
      requires Valid()
      modifies this, entries, wheel
      ensures Valid() && Wheels() == WheelTimer(old(Wheels()), now)
      ensures old(Covered(Wheels(), window)) && old(lastTimer) <= now ==>
                Covered(Wheels(), window) && View() == ReconcilerSpec.OnTimer(window, old(View()), now)
    {
      ghost var s := Wheels();
      var t := lastTimer + 1;
      while t <= now
        invariant Valid() && t > s.lastTimer && (t <= now + 1 || t == s.lastTimer + 1)
        invariant (view, wheel[..]) == SweepBuckets(s.entries, s.wheel, s.lastTimer, t - 1)
        invariant alerts == s.alerts && lastTimer == s.lastTimer
      {
        SweepBucket(t);
        t := t + 1;
      }
      lastTimer := now;
      if Covered(s, window) && s.lastTimer <= now {
        TimerSimulates(s, window, now);
      }
    }

    /** The body of the timer loop: lines 724-731. */
    method SweepBucket(t: nat)
      requires Valid()
      modifies this`view, entries, wheel
      ensures Valid()
      ensures view == SweepIds(old(view), old(wheel[..])[t % tickMod], t)
      ensures wheel[..] == old(wheel[..])[t % tickMod := []]
    {
      var bucket := wheel[t % tickMod];
      ghost var w := wheel[..];
      assert bucket[..0] == [];
      for i := 0 to |bucket|
        invariant Valid() && wheel[..] == w
        invariant view == SweepIds(old(view), bucket[..i], t)
      {
        assert bucket[..i + 1][..i] == bucket[..i];
        var id := bucket[i];
        if id <= maxId {
          IndexedAt(entries[..], view, id);
        } else {
          IndexedOut(entries[..], view, id);
        }
        if id <= maxId && entries[id].active && entries[id].expireAt <= t {
          IndexedDrop(entries[..], view, id);
          ghost var next := entries[..][id := BLANK_INDEX];
          entries[id] := BLANK_INDEX;
          assert entries[..] == next;
          view := view - {id};
        }
      }
      assert bucket[..|bucket|] == bucket;
      wheel[t % tickMod] := [];
      assert wheel[..] == w[t % tickMod := []];
    }

    method ScheduleExpiry(id: nat, expireAt: nat)
      requires wheel.Length == tickMod > 0
      modifies wheel
      ensures wheel[..] == Scheduling(old(wheel[..]), id, expireAt)
    {
      ghost var next := Scheduling(wheel[..], id, expireAt);
      wheel[expireAt % tickMod] := wheel[expireAt % tickMod] + [id];
      assert wheel[..] == next;
    }

    /** Follows the reference while every entry is covered and an opened window ends within one turn of the wheel. */
    method OnFeed(f: Feed, exec: Execution)
      requires Valid()
      modifies this, entries, wheel
      ensures Valid() && Wheels() == DirectWheelFeed(maxId, window, old(Wheels()), f, exec)
      ensures old(Covered(Wheels(), window)) &&
              (exec.id <= maxId && exec.id !in old(view) ==> exec.ts + window <= old(lastTimer) + tickMod) ==>
                Covered(Wheels(), window) &&
                View() == ReconcilerSpec.OnFeed(DirectPolicy(maxId), window, old(View()), f, exec)
    {
      ghost var s := Wheels();
      Step(f, exec);
      if Covered(s, window) &&
         (exec.id <= maxId && exec.id !in s.entries ==> exec.ts + window <= s.lastTimer + tickMod)
      {
        DirectWheelFollows(maxId, window, s, f, exec);
      }
    }

    /** The body of onFeed: lines 755-783. */
    method Step(f: Feed, exec: Execution)
      requires Valid()
      modifies this, entries, wheel
      ensures Valid() && Wheels() == DirectWheelFeed(maxId, window, old(Wheels()), f, exec)
    {
      var ts := exec.ts;
      if ts + window <= lastTimer {
        return;
      }
      if exec.id > maxId {
        return;
      }
      ghost var t := Noted(view, window, f, exec);
      var ent := Activate(exec.id, ts);
      ent := ent.(feeds := ent.feeds.Put(f, exec));
      assert Shows(ent, t);
      var raised := 0;
      if !ent.alerted && ent.feeds.AnyMismatch() && ts < ent.expireAt {
        ent := ent.(alerted := true);
        t := t.(alerted := true);
        raised := 1;
      }
      Store(exec.id, ent, t);
      alerts := alerts + raised;
    }

    /** Lines 761-767: the entry of the id, scheduled for expiry if it opens a window. */
    method Activate(id: nat, ts: nat) returns (ent: IndexEntry)
      requires Valid() && id <= maxId
      modifies wheel
      ensures if id in view
        then Shows(ent, view[id]) && wheel[..] == old(wheel[..])
        else ent == IndexEntry(true, false, ts, ts + window, NO_FEEDS) &&
             wheel[..] == Scheduling(old(wheel[..]), id, ts + window)
    {
      IndexedAt(entries[..], view, id);
      ent := entries[id];
      if !ent.active {
        ent := ent.(active := true, first := ts, expireAt := ts + window);
        ScheduleExpiry(id, ent.expireAt);
      }
    }

    method Store(id: nat, ent: IndexEntry, ghost t: Timed)
      requires entries.Length == maxId + 1 && Indexed(entries[..], view) && id <= maxId && Shows(ent, t)
      modifies this`view, entries
      ensures Indexed(entries[..], view) && view == old(view)[id := t]
    {
      IndexedPut(entries[..], view, id, ent, t);
      ghost var next := entries[..][id := ent];
      entries[id] := ent;
      assert entries[..] == next;
      view := view[id := t];
    }
  }

  /** The wheel after an event: only an opened window is scheduled. */
  lemma WheelDirect(m: map<nat, Timed>, wheel: seq<seq<nat>>, w: nat, lo: int, hi: int, id: nat, t: Timed,
                    wheel': seq<seq<nat>>)
    requires Pending(m, wheel, w, lo, hi) && |wheel| > 0
    requires if id in m
      then wheel' == wheel && t.first == m[id].first && t.expireAt == m[id].expireAt
      else lo < t.expireAt <= hi && t.expireAt == t.first + w && wheel' == Scheduling(wheel, id, t.expireAt)
    ensures |wheel'| == |wheel| && Pending(m[id := t], wheel', w, lo, hi)
  {
    if id in m {
      WheelKeep(m, wheel, w, lo, hi, id, t);
    } else {
      WheelOpen(m, wheel, w, lo, hi, id, t);
    }
  }

  lemma ScheduledDue(m: map<nat, Timed>, expiry: multiset<Exp>, w: nat, id: nat)
    requires Scheduled(m, expiry, w)
    ensures id in m ==> m[id].expireAt == m[id].first + w
  {
    assert Peek(0);
  }

  /** Only the event that opens a window pushes its expiry; later events keep it in the heap. */
  lemma ScheduleDirect(m: map<nat, Timed>, expiry: multiset<Exp>, w: nat, id: nat, t: Timed, expiry': multiset<Exp>)
    requires Scheduled(m, expiry, w) && t.expireAt == t.first + w
    requires if id in m then t.first == m[id].first && expiry' == expiry
             else expiry' == expiry + multiset{Exp(t.expireAt, id)}
    ensures Scheduled(m[id := t], expiry', w)
  {
    assert Peek(0);
  }
}
