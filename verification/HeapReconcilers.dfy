/** The unordered map with a lazy heap (main.cpp:216-390; the "reserved" variant differs only in
    how much memory it asks for up front). */
module HeapReconcilers {
  import opened ReconcilerSpec
  import opened TimedEntries
  import opened ExpiryHeap
  import opened Expiry

  class UnorderedHeap {
    const window: nat
    var byId: map<nat, Timed>
    var expiry: multiset<Exp>
    var alerts: nat
    var lastTimer: nat

    ghost predicate Valid()
      reads this
    {
      Scheduled(byId, expiry, window)
    }

    ghost function View(): State
      reads this
    {
      State(PlainMap(byId), alerts, lastTimer)
    }

    constructor (window: nat)
      ensures this.window == window && Valid() && View() == START
    {
      this.window := window;
      byId, expiry, alerts, lastTimer := map[], multiset{}, 0, 0;
    }

    /** Popping what is due removes exactly the entries that a full scan removes. */
    method OnTimer(now: nat)
      requires Valid()
      modifies this
      ensures Valid() && View() == ReconcilerSpec.OnTimer(window, old(View()), now)
    {
      lastTimer := now;
      ghost var was := byId;
      while expiry != multiset{}
        invariant Scheduled(byId, expiry, window) && Draining(was, byId, now)
        invariant alerts == old(alerts) && lastTimer == now
        decreases |expiry|
      {
        var top := Top(expiry);
        if top.expireAt > now {
          break;
        }
        PopKeeps(was, byId, expiry, window, now, top);
        expiry := expiry - multiset{top};
        if top.id in byId && byId[top.id].expireAt == top.expireAt {
          byId := byId - {top.id};
        }
      }
      Drained(was, old(expiry), byId, expiry, window, now, old(View()));
    }

    method OnFeed(f: Feed, exec: Execution)
      requires Valid()
      modifies this
      ensures Valid() && View() == ReconcilerSpec.OnFeed(SCAN_POLICY, window, old(View()), f, exec)
    {
      var ts := exec.ts;
      if ts + window <= lastTimer {
        return;
      }
      var ent := if exec.id in byId then byId[exec.id] else BLANK_TIMED;
      if ent.first == 0 && ent.last == 0 {
        ent := ent.(first := ts);
      }
      ent := ent.(last := ts, expireAt := ent.first + window);
      ghost var before := expiry;
      expiry := expiry + multiset{Exp(ent.expireAt, exec.id)};
      ent := ent.(feeds := ent.feeds.Put(f, exec));
      TimedFeed(SCAN_POLICY, byId, window, View(), f, exec, ent);
      if !ent.alerted && ent.feeds.AnyMismatch() && ts < ent.expireAt {
        ent := ent.(alerted := true);
        alerts := alerts + 1;
      }
      ScheduleOne(byId, before, window, exec.id, ent);
      byId := byId[exec.id := ent];
    }
  }
}
