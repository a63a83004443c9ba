/**
  The two reconcilers that expire by a full scan (extras/citadel_interview/main.cpp:45-211):
  a vector sorted by id, and an unordered map. A C++ reference into a container is modelled by a
  local copy that is written back at the end of the method.
*/
module ScanReconcilers {
  import opened ReconcilerSpec
  import opened Sealing

  class UnorderedScan {
    const window: nat
    var byId: map<nat, Entry>
    var alerts: nat
    var lastTimer: nat

    ghost function View(): State
      reads this
    {
      State(byId, alerts, lastTimer)
    }

    constructor (window: nat)
      ensures this.window == window && View() == START
    {
      this.window := window;
      byId, alerts, lastTimer := map[], 0, 0;
    }

    method OnTimer(now: nat)
      modifies this
      ensures View() == ReconcilerSpec.OnTimer(window, old(View()), now)
    {
      lastTimer := now;
      var todo := byId.Keys;
      while todo != {}
        invariant todo <= old(byId.Keys)
        invariant forall id :: id in byId <==>
          id in old(byId) && (id in todo || !IsExpired(window, old(byId)[id], now))
        invariant forall id :: id in byId ==> byId[id] == old(byId)[id]
        invariant alerts == old(alerts) && lastTimer == now
        decreases todo
      {
        var id :| id in todo;
        todo := todo - {id};
        if IsExpired(window, byId[id], now) {
          byId := byId - {id};
        }
      }
    }

    method OnFeed(f: Feed, exec: Execution)
      modifies this
      ensures View() == ReconcilerSpec.OnFeed(SCAN_POLICY, window, old(View()), f, exec)
    {
      var ts := exec.ts;
      if ts + window <= lastTimer {
        return;
      }
      var ent := if exec.id in byId then byId[exec.id] else BLANK;
      if ent.first == 0 && ent.last == 0 {
        ent := ent.(first := ts);
      }
      ent := ent.(last := ts, feeds := ent.feeds.Put(f, exec));
      if !ent.alerted && ent.feeds.AnyMismatch() && !IsExpired(window, ent, ts) {
        ent := ent.(alerted := true);
        alerts := alerts + 1;
      }
      byId := byId[exec.id := ent];
    }
  }

  datatype Item = Item(id: nat, entry: Entry)

  ghost predicate Sorted(items: seq<Item>) {
    forall i, j :: 0 <= i < j < |items| ==> items[i].id < items[j].id
  }

  ghost predicate Holds(items: seq<Item>, id: nat) {
    exists i :: 0 <= i < |items| && items[i].id == id
  }

  /** A vector sorted by id stands for a map. */
  ghost predicate Represents(items: seq<Item>, m: map<nat, Entry>) {
    forall z {:trigger Peek(z)} :: Peek(z) ==>
    && Sorted(items)
    && (forall i :: 0 <= i < |items| ==> items[i].id in m && m[items[i].id] == items[i].entry)
    && (forall id :: id in m ==> Holds(items, id))
  }

  lemma GrownSorted(items: seq<Item>, at: nat, x: Item)
    requires Sorted(items) && at <= |items|
    requires forall i :: 0 <= i < at ==> items[i].id < x.id
    requires forall i :: at <= i < |items| ==> items[i].id > x.id
    ensures Sorted(items[..at] + [x] + items[at..])
  {
    var grown := items[..at] + [x] + items[at..];
    forall i, j | 0 <= i < j < |grown| ensures grown[i].id < grown[j].id {
      GrownAt(items, at, x, i);
      GrownAt(items, at, x, j);
    }
  }

  lemma GrownAt(items: seq<Item>, at: nat, x: Item, i: nat)
    requires at <= |items| && i <= |items|
    ensures (items[..at] + [x] + items[at..])[i] == if i < at then items[i] else if i == at then x else items[i - 1]
  {
  }

  lemma NotHeld(items: seq<Item>, m: map<nat, Entry>, at: nat, id: nat)
    requires Represents(items, m) && at <= |items|
    requires forall i :: 0 <= i < at ==> items[i].id < id
    requires forall i :: at <= i < |items| ==> items[i].id > id
    ensures id !in m
  {
    assert Peek(0);
    assert !Holds(items, id);
  }

  lemma InsertItem(items: seq<Item>, m: map<nat, Entry>, at: nat, id: nat)
    requires Represents(items, m) && at <= |items|
    requires forall i :: 0 <= i < at ==> items[i].id < id
    requires forall i :: at <= i < |items| ==> items[i].id > id
    ensures var grown := items[..at] + [Item(id, BLANK)] + items[at..];
      id !in m && Represents(grown, m[id := BLANK])
  {
    assert Peek(0);
    var x := Item(id, BLANK);
    var grown := items[..at] + [x] + items[at..];
    NotHeld(items, m, at, id);
    GrownSorted(items, at, x);
    forall i | 0 <= i < |grown|
      ensures grown[i].id in m[id := BLANK] && m[id := BLANK][grown[i].id] == grown[i].entry
    {
      GrownAt(items, at, x, i);
    }
    forall k | k in m[id := BLANK] ensures Holds(grown, k) {
      GrownHolds(items, at, x, k);
    }
  }

  lemma GrownHolds(items: seq<Item>, at: nat, x: Item, id: nat)
    requires at <= |items| && (id == x.id || Holds(items, id))
    ensures Holds(items[..at] + [x] + items[at..], id)
  {
    var grown := items[..at] + [x] + items[at..];
    if id == x.id {
      assert grown[at].id == id;
    } else {
      var i :| 0 <= i < |items| && items[i].id == id;
      GrownAt(items, at, x, if i < at then i else i + 1);
      assert grown[if i < at then i else i + 1].id == id;
    }
  }

  lemma UpdateItem(items: seq<Item>, m: map<nat, Entry>, at: nat, ent: Entry)
    requires Represents(items, m) && at < |items|
    ensures var changed := items[at := Item(items[at].id, ent)];
      Represents(changed, m[items[at].id := ent])
  {
    assert Peek(0);
    var changed := items[at := Item(items[at].id, ent)];
    assert changed[at].id == items[at].id;
    forall k | k in m ensures Holds(changed, k) {
      assert Holds(items, k);
      var i :| 0 <= i < |items| && items[i].id == k;
      assert changed[i].id == k;
    }
  }

  lemma HeldAt(items: seq<Item>, m: map<nat, Entry>, at: nat, id: nat)
    requires Represents(items, m) && at <= |items|
    requires forall i :: 0 <= i < at ==> items[i].id < id
    requires forall i :: at <= i < |items| ==> items[i].id >= id
    ensures id in m <==> at < |items| && items[at].id == id
    ensures id in m ==> items[at].entry == m[id]
    ensures at < |items| && items[at].id != id ==> forall i :: at <= i < |items| ==> items[i].id > id
  {
    assert Peek(0);
    if id in m {
      assert Holds(items, id);
      var i :| 0 <= i < |items| && items[i].id == id;
    }
  }

  ghost predicate Filtered(items: seq<Item>, kept: seq<Item>, n: nat, w: nat, now: nat)
    requires n <= |items|
  {
    && (forall j :: 0 <= j < |kept| ==> kept[j] in items[..n] && !IsExpired(w, kept[j].entry, now))
    && (forall j :: 0 <= j < n && !IsExpired(w, items[j].entry, now) ==> items[j] in kept)
  }

  lemma FilterItems(items: seq<Item>, m: map<nat, Entry>, kept: seq<Item>, w: nat, s: State, now: nat)
    requires Represents(items, m) && s.entries == m && Filtered(items, kept, |items|, w, now)
    requires Sorted(kept)
    ensures Represents(kept, OnTimer(w, s, now).entries)
  {
    assert Peek(0);
    var left := OnTimer(w, s, now).entries;
    forall j | 0 <= j < |kept| ensures kept[j].id in left && left[kept[j].id] == kept[j].entry {
      var k :| 0 <= k < |items| && items[k] == kept[j];
    }
    forall id | id in left ensures Holds(kept, id) {
      assert Holds(items, id);
      var k :| 0 <= k < |items| && items[k].id == id;
      assert items[k] in kept;
      var j :| 0 <= j < |kept| && kept[j] == items[k];
    }
  }

  class VectorScan {
    const window: nat
    var byId: seq<Item>
    var alerts: nat
    var lastTimer: nat

    ghost var model: map<nat, Entry>

    ghost predicate Valid()
      reads this
    {
      Represents(byId, model)
    }

    ghost function View(): State
      reads this
    {
      State(model, alerts, lastTimer)
    }

    constructor (window: nat)
      ensures this.window == window && Valid() && View() == START
    {
      this.window := window;
      byId, alerts, lastTimer, model := [], 0, 0, map[];
    }

    /** The erase(remove_if(..)) pass. */
    method OnTimer(now: nat)
      requires Valid()
      modifies this
      ensures Valid() && View() == ReconcilerSpec.OnTimer(window, old(View()), now)
    {
      assert Sorted(byId) by { assert Peek(0); }
      lastTimer := now;
      var kept: seq<Item> := [];
      var i := 0;
      while i < |byId|
        invariant 0 <= i <= |byId|
        invariant Filtered(byId, kept, i, window, now)
        invariant Sorted(kept)
      {
        if !IsExpired(window, byId[i].entry, now) {
          kept := kept + [byId[i]];
        }
        i := i + 1;
      }
      FilterItems(byId, model, kept, window, View(), now);
      model := ReconcilerSpec.OnTimer(window, View(), now).entries;
      byId := kept;
    }

    /** std::lower_bound over the sorted vector: the first position whose id is not below the key. */
    method LowerBound(id: nat) returns (at: nat)
      requires Valid()
      ensures at <= |byId|
      ensures forall i :: 0 <= i < at ==> byId[i].id < id
      ensures forall i :: at <= i < |byId| ==> byId[i].id >= id
    {
      assert Sorted(byId) by { assert Peek(0); }
      var lo, hi := 0, |byId|;
      while lo < hi
        invariant 0 <= lo <= hi <= |byId|
        invariant forall i :: 0 <= i < lo ==> byId[i].id < id
        invariant forall i :: hi <= i < |byId| ==> byId[i].id >= id
      {
        var mid := (lo + hi) / 2;
        if byId[mid].id < id {
          lo := mid + 1;
        } else {
          hi := mid;
        }
      }
      at := lo;
    }

    method GetOrCreate(id: nat) returns (at: nat)
      requires Valid()
      modifies this`byId, this`model
      ensures Valid() && at < |byId| && byId[at].id == id
      ensures model == if id in old(model) then old(model) else old(model)[id := BLANK]
      ensures id in model && byId[at].entry == model[id]
    {
      at := LowerBound(id);
      HeldAt(byId, model, at, id);
      if at == |byId| || byId[at].id != id {
        InsertItem(byId, model, at, id);
        byId := byId[..at] + [Item(id, BLANK)] + byId[at..];
        model := model[id := BLANK];
      }
    }

    method OnFeed(f: Feed, exec: Execution)
      requires Valid()
      modifies this
      ensures Valid() && View() == ReconcilerSpec.OnFeed(SCAN_POLICY, window, old(View()), f, exec)
    {
      var ts := exec.ts;
      if ts + window <= lastTimer {
        return;
      }
      var at := GetOrCreate(exec.id);
      var ent := byId[at].entry;
      if ent.first == 0 && ent.last == 0 {
        ent := ent.(first := ts, last := ts);
      } else {
        ent := ent.(last := ts);
      }
      ent := ent.(feeds := ent.feeds.Put(f, exec));
      if !ent.alerted && ent.feeds.AnyMismatch() && !IsExpired(window, ent, ts) {
        ent := ent.(alerted := true);
        alerts := alerts + 1;
      }
      UpdateItem(byId, model, at, ent);
      byId := byId[at := Item(exec.id, ent)];
      model := model[exec.id := ent];
    }
  }
}
