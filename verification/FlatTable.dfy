/** The entry that the timed reconcilers keep: the reference's entry and the time it expires. */
module TimedEntries {
  import opened ReconcilerSpec

  datatype Timed = Timed(first: nat, last: nat, expireAt: nat, feeds: Trio, alerted: bool) {
    function Plain(): Entry {
      Entry(first, last, feeds, alerted)
    }
  }

  const BLANK_TIMED := Timed(0, 0, 0, NO_FEEDS, false)

  /** The reference's entries behind timed ones. */
  ghost function PlainMap(m: map<nat, Timed>): map<nat, Entry> {
    map id | id in m :: m[id].Plain()
  }

  lemma PlainUpdate(m: map<nat, Timed>, id: nat, e: Timed)
    ensures PlainMap(m[id := e]) == PlainMap(m)[id := e.Plain()]
  {
  }

  /** The entry in which an event of the id is recorded. */
  function EntryFor(m: map<nat, Timed>, id: nat): Timed {
    if id in m then m[id] else BLANK_TIMED
  }

  /** Recording an event in a timed entry, as the bodies of onFeed do before the alert test. */
  function Touched(was: Timed, w: nat, f: Feed, e: Execution): Timed {
    var first := if was.first == 0 && was.last == 0 then e.ts else was.first;
    Timed(first, e.ts, first + w, was.feeds.Put(f, e), was.alerted)
  }

  predicate Raises(ent: Timed, ts: nat) {
    !ent.alerted && ent.feeds.AnyMismatch() && ts < ent.expireAt
  }

  lemma TimedFeed(p: Policy, m: map<nat, Timed>, w: nat, s: State, f: Feed, e: Execution, ent: Timed)
    requires s.entries == PlainMap(m) && p.Admits(e.id) && !p.byPresence && !Late(w, s, e)
    requires ent == Touched(EntryFor(m, e.id), w, f, e)
    ensures OnFeed(p, w, s, f, e) ==
      if Raises(ent, e.ts)
      then State(PlainMap(m[e.id := ent.(alerted := true)]), s.alerts + 1, s.lastTimer)
      else State(PlainMap(m[e.id := ent]), s.alerts, s.lastTimer)
  {
    assert ent.Plain() == Recorded(p, s, f, e);
    PlainUpdate(m, e.id, ent);
    PlainUpdate(m, e.id, ent.(alerted := true));
  }

  /** What is left after a timer that removed every expired entry and no other. */
  lemma PlainExpired(was: map<nat, Timed>, left: map<nat, Timed>, w: nat, now: nat, s: State)
    requires s.entries == PlainMap(was)
    requires forall id :: id in left <==> id in was && now < was[id].first + w
    requires forall id :: id in left ==> left[id] == was[id]
    ensures OnTimer(w, s, now) == State(PlainMap(left), s.alerts, now)
  {
  }
}

/**
  The open-addressing table with tombstones inside ReconcilerFlatHashHeap and
  ReconcilerFlatHashWheel (extras/citadel_interview/main.cpp:396-550 and 556-703, twice the same
  code). `hash` stands for the mixing function and may be any function; the capacity is a power of
  two, so masking an index is taking its remainder.
*/
module FlatTables {
  import opened Options
  import opened Circle
  import opened Sealing
  import opened Displacement
  import opened TimedEntries

  ghost predicate PowerOfTwo(n: nat)
    decreases n
  {
    n == 1 || (n > 1 && n % 2 == 0 && PowerOfTwo(n / 2))
  }

  /** A home is a hash masked by a capacity that is a power of two. */
  ghost predicate Hashed(home: nat -> nat, hash: nat -> nat, cap: nat) {
    forall z {:trigger Peek(z)} :: Peek(z) ==>
      cap > 0 && PowerOfTwo(cap) && forall k :: home(k) == hash(k) % cap
  }

  /** How the arrays hold the live ids: each in its own slot, marked used, with its entry. */
  ghost predicate Linked(keys: seq<nat>, entries: seq<Timed>, used: seq<bool>, live: Placement, view: map<nat, Timed>) {
    forall z {:trigger Peek(z)} :: Peek(z) ==>
      && |keys| == |entries| == |used|
      && LiveMatches(keys, live)
      && (forall id :: id in live ==> used[live[id]])
      && live.Keys == view.Keys
      && (forall id :: id in live ==> view[id] == entries[live[id]])
  }

  lemma LinkedAt(keys: seq<nat>, entries: seq<Timed>, used: seq<bool>, live: Placement, view: map<nat, Timed>, s: nat)
    requires Linked(keys, entries, used, live, view) && s < |keys| && |keys| == |entries| == |used|
    ensures live.Keys == view.Keys
    ensures keys[s] > TOMB <==> keys[s] in live
    ensures keys[s] > TOMB ==> live[keys[s]] == s && view[keys[s]] == entries[s] && used[s]
  {
    assert Peek(0);
  }

  lemma LinkedInsert(keys: seq<nat>, entries: seq<Timed>, used: seq<bool>, live: Placement,
                     view: map<nat, Timed>, id: nat, s: nat)
    requires Linked(keys, entries, used, live, view) && |keys| == |entries| == |used|
    requires id !in live && s < |keys| && keys[s] <= TOMB
    ensures Linked(keys[s := id], entries[s := BLANK_TIMED], used[s := true],
                   if id > TOMB then live[id := s] else live, if id > TOMB then view[id := BLANK_TIMED] else view)
  {
    assert Peek(0);
  }

  lemma LinkedStore(keys: seq<nat>, entries: seq<Timed>, used: seq<bool>, live: Placement,
                    view: map<nat, Timed>, s: nat, e: Timed)
    requires Linked(keys, entries, used, live, view) && |keys| == |entries| == |used| && s < |keys|
    ensures Linked(keys, entries[s := e], used, live, if keys[s] > TOMB then view[keys[s] := e] else view)
  {
    assert Peek(0);
  }

  lemma LinkedErase(keys: seq<nat>, entries: seq<Timed>, used: seq<bool>, live: Placement,
                    view: map<nat, Timed>, s: nat)
    requires Linked(keys, entries, used, live, view) && |keys| == |entries| == |used|
    requires s < |keys| && keys[s] > TOMB
    ensures Linked(keys[s := TOMB], entries[s := BLANK_TIMED], used[s := false], live - {keys[s]}, view - {keys[s]})
  {
    assert Peek(0);
  }

  /** The probe of findOrInsert has passed j slots, the first n of them live, and remembers the first tombstone. */
  ghost predicate Probing(home: nat -> nat, keys: seq<nat>, id: nat, j: nat, n: nat, firstTomb: Option<nat>) {
    forall z {:trigger Peek(z)} :: Peek(z) ==>
      && home(id) < |keys| && j < |keys| && n <= j
      && Unseen(home, keys, id, j) && LiveRun(home, keys, id, n)
      && match firstTomb
         case None => n == j
         case Some(s) => n < j && s == At(home(id), n, |keys|) && keys[s] == TOMB
  }

  lemma ProbingStarts(home: nat -> nat, keys: seq<nat>, id: nat)
    requires home(id) < |keys|
    ensures Probing(home, keys, id, 0, 0, None)
  {
  }

  lemma ProbingTells(home: nat -> nat, keys: seq<nat>, id: nat, j: nat, n: nat, firstTomb: Option<nat>)
    requires Probing(home, keys, id, j, n, firstTomb)
    ensures home(id) < |keys| && n <= j < |keys| && Unseen(home, keys, id, j)
    ensures firstTomb.Some? ==> firstTomb.value == At(home(id), n, |keys|)
    ensures keys[At(home(id), j, |keys|)] == EMPTY ==> TakesSlot(home, keys, id, n) && (firstTomb.None? ==> n == j)
  {
    assert Peek(0);
  }

  lemma ProbingPastTomb(home: nat -> nat, keys: seq<nat>, id: nat, j: nat, n: nat, firstTomb: Option<nat>)
    requires Probing(home, keys, id, j, n, firstTomb) && j + 1 < |keys| && home(id) < |keys|
    requires keys[At(home(id), j, |keys|)] == TOMB
    ensures Probing(home, keys, id, j + 1, n, if firstTomb.None? then Some(At(home(id), j, |keys|)) else firstTomb)
  {
    assert Peek(0);
  }

  lemma ProbingPastKey(home: nat -> nat, keys: seq<nat>, id: nat, j: nat, n: nat, firstTomb: Option<nat>)
    requires Probing(home, keys, id, j, n, firstTomb) && j + 1 < |keys| && home(id) < |keys|
    requires keys[At(home(id), j, |keys|)] > TOMB && keys[At(home(id), j, |keys|)] != id
    ensures Probing(home, keys, id, j + 1, if firstTomb.None? then n + 1 else n, firstTomb)
  {
    assert Peek(0);
  }

  /** A probe meets the id before any empty slot, at distance j. */
  ghost predicate Meets(home: nat -> nat, keys: seq<nat>, id: nat, j: nat) {
    id > TOMB && home(id) < |keys| && j < |keys| && Unseen(home, keys, id, j) && keys[At(home(id), j, |keys|)] == id
  }

  /** What findOrInsert does to the slots of any table, sound or not, if its probe ends: it returns where the id is, or
      stores it in the first slot of its path that holds no live id. */
  ghost predicate Inserts(home: nat -> nat, keys: seq<nat>, id: nat, keys': seq<nat>, idx: nat) {
    forall z {:trigger Peek(z)} :: Peek(z) ==>
      || (keys' == keys && exists j: nat :: Meets(home, keys, id, j) && idx == At(home(id), j, |keys|))
      || (Missed(home, keys, id) &&
          exists n: nat :: TakesSlot(home, keys, id, n) && idx == At(home(id), n, |keys|) && keys' == keys[idx := id])
  }

  lemma EmptyTable(home: nat -> nat, hash: nat -> nat, cap: nat)
    requires PowerOfTwo(cap) && cap > 0 && forall k :: home(k) == hash(k) % cap
    ensures Hashed(home, hash, cap) && Sound(home, seq(cap, _ => EMPTY), map[], Shadow(map[], {}))
    ensures Linked(seq(cap, _ => EMPTY), seq(cap, _ => BLANK_TIMED), seq(cap, _ => false), map[], map[])
  {
  }

  class FlatTable {
    const hash: nat -> nat
    const cap: nat
    const keys: array<nat>
    const entries: array<Timed>
    const used: array<bool>

    ghost const home: nat -> nat
    ghost var live: Placement
    ghost var shadow: Shadow

    /** What the table maps: its live ids to their entries. */
    ghost var view: map<nat, Timed>

    ghost predicate Valid()
      reads this, keys, entries, used
    {
      && keys.Length == entries.Length == used.Length == cap > 0
      && Inner()
    }

    ghost predicate Inner()
      reads this, keys, entries, used
    {
      forall z {:trigger Look(z)} :: Look(z) ==>
        && Hashed(home, hash, cap)
        && Linked(keys[..], entries[..], used[..], live, view)
        && Sound(home, keys[..], live, shadow)
    }

    /** Every id ever inserted. */
    ghost function Ever(): set<nat>
      reads this
    {
      shadow.place.Keys
    }

    ghost function Taken(): set<nat>
      reads keys
    {
      NonEmpty(keys[..])
    }

    constructor (hash: nat -> nat, expectedIds: nat)
      ensures Valid() && view == map[] && Ever() == {}
      ensures this.hash == hash && cap >= 2 * expectedIds
      ensures fresh(keys) && fresh(entries) && fresh(used)
    {
      var c := 1;
      while c < expectedIds * 2
        invariant PowerOfTwo(c)
      {
        c := c * 2;
      }
      this.hash := hash;
      cap := c;
      keys := new nat[c](_ => EMPTY);
      entries := new Timed[c](_ => BLANK_TIMED);
      used := new bool[c](_ => false);
      home := (k: nat) => hash(k) % c;
      live := map[];
      shadow := Shadow(map[], {});
      view := map[];
      new;
      EmptyTable(home, hash, c);
      assert keys[..] == seq(c, _ => EMPTY) && entries[..] == seq(c, _ => BLANK_TIMED);
      assert used[..] == seq(c, _ => false);
    }

    /** Tombstones are never reclaimed, yet slots in use never outnumber the ids ever inserted. */
    lemma TakenBound()
      requires Valid()
      ensures |Taken()| <= |Ever()|
    {
      assert Look(0);
      SoundBound(home, keys[..], live, shadow);
    }

    method FindIndex(id: nat) returns (r: Option<nat>)
      requires Valid() && |Ever()| < cap
      ensures r.Some? <==> id in view
      ensures r.Some? ==> r.value < cap && keys[r.value] == id && id > TOMB && used[r.value]
      ensures r.Some? ==> entries[r.value] == view[id]
    {
      assert Look(0);
      assert hash(id) % cap == home(id) by { assert Peek(0); }
      ghost var stop := SoundEmptyAhead(home, keys[..], live, shadow, home(id));
      r := Seek(id, stop);
      if r.Some? {
        LinkedAt(keys[..], entries[..], used[..], live, view, r.value);
      } else {
        ghost var j :| 0 <= j < cap && Unseen(home, keys[..], id, j) && keys[At(home(id), j, cap)] == EMPTY;
        AbsentWhenEmpty(home, keys[..], live, shadow, id, j);
        assert live.Keys == view.Keys by { assert Peek(0); }
      }
    }

    /** Its loop (lines 496-503), on any table with an empty slot, sound or not. */
    method Seek(id: nat, ghost stop: nat) returns (r: Option<nat>)
      requires keys.Length == cap > 0 && hash(id) % cap == home(id)
      requires stop < cap && keys[At(home(id), stop, cap)] == EMPTY
      ensures r.None? <==> Missed(home, keys[..], id)
      ensures r.Some? ==> r.value < cap && id > TOMB && keys[r.value] == id
    {
      var idx := hash(id) % cap;
      ghost var j, ks := 0, keys[..];
      while true
        invariant j <= stop && idx == At(home(id), j, cap)
        invariant Unseen(home, ks, id, j)
        decreases stop - j
      {
        var k := keys[idx];
        if k == EMPTY {
          MissedAt(home, ks, id, j);
          return None;
        }
        if k != TOMB && k == id {
          MetNotMissed(home, ks, id, j);
          return Some(idx);
        }
        idx := Next(idx, cap);
        j := j + 1;
      }
    }

    /** The probe of findOrInsert (lines 472-491): where the id is, or the slot its insertion takes. The j slots passed
        before the loop stops are not empty and do not hold the id; it stops at the id or at an empty slot. */
    method Search(id: nat) returns (found: bool, idx: nat, ghost n: nat, ghost j: nat)
      requires Valid() && |Ever() + Counted(id)| < cap
      ensures idx < cap && home(id) < cap && n < cap && j < cap && Unseen(home, keys[..], id, j)
      ensures found ==> id > TOMB && id in live && keys[idx] == id && idx == At(home(id), j, cap)
      ensures !found ==> id !in live && keys[At(home(id), j, cap)] == EMPTY
      ensures !found ==> TakesSlot(home, keys[..], id, n) && n <= j && idx == At(home(id), n, cap)
    {
      assert Look(0);
      SubsetSize(Ever(), Ever() + Counted(id));
      assert hash(id) % cap == home(id) by { assert Peek(0); }
      ghost var stop := SoundEmptyAhead(home, keys[..], live, shadow, home(id));
      var firstTomb;
      found, idx, firstTomb, n, j := Walk(id, stop);
      ProbingTells(home, keys[..], id, j, n, firstTomb);
      if found {
        LinkedAt(keys[..], entries[..], used[..], live, view, idx);
      } else {
        AbsentWhenEmpty(home, keys[..], live, shadow, id, j);
        if firstTomb.Some? {
          idx := firstTomb.value;
        }
      }
    }

    /** Its loop (lines 474-491). */
    method Walk(id: nat, ghost stop: nat)
        returns (found: bool, idx: nat, firstTomb: Option<nat>, ghost n: nat, ghost j: nat)
      requires keys.Length == cap > 0 && hash(id) % cap == home(id)
      requires stop < cap && keys[At(home(id), stop, cap)] == EMPTY
      ensures j < cap && idx == At(home(id), j, cap) && Probing(home, keys[..], id, j, n, firstTomb)
      ensures if found then id > TOMB && keys[idx] == id else keys[idx] == EMPTY
    {
      idx := hash(id) % cap;
      found, firstTomb, n, j := false, None, 0, 0;
      ghost var ks := keys[..];
      ProbingStarts(home, ks, id);
      while true
        invariant j <= stop && idx == At(home(id), j, cap)
        invariant Probing(home, ks, id, j, n, firstTomb)
        decreases stop - j
      {
        var k := keys[idx];
        if k == EMPTY {
          return;
        }
        if k == TOMB {
          ProbingPastTomb(home, ks, id, j, n, firstTomb);
          if firstTomb.None? {
            firstTomb := Some(idx);
          }
        } else if k == id {
          found := true;
          return;
        } else {
          ProbingPastKey(home, ks, id, j, n, firstTomb);
          if firstTomb.None? {
            n := n + 1;
          }
        }
        idx := Next(idx, cap);
        j := j + 1;
      }
    }

    /** Storing the empty mark 0 does no harm: the slot it takes is on no live id's path. */
    ghost predicate Harmless(id: nat)
      reads this, keys
    {
      forall z {:trigger Peek(z)} :: Peek(z) && id == EMPTY ==>
        forall n: nat :: TakesSlot(home, keys[..], EMPTY, n) ==>
          OffPaths(home, |keys[..]|, live, At(home(EMPTY), n, |keys[..]|))
    }

    /** The table can take the id: fewer ids than slots were ever inserted, and no live id is cut off. */
    ghost predicate Takes(id: nat)
      reads this, keys
    {
      |Ever() + Counted(id)| < cap && Harmless(id)
    }

    /** The exact condition for the table to stay sound, and for lookups to find every live id, once id 0 is stored in
        the slot it takes. */
    lemma HarmlessIff(n: nat)
      requires Valid() && TakesSlot(home, keys[..], EMPTY, n)
      ensures var ks := keys[..];
        var s := At(home(EMPTY), n, |ks|);
        && (OffPaths(home, |ks|, live, s) <==> Dominated(home, ks[s := EMPTY], live, shadow))
        && (OffPaths(home, |ks|, live, s) <==> forall id :: id in view ==> !Missed(home, ks[s := EMPTY], id))
        && (ks[s] == EMPTY ==> Harmless(EMPTY))
    {
      assert Look(0);
      assert live.Keys == view.Keys by { assert Peek(0); }
      SoundCutOffIff(home, keys[..], live, shadow, At(home(EMPTY), n, |keys[..]|));
      SoundZeroIff(home, keys[..], live, shadow, n);
      OneSlotTaken(home, keys[..], EMPTY, n);
    }

    /** Ids 0 and 1 are the empty mark and the tombstone mark: what is written for them is never found again. Id 0 keeps
        the table sound where it does no harm, and anywhere else lookups miss a live id from then on. */
    method FindOrInsert(id: nat) returns (idx: nat)
      requires Valid() && |Ever() + Counted(id)| < cap
      modifies this, keys, entries, used
      ensures idx < cap && keys[idx] == id && Inserts(home, old(keys[..]), id, keys[..], idx)
      ensures entries[idx] == if id > TOMB then EntryFor(old(view), id) else BLANK_TIMED
      ensures old(Harmless(id)) ==> Valid() && Ever() == old(Ever()) + Counted(id)
      ensures old(Harmless(id)) ==>
                view == if id > TOMB && id !in old(view) then old(view)[id := BLANK_TIMED] else old(view)
      ensures !old(Harmless(id)) ==> exists x :: x in old(view) && Missed(home, keys[..], x)
    {
      assert Look(0);
      var found;
      ghost var n, j;
      found, idx, n, j := Search(id);
      if found {
        SoundBound(home, keys[..], live, shadow);
        assert Ever() == Ever() + {id};
        LinkedAt(keys[..], entries[..], used[..], live, view, idx);
        assert Meets(home, keys[..], id, j);
      } else {
        assert live.Keys == view.Keys by { assert Peek(0); }
        MissedAt(home, keys[..], id, j);
        OneSlotTaken(home, keys[..], id, n);
        assert Harmless(id) <==> (id == EMPTY ==> OffPaths(home, cap, live, idx)) by { assert Peek(0); }
        Occupy(id, idx, n);
      }
    }

    /** The three writes with which an insertion (lines 479-481) and an erasure (507-509) mark a slot. */
    method Mark(idx: nat, key: nat, present: bool)
      requires keys.Length == entries.Length == used.Length == cap && idx < cap
      modifies keys, entries, used
      ensures keys[..] == old(keys[..])[idx := key]
      ensures entries[..] == old(entries[..])[idx := BLANK_TIMED]
      ensures used[..] == old(used[..])[idx := present]
    {
      keys[idx] := key;
      used[idx] := present;
      entries[idx] := BLANK_TIMED;
    }

    method Occupy(id: nat, idx: nat, ghost n: nat)
      requires Valid() && id !in live && |Ever() + Counted(id)| < cap
      requires TakesSlot(home, keys[..], id, n) && idx == At(home(id), n, cap)
      modifies this, keys, entries, used
      ensures keys[..] == old(keys[..])[idx := id] && keys[idx] == id && entries[idx] == BLANK_TIMED
      ensures (id == EMPTY ==> OffPaths(home, cap, old(live), idx)) ==>
        Valid() && Ever() == old(Ever()) + Counted(id) &&
        view == if id > TOMB then old(view)[id := BLANK_TIMED] else old(view)
      ensures !(id == EMPTY ==> OffPaths(home, cap, old(live), idx)) ==>
        exists x :: x in old(view) && Missed(home, keys[..], x)
    {
      assert Look(0);
      ghost var w := shadow;
      if id == EMPTY ==> OffPaths(home, cap, live, idx) {
        w := SoundInsert(home, keys[..], live, shadow, id, n);
      } else {
        SoundCutOffIff(home, keys[..], live, shadow, idx);
        assert live.Keys == view.Keys by { assert Peek(0); }
      }
      LinkedInsert(keys[..], entries[..], used[..], live, view, id, idx);
      Mark(idx, id, true);
      assert keys[..][idx] == id && entries[..][idx] == BLANK_TIMED;
      shadow := w;
      if id > TOMB {
        live, view := live[id := idx], view[id := BLANK_TIMED];
      }
    }

    /** Writing through the entry reference that FindOrInsert hands out. */
    method Store(idx: nat, e: Timed)
      requires Valid() && idx < cap
      modifies this`view, entries
      ensures Valid() && entries[idx] == e && Ever() == old(Ever())
      ensures view == if keys[idx] > TOMB then old(view)[keys[idx] := e] else old(view)
    {
      assert Look(0);
      LinkedStore(keys[..], entries[..], used[..], live, view, idx, e);
      ghost var next := entries[..][idx := e];
      entries[idx] := e;
      assert entries[..] == next;
      if keys[idx] > TOMB {
        view := view[keys[idx] := e];
      }
    }

    method EraseAt(idx: nat)
      requires Valid() && idx < cap && keys[idx] > TOMB
      modifies this, keys, entries, used
      ensures Valid() && Ever() == old(Ever())
      ensures keys[..] == old(keys[..])[idx := TOMB]
      ensures view == old(view) - {old(keys[idx])}
    {
      assert Look(0);
      SoundErase(home, keys[..], live, shadow, idx);
      LinkedErase(keys[..], entries[..], used[..], live, view, idx);
      ghost var gone := keys[idx];
      Mark(idx, TOMB, false);
      live, view := live - {gone}, view - {gone};
    }
  }

  lemma RunEnds(home: nat -> nat, keys: seq<nat>, x: nat, n: nat, m: nat)
    requires LiveRun(home, keys, x, n) && TakesSlot(home, keys, x, m)
    ensures n <= m
  {
  }

  /** An id takes only one slot. */
  lemma OneSlotTaken(home: nat -> nat, keys: seq<nat>, x: nat, n: nat)
    requires TakesSlot(home, keys, x, n)
    ensures forall m: nat :: TakesSlot(home, keys, x, m) ==> m == n
  {
    forall m: nat | TakesSlot(home, keys, x, m) ensures m == n {
      RunEnds(home, keys, x, n, m);
      RunEnds(home, keys, x, m, n);
    }
  }

  /** Id 0 can do harm: with ids 2 and 3 homed at slot 0 and 2 erased, the slot an insertion of 0
      takes is the tombstone, and emptying it cuts id 3 off from its home. */
  lemma ZeroCutsPaths(home: nat -> nat)
    requires forall k :: home(k) == 0
    ensures var keys, live := [TOMB, 3, EMPTY, EMPTY], map[3 := 1];
      && LiveMatches(keys, live) && PathsTaken(home, 4, live, NonEmpty(keys))
      && TakesSlot(home, keys, EMPTY, 0)
      && !PathsTaken(home, 4, live, NonEmpty(keys[0 := EMPTY]))
  {
    var keys := [TOMB, 3, EMPTY, EMPTY];
    assert At(home(3), 0, 4) !in NonEmpty(keys[0 := EMPTY]);
  }

  /** Once id 0 has cut a live id off, fewer ids than slots no longer keep a slot empty: with three ids besides 0 a
      table of four slots fills up, 3 being stored twice. (Erasing 2, which a probe meets at its home, leaves a
      tombstone.) */
  lemma ZeroFillsTable(home: nat -> nat)
    requires forall k :: home(k) == 0
    ensures Inserts(home, [EMPTY, EMPTY, EMPTY, EMPTY], 2, [2, EMPTY, EMPTY, EMPTY], 0)
    ensures Inserts(home, [2, EMPTY, EMPTY, EMPTY], 3, [2, 3, EMPTY, EMPTY], 1)
    ensures Meets(home, [2, 3, EMPTY, EMPTY], 2, 0)
    ensures Inserts(home, [TOMB, 3, EMPTY, EMPTY], EMPTY, [EMPTY, 3, EMPTY, EMPTY], 0)
    ensures Inserts(home, [EMPTY, 3, EMPTY, EMPTY], 3, [3, 3, EMPTY, EMPTY], 0)
    ensures Inserts(home, [3, 3, EMPTY, EMPTY], 2, [3, 3, 2, EMPTY], 2)
    ensures Inserts(home, [3, 3, 2, EMPTY], 4, [3, 3, 2, 4], 3) && EMPTY !in [3, 3, 2, 4]
  {
    Stores(home, [EMPTY, EMPTY, EMPTY, EMPTY], 2, 0, 0, [2, EMPTY, EMPTY, EMPTY]);
    Stores(home, [2, EMPTY, EMPTY, EMPTY], 3, 1, 1, [2, 3, EMPTY, EMPTY]);
    Meeting(home, [2, 3, EMPTY, EMPTY], 2);
    Stores(home, [TOMB, 3, EMPTY, EMPTY], EMPTY, 0, 2, [EMPTY, 3, EMPTY, EMPTY]);
    Stores(home, [EMPTY, 3, EMPTY, EMPTY], 3, 0, 0, [3, 3, EMPTY, EMPTY]);
    Stores(home, [3, 3, EMPTY, EMPTY], 2, 2, 2, [3, 3, 2, EMPTY]);
    Stores(home, [3, 3, 2, EMPTY], 4, 3, 3, [3, 3, 2, 4]);
  }

  lemma Meeting(home: nat -> nat, keys: seq<nat>, id: nat)
    requires id > TOMB && home(id) < |keys| && keys[home(id)] == id
    ensures Meets(home, keys, id, 0)
  {
  }

  /** In a table without an empty slot no probe ends for an id that is not there: it passes every slot. */
  lemma Endless(home: nat -> nat, keys: seq<nat>, id: nat)
    requires home(id) < |keys| && EMPTY !in keys && id !in keys
    ensures Unseen(home, keys, id, |keys|) && !Missed(home, keys, id) && forall j: nat :: !Meets(home, keys, id, j)
  {
    forall d | 0 <= d < |keys| ensures At(home(id), d, |keys|) < |keys| && keys[At(home(id), d, |keys|)] in keys {}
  }

  lemma Stores(home: nat -> nat, keys: seq<nat>, id: nat, n: nat, j: nat, keys': seq<nat>)
    requires home(id) == 0 && n <= j < |keys| && keys' == keys[n := id]
    requires forall d :: 0 <= d < n ==> keys[d] > TOMB
    requires forall d :: 0 <= d < j ==> keys[d] != EMPTY && keys[d] != id
    requires keys[n] <= TOMB && keys[j] == EMPTY
    ensures Inserts(home, keys, id, keys', n)
  {
    MissedAt(home, keys, id, j);
    assert TakesSlot(home, keys, id, n) && At(home(id), n, |keys|) == n;
  }
}
