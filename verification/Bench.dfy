/**
  The driver `runBench` (extras/citadel_interview/main.cpp:962-995), run on any of the reconcilers, and what follows for
  their alert counts. A C++ template instantiated for eight classes is one method over a datatype of references;
  ReconcilerUnorderedHeapReserved is UnorderedHeap.
*/
module Bench {
  import opened Options
  import opened Sealing
  import opened ReconcilerSpec
  import opened AlertSpec
  import opened ScanReconcilers
  import opened HeapReconcilers
  import opened FlatReconcilers
  import opened DirectReconcilers
  import opened Circle
  import opened Displacement
  import opened Expiry
  import opened WheelRuns

  datatype Reconciler =
    | Vector(vs: VectorScan)
    | Unordered(us: UnorderedScan)
    | Heap(uh: UnorderedHeap)
    | FlatHeap(fh: FlatHashHeap)
    | FlatWheel(fw: FlatHashWheel)
    | DirectWheel(dw: DirectIndexWheel)
    | DirectHeap(dh: DirectIndexHeap)
  {
    ghost function Repr(): set<object> {
      match this
      case Vector(r) => {r}
      case Unordered(r) => {r}
      case Heap(r) => {r}
      case FlatHeap(r) => {r, r.table, r.table.keys, r.table.entries, r.table.used}
      case FlatWheel(r) => {r, r.table, r.table.keys, r.table.entries, r.table.used, r.wheel}
      case DirectWheel(r) => {r, r.entries, r.wheel}
      case DirectHeap(r) => {r, r.entries}
    }

    ghost predicate Valid()
      reads Repr()
    {
      match this
      case Vector(r) => r.Valid()
      case Unordered(r) => true
      case Heap(r) => r.Valid()
      case FlatHeap(r) => r.Valid()
      case FlatWheel(r) => r.Valid()
      case DirectWheel(r) => r.Valid()
      case DirectHeap(r) => r.Valid()
    }

    /** Every entry of a wheel is covered; elsewhere nothing is asked. */
    ghost predicate Covers()
      reads Repr()
    {
      match this
      case FlatWheel(r) => Covered(r.Wheels(), r.window)
      case DirectWheel(r) => Covered(r.Wheels(), r.window)
      case _ => true
    }

    predicate IsWheel() {
      FlatWheel? || DirectWheel?
    }

    function WheelKind(): Kind
      requires IsWheel()
    {
      if FlatWheel? then Flat else Direct(dw.maxId)
    }

    ghost function Wheels(): (s: WheelState)
      reads Repr()
      requires Valid() && IsWheel()
      ensures |s.wheel| > 0
    {
      if FlatWheel? then fw.Wheels() else dw.Wheels()
    }

    ghost function View(): State
      reads Repr()
      requires Valid()
    {
      match this
      case Vector(r) => r.View()
      case Unordered(r) => r.View()
      case Heap(r) => r.View()
      case FlatHeap(r) => r.View()
      case FlatWheel(r) => r.View()
      case DirectWheel(r) => r.View()
      case DirectHeap(r) => r.View()
    }

    function Window(): nat {
      match this
      case Vector(r) => r.window
      case Unordered(r) => r.window
      case Heap(r) => r.window
      case FlatHeap(r) => r.window
      case FlatWheel(r) => r.window
      case DirectWheel(r) => r.window
      case DirectHeap(r) => r.window
    }

    function Rule(): Policy {
      match this
      case Vector(_) => SCAN_POLICY
      case Unordered(_) => SCAN_POLICY
      case Heap(_) => SCAN_POLICY
      case FlatHeap(_) => FLAT_POLICY
      case FlatWheel(_) => FLAT_POLICY
      case DirectWheel(r) => DirectPolicy(r.maxId)
      case DirectHeap(r) => DirectPolicy(r.maxId)
    }

    /** The flat tables need room for the ids still to come, and 0 is not an id. */
    ghost predicate Room(ids: set<nat>)
      reads Repr()
    {
      match this
      case FlatHeap(r) => 0 !in ids && |r.table.Ever() + ids| < r.table.cap
      case FlatWheel(r) => 0 !in ids && |r.table.Ever() + ids| < r.table.cap
      case _ => true
    }

    /** The longest time ahead for which a window may be scheduled. */
    predicate Reaches(span: int) {
      match this
      case FlatWheel(r) => span <= r.tickMod
      case DirectWheel(r) => span <= r.tickMod
      case _ => true
    }

    function Alerts(): nat
      reads Repr()
    {
      match this
      case Vector(r) => r.alerts
      case Unordered(r) => r.alerts
      case Heap(r) => r.alerts
      case FlatHeap(r) => r.alerts
      case FlatWheel(r) => r.alerts
      case DirectWheel(r) => r.alerts
      case DirectHeap(r) => r.alerts
    }

    /** Follows the reference while the wheels cover their entries; a wheel does in any case what its values say. */
    method OnTimer(now: nat, ghost ids: set<nat>)
      requires Valid() && Room(ids)
      modifies Repr()
      ensures Valid() && Room(ids) && View().lastTimer == now
      ensures old(Covers() && View().lastTimer <= now) ==>
                Covers() && View() == ReconcilerSpec.OnTimer(Window(), old(View()), now)
      ensures IsWheel() ==> Wheels() == WheelTimer(old(Wheels()), now)
    {
      match this
      case Vector(r) => r.OnTimer(now);
      case Unordered(r) => r.OnTimer(now);
      case Heap(r) => r.OnTimer(now);
      case FlatHeap(r) =>
        SubsetSize(r.table.Ever(), r.table.Ever() + ids);
        r.OnTimer(now);
      case FlatWheel(r) =>
        SubsetSize(r.table.Ever(), r.table.Ever() + ids);
        r.OnTimer(now);
      case DirectWheel(r) => r.OnTimer(now);
      case DirectHeap(r) => r.OnTimer(now);
    }

    method OnFeed(f: Feed, exec: Execution, ghost ids: set<nat>)
      requires Valid() && Room(ids) && exec.id in ids
      modifies Repr()
      ensures Valid() && Room(ids) && View().lastTimer == old(View().lastTimer)
      ensures old(Covers()) && Reaches(exec.ts + Window() - old(View().lastTimer)) ==>
                Covers() && View() == ReconcilerSpec.OnFeed(Rule(), Window(), old(View()), f, exec)
      ensures IsWheel() ==> Wheels() == WheelKind().OnFeed(Window(), old(Wheels()), f, exec)
    {
      match this
      case Vector(r) => r.OnFeed(f, exec);
      case Unordered(r) => r.OnFeed(f, exec);
      case Heap(r) => r.OnFeed(f, exec);
      case FlatHeap(r) => FeedFlatHeap(r, f, exec, ids);
      case FlatWheel(r) => FeedFlatWheel(r, f, exec, ids);
      case DirectWheel(r) => r.OnFeed(f, exec);
      case DirectHeap(r) => r.OnFeed(f, exec);
    }
  }

  method FeedFlatHeap(r: FlatHashHeap, f: Feed, exec: Execution, ghost ids: set<nat>)
    requires r.Valid() && 0 !in ids && |r.table.Ever() + ids| < r.table.cap && exec.id in ids
    modifies r, r.table, r.table.keys, r.table.entries, r.table.used
    ensures r.Valid() && |r.table.Ever() + ids| < r.table.cap && r.lastTimer == old(r.lastTimer)
    ensures r.View() == ReconcilerSpec.OnFeed(FLAT_POLICY, r.window, old(r.View()), f, exec)
  {
    ghost var ever := r.table.Ever();
    RoomFor(ever, ids, exec.id);
    r.OnFeed(f, exec);
    RoomLeft(r.table.Ever(), ever, ids, exec.id);
  }

  method FeedFlatWheel(r: FlatHashWheel, f: Feed, exec: Execution, ghost ids: set<nat>)
    requires r.Valid() && 0 !in ids && |r.table.Ever() + ids| < r.table.cap && exec.id in ids
    modifies r, r.table, r.table.keys, r.table.entries, r.table.used, r.wheel
    ensures r.Valid() && |r.table.Ever() + ids| < r.table.cap && r.lastTimer == old(r.lastTimer)
    ensures r.Wheels() == FlatWheelFeed(r.window, old(r.Wheels()), f, exec)
    ensures old(Covered(r.Wheels(), r.window)) && exec.ts + r.window <= old(r.lastTimer) + r.tickMod ==>
              Covered(r.Wheels(), r.window) &&
              r.View() == ReconcilerSpec.OnFeed(FLAT_POLICY, r.window, old(r.View()), f, exec)
  {
    ghost var ever := r.table.Ever();
    RoomFor(ever, ids, exec.id);
    r.OnFeed(f, exec);
    RoomLeft(r.table.Ever(), ever, ids, exec.id);
  }

  lemma RoomFor(ever: set<nat>, ids: set<nat>, id: nat)
    requires id in ids
    ensures |ever + Counted(id)| <= |ever + ids|
  {
    SubsetSize(ever + Counted(id), ever + ids);
  }

  lemma RoomLeft(now: set<nat>, ever: set<nat>, ids: set<nat>, id: nat)
    requires id in ids && now <= ever + Counted(id)
    ensures |now + ids| <= |ever + ids|
  {
    SubsetSize(now + ids, ever + ids);
  }

  ghost function IdsOf(events: seq<Event>): set<nat> {
    set i | 0 <= i < |events| :: events[i].exec.id
  }

  /** Fires every timer that is due; lines 972-975 and 990-993. */
  method CatchUp(r: Reconciler, w: nat, next: nat, upTo: nat, ghost ids: set<nat>) returns (next': nat)
    requires w >= 1 && r.Valid() && r.Window() == w && r.Room(ids) && next == r.View().lastTimer + w
    modifies r.Repr()
    ensures r.Valid() && r.Room(ids) && next' == r.View().lastTimer + w && next' == NextTimer(w, next, upTo)
    ensures old(r.Covers()) ==> r.Covers() && r.View() == FireTimers(w, old(r.View()), next, upTo)
    ensures r.IsWheel() ==> r.Wheels() == FireWheel(w, old(r.Wheels()), next, upTo)
  {
    next' := next;
    while next' <= upTo
      invariant r.Valid() && r.Room(ids) && next' == r.View().lastTimer + w
      invariant NextTimer(w, next', upTo) == NextTimer(w, next, upTo)
      invariant old(r.Covers()) ==>
                  r.Covers() && FireTimers(w, r.View(), next', upTo) == FireTimers(w, old(r.View()), next, upTo)
      invariant r.IsWheel() ==> FireWheel(w, r.Wheels(), next', upTo) == FireWheel(w, old(r.Wheels()), next, upTo)
      decreases upTo + 1 - next'
    {
      r.OnTimer(next', ids);
      next' := next' + w;
    }
  }

  /** The state after i events is on its way to the count of the whole stream. */
  ghost predicate OnTheWay(p: Policy, w: nat, s: State, now: nat, next: nat, events: seq<Event>, i: nat)
    requires w >= 1 && i <= |events|
  {
    forall z {:trigger Look(z)} :: Look(z) ==>
      BegunBy(s, now) && BenchFrom(p, w, s, now, next, events[i..]) == ReconcilerSpec.Bench(p, w, events)
  }

  lemma WayBegins(p: Policy, w: nat, events: seq<Event>)
    requires w >= 1
    ensures OnTheWay(p, w, START, 0, w, events, 0)
  {
    assert events[0..] == events;
  }

  lemma WayGoesOn(p: Policy, w: nat, s: State, now: nat, next: nat, events: seq<Event>, i: nat)
    requires w >= 1 && i < |events| && OnTheWay(p, w, s, now, next, events, i)
    ensures var e := events[i];
      var now' := Max(now, e.exec.ts);
      OnTheWay(p, w, ReconcilerSpec.OnFeed(p, w, FireTimers(w, s, next, now'), e.feed, e.exec), now',
               NextTimer(w, next, now'), events, i + 1)
  {
    assert Look(0);
    assert events[i..][0] == events[i] && events[i..][1..] == events[i + 1..];
    EventBegins(p, w, s, next, now, Max(now, events[i].exec.ts), events[i]);
  }

  lemma WayEnds(p: Policy, w: nat, s: State, now: nat, next: nat, events: seq<Event>)
    requires w >= 1 && OnTheWay(p, w, s, now, next, events, |events|)
    requires next == s.lastTimer + w && now < next <= now + w
    ensures var t := FireTimers(w, s, next, FlushTo(w, now));
      t.alerts == ReconcilerSpec.Bench(p, w, events) == |Firing(p, w, events, |events|)| && t.entries == map[]
  {
    assert Look(0);
    FlushEmpties(w, s, now);
    AlertsAreFiring(p, w, events);
  }

  lemma WheelBenchStep(kind: Kind, w: nat, s: WheelState, now: nat, next: nat, events: seq<Event>, i: nat)
    requires w >= 1 && |s.wheel| > 0 && i < |events|
    ensures var e := events[i];
      var now' := Max(now, e.exec.ts);
      WheelBenchFrom(kind, w, s, now, next, events[i..]) ==
        WheelBenchFrom(kind, w, kind.OnFeed(w, FireWheel(w, s, next, now'), e.feed, e.exec), now',
                       NextTimer(w, next, now'), events[i + 1..])
  {
    assert events[i..][0] == events[i] && events[i..][1..] == events[i + 1..];
  }

  /** The body of the event loop: lines 969-986. */
  method Deliver(ev: Event, r: Reconciler, w: nat, now: nat, next: nat, ghost ids: set<nat>)
      returns (now': nat, next': nat)
    requires w >= 1 && r.Valid() && r.Window() == w && r.Room(ids) && ev.exec.id in ids
    requires next == r.View().lastTimer + w && now < next
    modifies r.Repr()
    ensures r.Valid() && r.Room(ids) && next' == r.View().lastTimer + w && now' < next'
    ensures now' == Max(now, ev.exec.ts) && next' == NextTimer(w, next, now')
    ensures old(r.Covers()) && r.Reaches(2 * w - 1) ==>
      r.Covers() &&
      r.View() == ReconcilerSpec.OnFeed(r.Rule(), w, FireTimers(w, old(r.View()), next, now'), ev.feed, ev.exec)
    ensures r.IsWheel() ==>
      r.Wheels() == r.WheelKind().OnFeed(w, FireWheel(w, old(r.Wheels()), next, now'), ev.feed, ev.exec)
  {
    now' := now;
    if ev.exec.ts > now {
      now' := ev.exec.ts;
    }
    next' := CatchUp(r, w, next, now', ids);
    r.OnFeed(ev.feed, ev.exec, ids);
  }

  /** Every reconciler, driven from its initial state, returns the alert count of the reference under its own
      policy: the flat tables while fewer distinct ids than slots occur and 0 is not one of them, the wheels when one
      turn covers two windows less one. The stream may be in any order. A wheel of any size counts what its values
      say (WheelRuns.TurnIff tells which sizes are right). */
  method RunBench(events: seq<Event>, r: Reconciler, w: nat) returns (alerts: nat)
    requires w >= 1 && r.Valid() && r.Covers() && r.Window() == w && r.View() == START && r.Room(IdsOf(events))
    modifies r.Repr()
    ensures r.Reaches(2 * w - 1) ==> alerts == ReconcilerSpec.Bench(r.Rule(), w, events)
    ensures r.Reaches(2 * w - 1) ==> alerts == |Firing(r.Rule(), w, events, |events|)|
    ensures r.Reaches(2 * w - 1) ==> r.Valid() && r.View().entries == map[]
    ensures r.Reaches(2 * w - 1) ==> Compares(r, w, events, alerts)
    ensures r.IsWheel() ==> alerts == WheelBenchFrom(r.WheelKind(), w, old(r.Wheels()), 0, w, events)
  {
    ghost var ids := IdsOf(events);
    var now, next := 0, w;
    WayBegins(r.Rule(), w, events);
    assert events[0..] == events;
    for i := 0 to |events|
      invariant r.Valid() && r.Room(ids) && next == r.View().lastTimer + w && now < next <= now + w
      invariant r.Reaches(2 * w - 1) ==> r.Covers() && OnTheWay(r.Rule(), w, r.View(), now, next, events, i)
      invariant r.IsWheel() ==>
        WheelBenchFrom(r.WheelKind(), w, r.Wheels(), now, next, events[i..])
        == WheelBenchFrom(r.WheelKind(), w, old(r.Wheels()), 0, w, events)
    {
      if r.Reaches(2 * w - 1) {
        WayGoesOn(r.Rule(), w, r.View(), now, next, events, i);
      }
      if r.IsWheel() {
        WheelBenchStep(r.WheelKind(), w, r.Wheels(), now, next, events, i);
      }
      assert events[i].exec.id in ids;
      now, next := Deliver(events[i], r, w, now, next, ids);
    }
    assert events[|events|..] == [];
    if r.Reaches(2 * w - 1) {
      WayEnds(r.Rule(), w, r.View(), now, next, events);
    }
    next := CatchUp(r, w, next, FlushTo(w, now), ids);
    alerts := r.Alerts();
    ComparedWithScan(r, w, events);
  }

  /** How a returned count compares with the scan's: it is the same for the unordered classes; for the flat tables,
      without id 0, exactly when the tombstone mark 1 raises no alert by itself; for the directly indexed classes, on
      steady streams, exactly when the ids above the maximum raise none. */
  ghost predicate Compares(r: Reconciler, w: nat, events: seq<Event>, alerts: nat)
    requires w >= 1
  {
    && (r.Vector? || r.Unordered? || r.Heap? ==> alerts == ScanAlerts(w, events))
    && ((r.FlatHeap? || r.FlatWheel?) && 0 !in IdsOf(events) ==>
         (alerts == ScanAlerts(w, events) <==> ReconcilerSpec.Bench(Policy(1, Some(1), false), w, events) == 0))
    && ((r.DirectWheel? || r.DirectHeap?) && Steady(events) ==>
         (alerts == ScanAlerts(w, events) <==>
           ReconcilerSpec.Bench(Policy(r.Rule().maxId.value + 1, None, true), w, events) == 0))
  }

  lemma ComparedWithScan(r: Reconciler, w: nat, events: seq<Event>)
    requires w >= 1
    ensures Compares(r, w, events, ReconcilerSpec.Bench(r.Rule(), w, events))
  {
    if (r.FlatHeap? || r.FlatWheel?) && 0 !in IdsOf(events) {
      forall i | 0 <= i < |events| ensures events[i].exec.id != 0 {
        assert events[i].exec.id in IdsOf(events);
      }
      FlatAgreesIff(w, events);
    }
    if (r.DirectWheel? || r.DirectHeap?) && Steady(events) {
      DirectAgreesIff(r.Rule().maxId.value, w, events);
    }
  }

  /** Any two reconcilers that admit every id count alike on steady streams. */
  lemma AllAgree(p: Policy, q: Policy, w: nat, events: seq<Event>)
    requires w >= 1 && Steady(events) && AllAdmitted(p, events) && AllAdmitted(q, events)
    ensures ReconcilerSpec.Bench(p, w, events) == ReconcilerSpec.Bench(q, w, events) == ScanAlerts(w, events)
  {
    Agreement(p, w, events);
    Agreement(q, w, events);
  }
}
