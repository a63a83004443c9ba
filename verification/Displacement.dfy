/**
  Why a linear-probing table with tombstones never runs out of empty slots although it never
  reclaims one (extras/citadel_interview/main.cpp:471-510).

  Beside the table we imagine a shadow table of the same size into which every id ever inserted
  is placed once and from which nothing is deleted. `Crossing(p, b)` is the set of ids that placement p has
  pushed over the boundary before slot b. The table keeps two facts: its non-empty slots are slots
  the shadow fills, and over every boundary it pushes at most as many ids as the shadow does.
*/
module Displacement {
  import opened Circle
  import opened Sealing

  type Placement = map<nat, nat>

  /** The shadow table: where each id sits, and which slots are filled. */
  datatype Shadow = Shadow(place: Placement, filled: set<nat>)

  ghost predicate Shading(home: nat -> nat, cap: nat, w: Shadow) {
    && Fits(home, cap, w.place)
    && PathsTaken(home, cap, w.place, w.filled)
    && |w.filled| == |w.place|
  }

  const EMPTY := 0
  const TOMB := 1

  ghost predicate Fits(home: nat -> nat, cap: nat, p: Placement) {
    && (forall k :: k in p ==> home(k) < cap && p[k] < cap)
    && (forall j, k :: j in p && k in p && p[j] == p[k] ==> j == k)
  }

  predicate Crosses(from: nat, slot: nat, b: nat, cap: nat)
    requires from < cap && slot < cap && b < cap
  {
    0 < Dist(from, b, cap) <= Dist(from, slot, cap)
  }

  /** Ids whose probe path leads over the boundary into slot b. */
  ghost function Crossing(home: nat -> nat, cap: nat, p: Placement, b: nat): set<nat>
    requires Fits(home, cap, p) && b < cap
  {
    set k | k in p && Crosses(home(k), p[k], b, cap)
  }

  ghost function Homed(home: nat -> nat, p: Placement, b: nat): set<nat> {
    set k | k in p && home(k) == b
  }

  ghost function Sitting(p: Placement, b: nat): set<nat> {
    set k | k in p && p[k] == b
  }

  /** Of the two ways into slot b an id uses at most one, and then it stays or crosses into the next. */
  lemma OneIdFlows(h: nat, s: nat, b: nat, cap: nat)
    requires h < cap && s < cap && b < cap
    ensures (Crosses(h, s, Next(b, cap), cap) || s == b) <==> (Crosses(h, s, b, cap) || h == b)
    ensures !(Crosses(h, s, Next(b, cap), cap) && s == b)
    ensures !(Crosses(h, s, b, cap) && h == b)
  {
  }

  lemma SameUnion(a: set<nat>, b: set<nat>, c: set<nat>, d: set<nat>)
    requires a !! b && c !! d
    requires forall k :: (k in a || k in b) <==> (k in c || k in d)
    ensures |a| + |b| == |c| + |d|
  {
    assert a + b == c + d;
    assert |a + b| == |a| + |b| && |c + d| == |c| + |d|;
  }

  /** What enters slot b, over the boundary or by hashing there, either stays or crosses into the next. */
  lemma Conservation(home: nat -> nat, cap: nat, p: Placement, b: nat)
    requires Fits(home, cap, p) && b < cap
    ensures |Crossing(home, cap, p, Next(b, cap))| + |Sitting(p, b)|
            == |Crossing(home, cap, p, b)| + |Homed(home, p, b)|
  {
    var over, sit := Crossing(home, cap, p, Next(b, cap)), Sitting(p, b);
    var into, homed := Crossing(home, cap, p, b), Homed(home, p, b);
    forall k
      ensures (k in over || k in sit) <==> (k in into || k in homed)
      ensures !(k in over && k in sit) && !(k in into && k in homed)
    {
      if k in p { OneIdFlows(home(k), p[k], b, cap); }
    }
    SameUnion(over, sit, into, homed);
  }

  lemma AtMostOneSits(home: nat -> nat, cap: nat, p: Placement, b: nat)
    requires Fits(home, cap, p)
    ensures |Sitting(p, b)| <= 1
  {
    if k :| k in Sitting(p, b) {
      assert Sitting(p, b) == {k};
    }
  }

  ghost predicate LiveMatches(keys: seq<nat>, live: Placement) {
    && (forall k :: k in live ==> k > TOMB && live[k] < |keys| && keys[live[k]] == k)
    && (forall s :: 0 <= s < |keys| && keys[s] > TOMB ==> keys[s] in live && live[keys[s]] == s)
  }

  /** Every slot on the way from an id's home to its place is in `taken`. */
  ghost predicate PathsTaken(home: nat -> nat, cap: nat, p: Placement, taken: set<nat>)
    requires Fits(home, cap, p)
  {
    forall k, d :: k in p && 0 <= d <= Dist(home(k), p[k], cap) ==> At(home(k), d, cap) in taken
  }

  lemma PathsGrow(home: nat -> nat, cap: nat, p: Placement, taken: set<nat>, x: nat, n: nat, taken': set<nat>)
    requires Fits(home, cap, p) && PathsTaken(home, cap, p, taken)
    requires x !in p && home(x) < cap && n < cap && taken <= taken'
    requires Fits(home, cap, p[x := At(home(x), n, cap)])
    requires forall d :: 0 <= d <= n ==> At(home(x), d, cap) in taken'
    ensures PathsTaken(home, cap, p[x := At(home(x), n, cap)], taken')
  {
    assert Dist(home(x), At(home(x), n, cap), cap) == n;
  }

  ghost function NonEmpty(keys: seq<nat>): set<nat> {
    set s | 0 <= s < |keys| && keys[s] != EMPTY
  }

  ghost predicate Dominated(home: nat -> nat, keys: seq<nat>, live: Placement, w: Shadow) {
    && |keys| > 0
    && (forall k :: home(k) < |keys|)
    && LiveMatches(keys, live)
    && Fits(home, |keys|, live)
    && PathsTaken(home, |keys|, live, NonEmpty(keys))
    && Shading(home, |keys|, w)
    && live.Keys <= w.place.Keys
    && NonEmpty(keys) <= w.filled
    && PushesLess(home, |keys|, live, w.place)
  }

  ghost predicate PushesLess(home: nat -> nat, cap: nat, live: Placement, place: Placement)
    requires Fits(home, cap, live) && Fits(home, cap, place)
  {
    forall b :: 0 <= b < cap ==> |Crossing(home, cap, live, b)| <= |Crossing(home, cap, place, b)|
  }

  /** The slots that are not empty, tombstones included, never outnumber the ids ever inserted. */
  lemma NonEmptyBound(home: nat -> nat, keys: seq<nat>, live: Placement, w: Shadow)
    requires Dominated(home, keys, live, w)
    ensures |NonEmpty(keys)| <= |w.place|
  {
    SubsetSize(NonEmpty(keys), w.filled);
  }

  /** While fewer ids than slots have been inserted, every probe meets an empty slot. */
  lemma EmptyAhead(home: nat -> nat, keys: seq<nat>, live: Placement, w: Shadow, from: nat) returns (d: nat)
    requires Dominated(home, keys, live, w) && |w.place| < |keys| && from < |keys|
    ensures d < |keys| && keys[At(from, d, |keys|)] == EMPTY
  {
    d := FreeAhead(|keys|, w.filled, from);
    assert At(from, d, |keys|) !in NonEmpty(keys);
  }

  ghost predicate FirstFree(cap: nat, filled: set<nat>, from: nat, d: nat)
    requires from < cap
  {
    && d < cap && At(from, d, cap) !in filled
    && forall i :: 0 <= i < d ==> At(from, i, cap) in filled
  }

  /** The first slot from `from` on that is not filled. */
  lemma FreeAhead(cap: nat, filled: set<nat>, from: nat) returns (d: nat)
    requires |filled| < cap && from < cap
    ensures FirstFree(cap, filled, from, d)
  {
    var e := Missing(filled, cap);
    var stop := Dist(from, e, cap);
    d := 0;
    while At(from, d, cap) in filled
      invariant d <= stop
      invariant forall i :: 0 <= i < d ==> At(from, i, cap) in filled
      decreases stop - d
    {
      d := d + 1;
    }
  }

  /** All n slots from x's home on hold live ids, and x is not live. */
  ghost predicate LiveRun(home: nat -> nat, keys: seq<nat>, x: nat, n: nat) {
    && home(x) < |keys| && n < |keys|
    && forall d :: 0 <= d < n ==> keys[At(home(x), d, |keys|)] > TOMB
  }

  /** An id that was inserted once but is no longer live leaves the shadow strictly ahead of the
      table over every boundary of a run of live slots that starts at the id's home. */
  lemma {:induction false} Pressure(home: nat -> nat, keys: seq<nat>, live: Placement, w: Shadow, x: nat, n: nat)
    requires Dominated(home, keys, live, w)
    requires x in w.place && x !in live && LiveRun(home, keys, x, n) && n >= 1
    ensures |Crossing(home, |keys|, live, At(home(x), n, |keys|))|
            < |Crossing(home, |keys|, w.place, At(home(x), n, |keys|))|
  {
    var cap := |keys|;
    var b := At(home(x), n - 1, cap);
    assert Next(b, cap) == At(home(x), n, cap);
    FlowsOn(home, keys, live, w, b);
    HomedAhead(home, keys, live, w, b, x);
    if n == 1 {
    } else {
      Pressure(home, keys, live, w, x, n - 1);
    }
  }

  /** At a slot with a live id the table keeps one id back, and the shadow at most one. */
  lemma FlowsOn(home: nat -> nat, keys: seq<nat>, live: Placement, w: Shadow, b: nat)
    requires Dominated(home, keys, live, w) && b < |keys| && keys[b] > TOMB
    ensures |Crossing(home, |keys|, live, Next(b, |keys|))| + 1
            <= |Crossing(home, |keys|, live, b)| + |Homed(home, live, b)|
    ensures |Crossing(home, |keys|, w.place, Next(b, |keys|))| + 1
            >= |Crossing(home, |keys|, w.place, b)| + |Homed(home, w.place, b)|
  {
    Conservation(home, |keys|, live, b);
    Conservation(home, |keys|, w.place, b);
    AtMostOneSits(home, |keys|, w.place, b);
    assert keys[b] in Sitting(live, b);
  }

  lemma HomedAhead(home: nat -> nat, keys: seq<nat>, live: Placement, w: Shadow, b: nat, x: nat)
    requires Dominated(home, keys, live, w) && x in w.place && x !in live
    ensures |Homed(home, live, b)| <= |Homed(home, w.place, b)|
    ensures home(x) == b ==> |Homed(home, live, b)| < |Homed(home, w.place, b)|
  {
    SubsetSize(Homed(home, live, b), Homed(home, w.place, b));
    if home(x) == b {
      SubsetSize(Homed(home, live, b) + {x}, Homed(home, w.place, b));
    }
  }

  /** The shadow with one more id, in the first free slot from its home. */
  ghost function Shadowed(home: nat -> nat, cap: nat, w: Shadow, x: nat): Shadow
    requires home(x) < cap
    requires x !in w.place ==> |w.filled| < cap
  {
    if x in w.place then w
    else
      assert exists d: nat :: FirstFree(cap, w.filled, home(x), d) by {
        var d := FreeAhead(cap, w.filled, home(x));
      }
      var d: nat :| FirstFree(cap, w.filled, home(x), d);
      Shadow(w.place[x := At(home(x), d, cap)], w.filled + {At(home(x), d, cap)})
  }

  lemma ShadowSlot(home: nat -> nat, cap: nat, w: Shadow, x: nat) returns (d: nat)
    requires home(x) < cap && |w.filled| < cap && x !in w.place
    ensures FirstFree(cap, w.filled, home(x), d)
    ensures Shadowed(home, cap, w, x)
            == Shadow(w.place[x := At(home(x), d, cap)], w.filled + {At(home(x), d, cap)})
  {
    d := FreeAhead(cap, w.filled, home(x));
    assert forall e: nat :: FirstFree(cap, w.filled, home(x), e) ==> e == d;
  }

  lemma FitsGrow(home: nat -> nat, cap: nat, p: Placement, x: nat, s: nat)
    requires Fits(home, cap, p) && home(x) < cap && s < cap && forall k :: k in p ==> p[k] != s
    ensures Fits(home, cap, p[x := s])
  {
  }

  lemma PathsEnd(home: nat -> nat, cap: nat, p: Placement, taken: set<nat>)
    requires Fits(home, cap, p) && PathsTaken(home, cap, p, taken)
    ensures forall k :: k in p ==> p[k] in taken
  {
    forall k | k in p ensures p[k] in taken {
      assert At(home(k), Dist(home(k), p[k], cap), cap) == p[k];
    }
  }

  lemma ShadingGrows(home: nat -> nat, cap: nat, w: Shadow, x: nat, d: nat)
    requires Shading(home, cap, w) && home(x) < cap && x !in w.place
    requires FirstFree(cap, w.filled, home(x), d)
    ensures Shading(home, cap, Shadow(w.place[x := At(home(x), d, cap)], w.filled + {At(home(x), d, cap)}))
  {
    var s := At(home(x), d, cap);
    PathsEnd(home, cap, w.place, w.filled);
    FitsGrow(home, cap, w.place, x, s);
    PathsGrow(home, cap, w.place, w.filled, x, d, w.filled + {s});
  }

  /** The grown shadow is still a placement in which no id could sit nearer to its home, with as
      many filled slots as ids. */
  lemma ShadowedKeeps(home: nat -> nat, cap: nat, w: Shadow, x: nat)
    requires Shading(home, cap, w) && home(x) < cap
    requires x !in w.place ==> |w.filled| < cap
    ensures Shading(home, cap, Shadowed(home, cap, w, x))
    ensures w.filled <= Shadowed(home, cap, w, x).filled
    ensures Shadowed(home, cap, w, x).place.Keys == w.place.Keys + {x}
  {
    if x !in w.place {
      var d := ShadowSlot(home, cap, w, x);
      ShadingGrows(home, cap, w, x, d);
    }
  }

  /** The slot an insertion of x takes: the first one from its home that holds no live id. */
  ghost predicate TakesSlot(home: nat -> nat, keys: seq<nat>, x: nat, n: nat) {
    LiveRun(home, keys, x, n) && keys[At(home(x), n, |keys|)] <= TOMB
  }

  lemma HeldSlot(home: nat -> nat, keys: seq<nat>, live: Placement, w: Shadow, x: nat, n: nat)
    requires Dominated(home, keys, live, w) && x in w.place && x !in live && LiveRun(home, keys, x, n)
    ensures At(home(x), n, |keys|) in w.filled
  {
    var s := At(home(x), n, |keys|);
    var k := x;
    if n > 0 {
      Pressure(home, keys, live, w, x, n);
      assert Crossing(home, |keys|, w.place, s) != {};
      k :| k in Crossing(home, |keys|, w.place, s);
    }
    assert At(home(k), Dist(home(k), s, |keys|), |keys|) == s;
  }

  lemma RunIsShadowed(home: nat -> nat, keys: seq<nat>, filled: set<nat>, x: nat, n: nat)
    requires LiveRun(home, keys, x, n) && NonEmpty(keys) <= filled
    ensures forall d :: 0 <= d < n ==> At(home(x), d, |keys|) in filled
  {
    forall d | 0 <= d < n ensures At(home(x), d, |keys|) in filled {
      assert At(home(x), d, |keys|) in NonEmpty(keys);
    }
  }

  /** The shadow, grown by x, fills the slot that an insertion of x takes. */
  lemma TakenIsShadowed(home: nat -> nat, keys: seq<nat>, live: Placement, w: Shadow, x: nat, n: nat)
    requires Dominated(home, keys, live, w) && x !in live && TakesSlot(home, keys, x, n)
    requires x !in w.place ==> |w.filled| < |keys|
    ensures At(home(x), n, |keys|) in Shadowed(home, |keys|, w, x).filled
  {
    if x in w.place {
      HeldSlot(home, keys, live, w, x, n);
    } else {
      var d := ShadowSlot(home, |keys|, w, x);
      RunIsShadowed(home, keys, w.filled, x, n);
      assert d >= n;
    }
  }

  /** Placing one more id adds it to the boundaries on its path and changes no other. */
  lemma CrossingGrows(home: nat -> nat, cap: nat, p: Placement, x: nat, s: nat, b: nat)
    requires Fits(home, cap, p) && Fits(home, cap, p[x := s]) && x !in p && b < cap
    ensures |Crossing(home, cap, p[x := s], b)|
            == |Crossing(home, cap, p, b)| + (if Crosses(home(x), s, b, cap) then 1 else 0)
  {
    var q := p[x := s];
    var before, after := Crossing(home, cap, p, b), Crossing(home, cap, q, b);
    forall k ensures k in after <==> k in before || (k == x && Crosses(home(x), s, b, cap)) {
    }
    assert after == if Crosses(home(x), s, b, cap) then before + {x} else before;
  }

  lemma InsertFlow(home: nat -> nat, keys: seq<nat>, live: Placement, w: Shadow, x: nat, n: nat, b: nat)
    requires Dominated(home, keys, live, w) && x !in live && TakesSlot(home, keys, x, n)
    requires x !in w.place ==> |w.filled| < |keys|
    requires b < |keys| && Fits(home, |keys|, live[x := At(home(x), n, |keys|)])
    requires Fits(home, |keys|, Shadowed(home, |keys|, w, x).place)
    ensures |Crossing(home, |keys|, live[x := At(home(x), n, |keys|)], b)|
            <= |Crossing(home, |keys|, Shadowed(home, |keys|, w, x).place, b)|
  {
    if x in w.place {
      FlowOfKnown(home, keys, live, w, x, n, b);
    } else {
      FlowOfNew(home, keys, live, w, x, n, b);
    }
  }

  /** An id that the shadow holds already: the shadow was strictly ahead wherever the id now crosses. */
  lemma FlowOfKnown(home: nat -> nat, keys: seq<nat>, live: Placement, w: Shadow, x: nat, n: nat, b: nat)
    requires Dominated(home, keys, live, w) && x in w.place && x !in live && TakesSlot(home, keys, x, n)
    requires b < |keys| && Fits(home, |keys|, live[x := At(home(x), n, |keys|)])
    ensures |Crossing(home, |keys|, live[x := At(home(x), n, |keys|)], b)| <= |Crossing(home, |keys|, w.place, b)|
  {
    var cap := |keys|;
    var s := At(home(x), n, cap);
    CrossingGrows(home, cap, live, x, s, b);
    DistAt(home(x), n, cap);
    if Crosses(home(x), s, b, cap) {
      var m := Dist(home(x), b, cap);
      assert At(home(x), m, cap) == b;
      Pressure(home, keys, live, w, x, m);
    }
  }

  /** A new id: the shadow places it at least as far from its home as the table does. */
  lemma FlowOfNew(home: nat -> nat, keys: seq<nat>, live: Placement, w: Shadow, x: nat, n: nat, b: nat)
    requires Dominated(home, keys, live, w) && x !in w.place && x !in live && TakesSlot(home, keys, x, n)
    requires |w.filled| < |keys| && b < |keys| && Fits(home, |keys|, live[x := At(home(x), n, |keys|)])
    requires Fits(home, |keys|, Shadowed(home, |keys|, w, x).place)
    ensures |Crossing(home, |keys|, live[x := At(home(x), n, |keys|)], b)|
            <= |Crossing(home, |keys|, Shadowed(home, |keys|, w, x).place, b)|
  {
    var cap := |keys|;
    CrossingGrows(home, cap, live, x, At(home(x), n, cap), b);
    DistAt(home(x), n, cap);
    var f := ShadowSlot(home, cap, w, x);
    CrossingGrows(home, cap, w.place, x, At(home(x), f, cap), b);
    RunIsShadowed(home, keys, w.filled, x, n);
    assert f >= n;
    DistAt(home(x), f, cap);
  }

  lemma LivePlaced(home: nat -> nat, keys: seq<nat>, live: Placement, x: nat, n: nat)
    requires LiveMatches(keys, live) && Fits(home, |keys|, live) && x !in live && x > TOMB
    requires TakesSlot(home, keys, x, n)
    ensures var s := At(home(x), n, |keys|);
      LiveMatches(keys[s := x], live[x := s]) && Fits(home, |keys|, live[x := s])
  {
  }

  /** Inserting a real id keeps the table dominated by the shadow. */
  lemma InsertKeeps(home: nat -> nat, keys: seq<nat>, live: Placement, w: Shadow, x: nat, n: nat)
    requires Dominated(home, keys, live, w) && x !in live && x > TOMB && TakesSlot(home, keys, x, n)
    requires x !in w.place ==> |w.filled| < |keys|
    ensures var s := At(home(x), n, |keys|);
            Dominated(home, keys[s := x], live[x := s], Shadowed(home, |keys|, w, x))
  {
    var cap := |keys|;
    var s := At(home(x), n, cap);
    var w' := Shadowed(home, cap, w, x);
    var keys', live' := keys[s := x], live[x := s];
    ShadowedKeeps(home, cap, w, x);
    TakenIsShadowed(home, keys, live, w, x, n);
    assert NonEmpty(keys') == NonEmpty(keys) + {s};
    LivePlaced(home, keys, live, x, n);
    PathsGrow(home, cap, live, NonEmpty(keys), x, n, NonEmpty(keys'));
    forall b | 0 <= b < cap
      ensures |Crossing(home, cap, live', b)| <= |Crossing(home, cap, w'.place, b)|
    {
      InsertFlow(home, keys, live, w, x, n, b);
    }
  }

  /** Inserting the sentinel id 1 only leaves a tombstone. */
  lemma InsertTombKeeps(home: nat -> nat, keys: seq<nat>, live: Placement, w: Shadow, n: nat)
    requires Dominated(home, keys, live, w) && TakesSlot(home, keys, TOMB, n)
    requires TOMB !in w.place ==> |w.filled| < |keys|
    ensures Dominated(home, keys[At(home(TOMB), n, |keys|) := TOMB], live, Shadowed(home, |keys|, w, TOMB))
  {
    var s := At(home(TOMB), n, |keys|);
    ShadowedKeeps(home, |keys|, w, TOMB);
    TakenIsShadowed(home, keys, live, w, TOMB, n);
    assert NonEmpty(keys[s := TOMB]) == NonEmpty(keys) + {s};
    ShadowGrows(home, |keys|, live, w, TOMB);
  }

  /** No live id's path runs over slot s. */
  ghost predicate OffPaths(home: nat -> nat, cap: nat, live: Placement, s: nat)
    requires s < cap
  {
    forall k :: k in live && home(k) < cap && live[k] < cap ==> Dist(home(k), live[k], cap) < Dist(home(k), s, cap)
  }

  /** Emptying a slot that holds no live id leaves every live id reachable exactly when the slot is on no live id's
      path; an empty slot is on none. */
  lemma EmptyingKeepsIff(home: nat -> nat, keys: seq<nat>, live: Placement, s: nat)
    requires Fits(home, |keys|, live) && PathsTaken(home, |keys|, live, NonEmpty(keys))
    requires s < |keys| && keys[s] <= TOMB
    ensures PathsTaken(home, |keys|, live, NonEmpty(keys[s := EMPTY])) <==> OffPaths(home, |keys|, live, s)
    ensures keys[s] == EMPTY ==> OffPaths(home, |keys|, live, s)
  {
    var cap := |keys|;
    assert NonEmpty(keys[s := EMPTY]) == NonEmpty(keys) - {s};
    if PathsTaken(home, cap, live, NonEmpty(keys) - {s}) {
      forall k | k in live && home(k) < cap && live[k] < cap
        ensures Dist(home(k), live[k], cap) < Dist(home(k), s, cap)
      {
        assert At(home(k), Dist(home(k), s, cap), cap) == s;
      }
    }
    if OffPaths(home, cap, live, s) {
      forall k, d | k in live && 0 <= d <= Dist(home(k), live[k], cap)
        ensures At(home(k), d, cap) in NonEmpty(keys) - {s}
      {
        DistAt(home(k), d, cap);
      }
    }
    assert keys[s] == EMPTY ==> NonEmpty(keys) - {s} == NonEmpty(keys);
  }

  /** Storing the empty mark 0 in the slot it takes keeps the table dominated exactly when that slot is on no live
      id's path; where the probe met no tombstone it changes nothing. */
  lemma ZeroKeepsIff(home: nat -> nat, keys: seq<nat>, live: Placement, w: Shadow, n: nat)
    requires Dominated(home, keys, live, w) && TakesSlot(home, keys, EMPTY, n)
    ensures var s := At(home(EMPTY), n, |keys|);
      && (Dominated(home, keys[s := EMPTY], live, w) <==> OffPaths(home, |keys|, live, s))
      && (keys[s] == EMPTY ==> keys[s := EMPTY] == keys && OffPaths(home, |keys|, live, s))
  {
    var s := At(home(EMPTY), n, |keys|);
    EmptyingKeepsIff(home, keys, live, s);
    if OffPaths(home, |keys|, live, s) {
      EmptyingKeeps(home, keys, live, w, s);
    }
    assert keys[s] == EMPTY ==> keys[s := EMPTY] == keys;
  }

  lemma EmptyingKeeps(home: nat -> nat, keys: seq<nat>, live: Placement, w: Shadow, s: nat)
    requires Dominated(home, keys, live, w) && s < |keys| && keys[s] <= TOMB && OffPaths(home, |keys|, live, s)
    ensures Dominated(home, keys[s := EMPTY], live, w)
  {
    EmptyingKeepsIff(home, keys, live, s);
    assert LiveMatches(keys[s := EMPTY], live);
    assert NonEmpty(keys[s := EMPTY]) <= NonEmpty(keys);
  }

  lemma ShadowGrows(home: nat -> nat, cap: nat, live: Placement, w: Shadow, x: nat)
    requires Fits(home, cap, live) && Shading(home, cap, w) && home(x) < cap
    requires x !in w.place ==> |w.filled| < cap
    requires PushesLess(home, cap, live, w.place)
    ensures Fits(home, cap, Shadowed(home, cap, w, x).place)
    ensures PushesLess(home, cap, live, Shadowed(home, cap, w, x).place)
  {
    ShadowedKeeps(home, cap, w, x);
    forall b | 0 <= b < cap
      ensures |Crossing(home, cap, live, b)| <= |Crossing(home, cap, Shadowed(home, cap, w, x).place, b)|
    {
      if x !in w.place {
        var f := ShadowSlot(home, cap, w, x);
        CrossingGrows(home, cap, w.place, x, At(home(x), f, cap), b);
      }
    }
  }

  /** Erasing a live id leaves a tombstone and keeps the table dominated by the shadow. */
  lemma EraseKeeps(home: nat -> nat, keys: seq<nat>, live: Placement, w: Shadow, s: nat)
    requires Dominated(home, keys, live, w) && s < |keys| && keys[s] > TOMB
    ensures Dominated(home, keys[s := TOMB], live - {keys[s]}, w)
  {
    var cap := |keys|;
    var keys', live' := keys[s := TOMB], live - {keys[s]};
    assert NonEmpty(keys') == NonEmpty(keys);
    assert LiveMatches(keys', live');
    forall b | 0 <= b < cap
      ensures |Crossing(home, cap, live', b)| <= |Crossing(home, cap, w.place, b)|
    {
      SubsetSize(Crossing(home, cap, live', b), Crossing(home, cap, live, b));
    }
  }

  // ----- The same facts, carried without being unfolded -----

  /** `Dominated`, sealed: methods pass it along and only the lemmas below open it. */
  ghost predicate Sound(home: nat -> nat, keys: seq<nat>, live: Placement, w: Shadow) {
    forall z {:trigger Peek(z)} :: Peek(z) ==> Dominated(home, keys, live, w)
  }

  lemma SoundBound(home: nat -> nat, keys: seq<nat>, live: Placement, w: Shadow)
    requires Sound(home, keys, live, w)
    ensures |NonEmpty(keys)| <= |w.place| && live.Keys <= w.place.Keys
  {
    assert Peek(0);
    NonEmptyBound(home, keys, live, w);
  }

  lemma SoundZeroIff(home: nat -> nat, keys: seq<nat>, live: Placement, w: Shadow, n: nat)
    requires Sound(home, keys, live, w) && TakesSlot(home, keys, EMPTY, n)
    ensures var s := At(home(EMPTY), n, |keys|);
      && (Dominated(home, keys[s := EMPTY], live, w) <==> OffPaths(home, |keys|, live, s))
      && (keys[s] == EMPTY ==> OffPaths(home, |keys|, live, s))
  {
    assert Peek(0);
    ZeroKeepsIff(home, keys, live, w, n);
  }

  lemma SoundInsertLive(home: nat -> nat, keys: seq<nat>, live: Placement, w: Shadow, x: nat, n: nat)
      returns (w': Shadow)
    requires Sound(home, keys, live, w) && x > TOMB && x !in live && TakesSlot(home, keys, x, n)
    requires |w.place.Keys + {x}| < |keys|
    ensures w'.place.Keys == w.place.Keys + {x}
    ensures var s := At(home(x), n, |keys|);
            Sound(home, keys[s := x], live[x := s], w') && LiveMatches(keys[s := x], live[x := s])
  {
    assert Peek(0);
    SubsetSize(w.place.Keys, w.place.Keys + {x});
    w' := Shadowed(home, |keys|, w, x);
    ShadowedKeeps(home, |keys|, w, x);
    var s := At(home(x), n, |keys|);
    InsertKeeps(home, keys, live, w, x, n);
  }

  lemma SoundInsertTomb(home: nat -> nat, keys: seq<nat>, live: Placement, w: Shadow, n: nat)
      returns (w': Shadow)
    requires Sound(home, keys, live, w) && TakesSlot(home, keys, TOMB, n)
    requires |w.place.Keys + {TOMB}| < |keys|
    ensures w'.place.Keys == w.place.Keys + {TOMB}
    ensures var s := At(home(TOMB), n, |keys|);
            Sound(home, keys[s := TOMB], live, w') && LiveMatches(keys[s := TOMB], live)
  {
    assert Peek(0);
    SubsetSize(w.place.Keys, w.place.Keys + {TOMB});
    w' := Shadowed(home, |keys|, w, TOMB);
    ShadowedKeeps(home, |keys|, w, TOMB);
    InsertTombKeeps(home, keys, live, w, n);
  }

  /** The ids that an insertion counts: 0 marks empty slots and is none. */
  function Counted(x: nat): set<nat> {
    if x == EMPTY then {} else {x}
  }

  lemma SoundInsert(home: nat -> nat, keys: seq<nat>, live: Placement, w: Shadow, x: nat, n: nat)
      returns (w': Shadow)
    requires Sound(home, keys, live, w) && x !in live && TakesSlot(home, keys, x, n)
    requires |w.place.Keys + Counted(x)| < |keys|
    requires x == EMPTY ==> OffPaths(home, |keys|, live, At(home(x), n, |keys|))
    ensures w'.place.Keys == w.place.Keys + Counted(x)
    ensures var keys' := keys[At(home(x), n, |keys|) := x];
            var live' := if x > TOMB then live[x := At(home(x), n, |keys|)] else live;
            Sound(home, keys', live', w') && LiveMatches(keys', live')
  {
    if x > TOMB {
      w' := SoundInsertLive(home, keys, live, w, x, n);
    } else if x == TOMB {
      w' := SoundInsertTomb(home, keys, live, w, n);
    } else {
      assert Peek(0);
      ZeroKeepsIff(home, keys, live, w, n);
      w' := w;
    }
  }

  lemma SoundErase(home: nat -> nat, keys: seq<nat>, live: Placement, w: Shadow, s: nat)
    requires Sound(home, keys, live, w) && s < |keys| && keys[s] > TOMB
    ensures Sound(home, keys[s := TOMB], live - {keys[s]}, w)
    ensures LiveMatches(keys[s := TOMB], live - {keys[s]})
  {
    assert Peek(0);
    EraseKeeps(home, keys, live, w, s);
  }

  lemma SoundEmptyAhead(home: nat -> nat, keys: seq<nat>, live: Placement, w: Shadow, from: nat) returns (d: nat)
    requires Sound(home, keys, live, w) && |w.place.Keys| < |keys| && from < |keys|
    ensures d < |keys| && keys[At(from, d, |keys|)] == EMPTY
  {
    assert Peek(0);
    d := EmptyAhead(home, keys, live, w, from);
  }

  ghost predicate Unseen(home: nat -> nat, keys: seq<nat>, id: nat, j: nat)
    requires home(id) < |keys| && j <= |keys|
  {
    forall d :: 0 <= d < j ==>
      var k := keys[At(home(id), d, |keys|)]; k != EMPTY && (id > TOMB ==> k != id)
  }

  /** A lookup of the id answers that it is absent: its probe meets an empty slot first. */
  ghost predicate Missed(home: nat -> nat, keys: seq<nat>, id: nat) {
    home(id) < |keys| &&
    exists j :: 0 <= j < |keys| && Unseen(home, keys, id, j) && keys[At(home(id), j, |keys|)] == EMPTY
  }

  lemma MissedAt(home: nat -> nat, keys: seq<nat>, id: nat, j: nat)
    requires home(id) < |keys| && j < |keys| && Unseen(home, keys, id, j) && keys[At(home(id), j, |keys|)] == EMPTY
    ensures Missed(home, keys, id)
  {
  }

  lemma MetNotMissed(home: nat -> nat, keys: seq<nat>, id: nat, j: nat)
    requires home(id) < |keys| && j < |keys| && Unseen(home, keys, id, j) && keys[At(home(id), j, |keys|)] == id
    requires id > TOMB
    ensures !Missed(home, keys, id)
  {
  }

  /** Emptying a slot of a table makes lookups miss some live id exactly when the slot is on a live id's path. */
  lemma CutOffIff(home: nat -> nat, keys: seq<nat>, live: Placement, w: Shadow, s: nat)
    requires Dominated(home, keys, live, w) && s < |keys| && keys[s] <= TOMB
    ensures OffPaths(home, |keys|, live, s) <==> forall id :: id in live ==> !Missed(home, keys[s := EMPTY], id)
  {
    var left := keys[s := EMPTY];
    if OffPaths(home, |keys|, live, s) {
      EmptyingKeeps(home, keys, live, w, s);
      forall id | id in live && Missed(home, left, id) ensures false {
        MissedIsAbsent(home, left, live, w, id);
      }
    } else {
      var id :| id in live && home(id) < |keys| && live[id] < |keys|
                && Dist(home(id), live[id], |keys|) >= Dist(home(id), s, |keys|);
      CutOff(home, keys, live, w, s, id);
    }
  }

  /** The probe of a live id stops at an emptied slot on its path. */
  lemma CutOff(home: nat -> nat, keys: seq<nat>, live: Placement, w: Shadow, s: nat, id: nat)
    requires Dominated(home, keys, live, w) && s < |keys|
    requires id in live && Dist(home(id), live[id], |keys|) >= Dist(home(id), s, |keys|)
    ensures Missed(home, keys[s := EMPTY], id)
  {
    var cap, left := |keys|, keys[s := EMPTY];
    var j := Dist(home(id), s, cap);
    AtDist(home(id), s, cap);
    forall d | 0 <= d < j ensures left[At(home(id), d, cap)] != EMPTY && left[At(home(id), d, cap)] != id {
      DistAt(home(id), d, cap);
      assert At(home(id), d, cap) in NonEmpty(keys);
    }
    MissedAt(home, left, id, j);
  }

  lemma MissedIsAbsent(home: nat -> nat, keys: seq<nat>, live: Placement, w: Shadow, id: nat)
    requires Dominated(home, keys, live, w) && Missed(home, keys, id)
    ensures id !in live
  {
    var j :| 0 <= j < |keys| && Unseen(home, keys, id, j) && keys[At(home(id), j, |keys|)] == EMPTY;
    if id in live {
      LivePathOpen(home, keys, live, w, id, j);
    }
  }

  lemma SoundCutOffIff(home: nat -> nat, keys: seq<nat>, live: Placement, w: Shadow, s: nat)
    requires Sound(home, keys, live, w) && s < |keys| && keys[s] <= TOMB
    ensures OffPaths(home, |keys|, live, s) <==> forall id :: id in live ==> !Missed(home, keys[s := EMPTY], id)
  {
    assert Peek(0);
    CutOffIff(home, keys, live, w, s);
  }

  /** The probe path of a live id is open at least up to its slot. */
  lemma LivePathOpen(home: nat -> nat, keys: seq<nat>, live: Placement, w: Shadow, id: nat, j: nat)
    requires Dominated(home, keys, live, w) && j < |keys| && Unseen(home, keys, id, j) && id in live
    ensures keys[At(home(id), j, |keys|)] != EMPTY
  {
    var d := Dist(home(id), live[id], |keys|);
    assert At(home(id), d, |keys|) == live[id];
    assert j <= d;
    assert At(home(id), j, |keys|) in NonEmpty(keys);
  }

  /** An empty slot on an id's probe path proves the id absent. */
  lemma AbsentWhenEmpty(home: nat -> nat, keys: seq<nat>, live: Placement, w: Shadow, id: nat, j: nat)
    requires Sound(home, keys, live, w) && home(id) < |keys|
    requires j < |keys| && Unseen(home, keys, id, j) && keys[At(home(id), j, |keys|)] == EMPTY
    ensures id !in live
  {
    assert Peek(0);
    if id in live {
      LivePathOpen(home, keys, live, w, id, j);
    }
  }
}
