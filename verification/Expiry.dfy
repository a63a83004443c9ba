/** The lazy min-heap of expiry times (extras/citadel_interview/main.cpp:254-262): std::priority_queue as
    a multiset from which any entry of least time may be taken. */
module ExpiryHeap {
  datatype Exp = Exp(expireAt: nat, id: nat)

  ghost predicate Least(top: Exp, q: multiset<Exp>) {
    top in q && forall e :: e in q ==> top.expireAt <= e.expireAt
  }

  lemma {:induction false} LeastExists(q: multiset<Exp>)
    requires q != multiset{}
    ensures exists top :: Least(top, q)
    decreases |q|
  {
    var e :| e in q;
    var rest := q - multiset{e};
    if rest == multiset{} {
      forall d | d in q ensures d == e {
        assert d == e || d in rest;
      }
      assert Least(e, q);
    } else {
      LeastExists(rest);
      var t :| Least(t, rest);
      forall d | d in q ensures d == e || d in rest {}
      assert Least(if t.expireAt <= e.expireAt then t else e, q);
    }
  }

  method Top(q: multiset<Exp>) returns (top: Exp)
    requires q != multiset{}
    ensures Least(top, q)
  {
    LeastExists(q);
    top :| top in q && forall e :: e in q ==> top.expireAt <= e.expireAt;
  }
}

/** What an expiry structure owes the entries it covers, on values. */
module Expiry {
  import Circle
  import opened ReconcilerSpec
  import opened TimedEntries
  import opened ExpiryHeap
  import opened Sealing

  /** Every kept entry is in the heap under its current expiry time; stale pairs may be there too. */
  ghost predicate Scheduled(m: map<nat, Timed>, expiry: multiset<Exp>, w: nat) {
    forall z {:trigger Peek(z)} :: Peek(z) ==>
      forall id :: id in m ==> m[id].expireAt == m[id].first + w && Exp(m[id].expireAt, id) in expiry
  }

  lemma ScheduleOne(m: map<nat, Timed>, expiry: multiset<Exp>, w: nat, id: nat, ent: Timed)
    requires Scheduled(m, expiry, w) && ent.expireAt == ent.first + w
    ensures Scheduled(m[id := ent], expiry + multiset{Exp(ent.expireAt, id)}, w)
  {
    assert Peek(0);
  }

  lemma ScheduleMore(m: map<nat, Timed>, expiry: multiset<Exp>, w: nat, e: Exp)
    requires Scheduled(m, expiry, w)
    ensures Scheduled(m, expiry + multiset{e}, w)
  {
    assert Peek(0);
  }

  /** The map between was and what a timer at `now` must leave of it. */
  ghost predicate Draining(was: map<nat, Timed>, m: map<nat, Timed>, now: nat) {
    && (forall id :: id in m ==> id in was && m[id] == was[id])
    && (forall id :: id in was && was[id].expireAt > now ==> id in m)
  }

  lemma PopKeeps(was: map<nat, Timed>, m: map<nat, Timed>, expiry: multiset<Exp>, w: nat, now: nat, top: Exp)
    requires Scheduled(m, expiry, w) && Draining(was, m, now) && top in expiry && top.expireAt <= now
    ensures var stale := !(top.id in m && m[top.id].expireAt == top.expireAt);
            var left := if stale then m else m - {top.id};
            Scheduled(left, expiry - multiset{top}, w) && Draining(was, left, now)
  {
    assert Peek(0);
  }

  lemma Drained(was: map<nat, Timed>, expiry0: multiset<Exp>, m: map<nat, Timed>, expiry: multiset<Exp>,
                w: nat, now: nat, s: State)
    requires Scheduled(m, expiry, w) && Draining(was, m, now) && s.entries == PlainMap(was)
    requires Scheduled(was, expiry0, w)
    requires forall e :: e in expiry ==> e.expireAt > now
    ensures OnTimer(w, s, now) == State(PlainMap(m), s.alerts, now)
  {
    assert Peek(0);
    forall id | id in m ensures now < m[id].expireAt {
      assert Exp(m[id].expireAt, id).expireAt > now;
    }
    PlainExpired(was, m, w, now, s);
  }

  // ----- Timer wheel -----

  /** What a wheel reconciler keeps: entries, buckets of ids, the alert count and the time of the last timer. */
  datatype WheelState = WheelState(entries: map<nat, Timed>, wheel: seq<seq<nat>>, alerts: nat, lastTimer: nat)
  {
    ghost function Plain(): State { State(PlainMap(entries), alerts, lastTimer) }
  }

  function EmptyWheel(n: nat): WheelState {
    WheelState(map[], seq(n, _ => []), 0, 0)
  }

  /** The ids of a bucket, one after the other: those due by t are dropped. */
  function SweepIds(m: map<nat, Timed>, ids: seq<nat>, t: nat): map<nat, Timed>
    decreases |ids|
  {
    if ids == [] then m
    else
      var left := SweepIds(m, ids[..|ids| - 1], t);
      var id := ids[|ids| - 1];
      if id in left && left[id].expireAt <= t then left - {id} else left
  }

  /** The buckets of the times after `from` up to `upTo`: each is swept and cleared. */
  function SweepBuckets(m: map<nat, Timed>, wheel: seq<seq<nat>>, from: nat, upTo: nat)
      : (map<nat, Timed>, seq<seq<nat>>)
    requires |wheel| > 0
    ensures |SweepBuckets(m, wheel, from, upTo).1| == |wheel|
    decreases upTo
  {
    if upTo <= from then (m, wheel)
    else
      var (left, rest) := SweepBuckets(m, wheel, from, upTo - 1);
      (SweepIds(left, rest[upTo % |rest|], upTo), rest[upTo % |rest| := []])
  }

  /** onTimer of the wheel reconcilers, whatever the buckets hold and wherever time has gone. */
  function WheelTimer(s: WheelState, now: nat): WheelState
    requires |s.wheel| > 0
  {
    var (left, wheel) := SweepBuckets(s.entries, s.wheel, s.lastTimer, now);
    WheelState(left, wheel, s.alerts, now)
  }

  function Scheduling(wheel: seq<seq<nat>>, id: nat, due: nat): seq<seq<nat>>
    requires |wheel| > 0
  {
    wheel[due % |wheel| := wheel[due % |wheel|] + [id]]
  }

  /** Every kept entry waits in the bucket of its expiry, which is at most one turn away. */
  ghost predicate Covered(s: WheelState, w: nat) {
    Pending(s.entries, s.wheel, w, s.lastTimer, s.lastTimer + |s.wheel|)
  }

  /** Every kept entry is due within (lo, hi] and its id waits in the bucket of its expiry time. */
  ghost predicate Pending(m: map<nat, Timed>, wheel: seq<seq<nat>>, w: nat, lo: int, hi: int) {
    forall z {:trigger Peek(z)} :: Peek(z) ==>
      && |wheel| > 0
      && forall id :: id in m ==>
           && lo < m[id].expireAt <= hi
           && m[id].expireAt == m[id].first + w
           && id in wheel[m[id].expireAt % |wheel|]
  }

  /** The same while the bucket of time t is swept and its first i ids are done. */
  ghost predicate Sweeping(m: map<nat, Timed>, wheel: seq<seq<nat>>, w: nat, t: nat, i: nat, hi: int) {
    forall z {:trigger Peek(z)} :: Peek(z) ==>
      && |wheel| > 0 && i <= |wheel[t % |wheel|]|
      && forall id :: id in m ==>
           && t <= m[id].expireAt <= hi
           && m[id].expireAt == m[id].first + w
           && id in wheel[m[id].expireAt % |wheel|]
           && (m[id].expireAt == t ==> id in wheel[t % |wheel|][i..])
  }

  lemma StartSweep(m: map<nat, Timed>, wheel: seq<seq<nat>>, w: nat, t: nat, hi: int)
    requires Pending(m, wheel, w, t - 1, hi)
    ensures Sweeping(m, wheel, w, t, 0, hi)
  {
    assert Peek(0);
    assert wheel[t % |wheel|][0..] == wheel[t % |wheel|];
  }

  lemma SweepOne(was: map<nat, Timed>, m: map<nat, Timed>, wheel: seq<seq<nat>>, w: nat, t: nat, i: nat,
                 hi: int, now: nat)
    requires |wheel| > 0 && i < |wheel[t % |wheel|]| && t <= now
    requires Sweeping(m, wheel, w, t, i, hi) && Draining(was, m, now)
    ensures var id := wheel[t % |wheel|][i];
            var left := if id in m && m[id].expireAt <= t then m - {id} else m;
            Sweeping(left, wheel, w, t, i + 1, hi) && Draining(was, left, now)
  {
    assert Peek(0);
    var bucket := wheel[t % |wheel|];
    assert bucket[i..] == [bucket[i]] + bucket[i + 1..];
  }

  /** Clearing a bucket loses nobody: an id waiting there for a later round would be due more than a
      full turn of the wheel from now. */
  lemma EndSweep(m: map<nat, Timed>, wheel: seq<seq<nat>>, w: nat, t: nat, hi: int)
    requires |wheel| > 0 && hi < t + |wheel|
    requires Sweeping(m, wheel, w, t, |wheel[t % |wheel|]|, hi)
    ensures Pending(m, wheel[t % |wheel| := []], w, t, hi)
  {
    assert Peek(0);
    forall id | id in m
      ensures t < m[id].expireAt && m[id].expireAt % |wheel| != t % |wheel|
    {
      assert wheel[t % |wheel|][|wheel[t % |wheel|]|..] == [];
      DifferentBuckets(t, m[id].expireAt, |wheel|);
    }
  }

  lemma DifferentBuckets(t: nat, e: nat, n: nat)
    requires t < e < t + n
    ensures e % n != t % n
  {
    var q := e / n - t / n;
    assert e % n - t % n == (e - t) - n * q;
    assert q >= 1 ==> n * q >= n;
    assert q <= -1 ==> n * q <= 0 - n;
  }

  lemma Widen(m: map<nat, Timed>, wheel: seq<seq<nat>>, w: nat, lo: int, hi: int, hi': int)
    requires Pending(m, wheel, w, lo, hi) && hi <= hi'
    ensures Pending(m, wheel, w, lo, hi')
  {
    assert Peek(0);
  }

  lemma {:induction false} SweepIdsKeeps(was: map<nat, Timed>, m: map<nat, Timed>, wheel: seq<seq<nat>>, w: nat,
                                         t: nat, i: nat, hi: int, now: nat)
    requires |wheel| > 0 && i <= |wheel[t % |wheel|]| && t <= now
    requires Pending(m, wheel, w, t - 1, hi) && Draining(was, m, now)
    ensures var left := SweepIds(m, wheel[t % |wheel|][..i], t);
      Sweeping(left, wheel, w, t, i, hi) && Draining(was, left, now)
    decreases i
  {
    var bucket := wheel[t % |wheel|];
    if i == 0 {
      StartSweep(m, wheel, w, t, hi);
    } else {
      SweepIdsKeeps(was, m, wheel, w, t, i - 1, hi, now);
      assert bucket[..i][..i - 1] == bucket[..i - 1];
      SweepOne(was, SweepIds(m, bucket[..i - 1], t), wheel, w, t, i - 1, hi, now);
    }
  }

  lemma {:induction false} SweepBucketsKeeps(m: map<nat, Timed>, wheel: seq<seq<nat>>, w: nat,
                                             from: nat, upTo: nat, now: nat)
    requires Pending(m, wheel, w, from, from + |wheel|) && |wheel| > 0 && from <= upTo <= now
    ensures var (left, rest) := SweepBuckets(m, wheel, from, upTo);
      Pending(left, rest, w, upTo, from + |wheel|) && Draining(m, left, now)
    decreases upTo
  {
    if from >= upTo {
    } else {
      SweepBucketsKeeps(m, wheel, w, from, upTo - 1, now);
      var (left, rest) := SweepBuckets(m, wheel, from, upTo - 1);
      var bucket := rest[upTo % |rest|];
      assert bucket[..|bucket|] == bucket;
      SweepIdsKeeps(m, left, rest, w, upTo, |bucket|, from + |wheel|, now);
      EndSweep(SweepIds(left, bucket, upTo), rest, w, upTo, from + |wheel|);
    }
  }

  /** While every entry is covered and time does not run back, sweeping and clearing whole buckets removes exactly the
      entries that a full scan removes, and the rest stay covered. */
  lemma TimerSimulates(s: WheelState, w: nat, now: nat)
    requires |s.wheel| > 0 && Covered(s, w) && s.lastTimer <= now
    ensures WheelTimer(s, now).Plain() == OnTimer(w, s.Plain(), now) && Covered(WheelTimer(s, now), w)
  {
    assert forall id :: id in s.entries ==> s.entries[id].expireAt == s.entries[id].first + w by { assert Peek(0); }
    SweepBucketsKeeps(s.entries, s.wheel, w, s.lastTimer, now, now);
    var (left, wheel) := SweepBuckets(s.entries, s.wheel, s.lastTimer, now);
    Swept(s.entries, left, wheel, w, s.lastTimer + |s.wheel|, now, s.Plain());
    Widen(left, wheel, w, now, s.lastTimer + |s.wheel|, now + |s.wheel|);
  }

  lemma Swept(was: map<nat, Timed>, m: map<nat, Timed>, wheel: seq<seq<nat>>, w: nat, hi: int, now: nat, s: State)
    requires (forall id :: id in was ==> was[id].expireAt == was[id].first + w)
    requires Pending(m, wheel, w, now, hi) && Draining(was, m, now) && s.entries == PlainMap(was)
    ensures OnTimer(w, s, now) == State(PlainMap(m), s.alerts, now)
  {
    assert Peek(0);
    PlainExpired(was, m, w, now, s);
  }

  lemma WheelStart(n: nat, w: nat)
    requires n > 0
    ensures Covered(EmptyWheel(n), w)
  {
  }

  lemma WheelDue(m: map<nat, Timed>, wheel: seq<seq<nat>>, w: nat, lo: int, hi: int, id: nat)
    requires Pending(m, wheel, w, lo, hi) && id in m
    ensures m[id].expireAt == m[id].first + w
  {
    assert Peek(0);
  }

  /** A new window is put into the bucket of its expiry. */
  lemma WheelOpen(m: map<nat, Timed>, wheel: seq<seq<nat>>, w: nat, lo: int, hi: int, id: nat, ent: Timed)
    requires Pending(m, wheel, w, lo, hi) && |wheel| > 0
    requires lo < ent.expireAt <= hi && ent.expireAt == ent.first + w
    ensures var b := ent.expireAt % |wheel|;
            Pending(m[id := ent], wheel[b := wheel[b] + [id]], w, lo, hi)
  {
    assert Peek(0);
  }

  /** A bucket may hold ids that nobody keeps. */
  lemma WheelCrowd(m: map<nat, Timed>, wheel: seq<seq<nat>>, w: nat, lo: int, hi: int, b: nat, id: nat)
    requires Pending(m, wheel, w, lo, hi) && b < |wheel|
    ensures Pending(m, wheel[b := wheel[b] + [id]], w, lo, hi)
  {
    assert Peek(0);
  }

  /** A later event of the same window leaves the schedule alone. */
  lemma WheelKeep(m: map<nat, Timed>, wheel: seq<seq<nat>>, w: nat, lo: int, hi: int, id: nat, ent: Timed)
    requires Pending(m, wheel, w, lo, hi) && id in m
    requires ent.first == m[id].first && ent.expireAt == m[id].expireAt
    ensures Pending(m[id := ent], wheel, w, lo, hi)
  {
    assert Peek(0);
  }

  /** One turn is the limit: an id due a full turn after t is in no bucket of its due time any more once the bucket of
      t is cleared. */
  lemma FullTurnIsLost(wheel: seq<seq<nat>>, t: nat, id: nat)
    requires |wheel| > 0
    ensures id !in wheel[t % |wheel| := []][(t + |wheel|) % |wheel|]
  {
    Circle.OneTurn(t, |wheel|);
  }

  ghost predicate InNoBucket(wheel: seq<seq<nat>>, id: nat) {
    forall b :: 0 <= b < |wheel| ==> id !in wheel[b]
  }

  /** An entry whose id is in no bucket outlives every timer, however late. */
  lemma {:induction false} LostStays(m: map<nat, Timed>, wheel: seq<seq<nat>>, from: nat, upTo: nat, id: nat)
    requires |wheel| > 0 && InNoBucket(wheel, id) && id in m
    ensures var (left, rest) := SweepBuckets(m, wheel, from, upTo);
      InNoBucket(rest, id) && id in left && left[id] == m[id]
    decreases upTo
  {
    if from >= upTo {
    } else {
      LostStays(m, wheel, from, upTo - 1, id);
      var (left, rest) := SweepBuckets(m, wheel, from, upTo - 1);
      OtherIdsStay(left, rest[upTo % |rest|], upTo, id);
    }
  }

  /** Two sweeps one after the other are one. */
  lemma {:induction false} SweepOn(m: map<nat, Timed>, wheel: seq<seq<nat>>, from: nat, mid: nat, upTo: nat)
    requires |wheel| > 0 && from <= mid <= upTo
    ensures var (left, rest) := SweepBuckets(m, wheel, from, mid);
      SweepBuckets(left, rest, mid, upTo) == SweepBuckets(m, wheel, from, upTo)
    decreases upTo
  {
    if mid >= upTo {
    } else {
      SweepOn(m, wheel, from, mid, upTo - 1);
    }
  }

  lemma {:induction false} OtherIdsStay(m: map<nat, Timed>, ids: seq<nat>, t: nat, id: nat)
    requires id in m && (id !in ids || t < m[id].expireAt)
    ensures id in SweepIds(m, ids, t) && SweepIds(m, ids, t)[id] == m[id]
    decreases |ids|
  {
    if ids == [] {
    } else {
      OtherIdsStay(m, ids[..|ids| - 1], t, id);
    }
  }
}
