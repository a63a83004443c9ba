/**
  The double-ring scheme of topics/concurrency/notes_spsc_bump_vs_double_ring.cpp (lines 180-226, one buffer at a
  time): a producer takes buffers from a free ring, fills them and puts them on a used ring; a consumer
  takes them from there and puts them back. Both rings are SpscRing's, so each thread runs the steps of one
  side of each ring, interleaved in any way and with any stale views. Buffers are named by their place in the pool.
*/
module DoubleRing {
  import opened Options
  import opened Sealing
  import F = BoundedFifo
  import R = SpscRing

  type Ring = R.Ring<nat>

  datatype World = World(
    free: Ring,
    used: Ring,
    filling: Option<nat>,    // the buffer in the producer's hand
    draining: Option<nat>    // the buffer in the consumer's hand
  )

  datatype Step =
    | ProducerPop(step: R.Step<nat>)    // a step of free_ring.pop(buf)
    | ProducerPush(step: R.Step<nat>)   // a step of used_ring.push(buf), repeated until it succeeds
    | ConsumerPop(step: R.Step<nat>)    // a step of used_ring.pop(buf)
    | ConsumerPush(step: R.Step<nat>)   // a step of free_ring.push(buf), repeated until it succeeds

  predicate IsPop(step: R.Step<nat>) {
    step.PopLoad? || step.PopCheck? || step.PopRead? || step.PopStore?
  }

  /** Pops happen empty-handed; what a finished pop returned is then in hand. */
  predicate MayPop(hand: Option<nat>, step: R.Step<nat>) {
    hand.None? && IsPop(step)
  }

  function HandAfterPop(ring: Ring, step: R.Step<nat>): Option<nat> {
    if step.PopStore? && ring.consumer.CRead? then Some(ring.consumer.value) else None
  }

  /** Pushes put down what is in hand; a failed one is begun again. */
  predicate MayPush(hand: Option<nat>, step: R.Step<nat>) {
    hand.Some? && !IsPop(step) && (step.PushLoad? ==> step.value == hand.value)
  }

  function HandAfterPush(ring: Ring, hand: Option<nat>, step: R.Step<nat>): Option<nat> {
    if step.PushStore? && ring.producer.PWritten? then None else hand
  }

  /** One step; a step that its thread cannot take changes nothing. */
  function Apply(w: World, step: Step): World {
    match step
    case ProducerPop(step) =>
      if !MayPop(w.filling, step) then w
      else w.(free := R.Apply(w.free, step), filling := HandAfterPop(w.free, step))
    case ProducerPush(step) =>
      if !MayPush(w.filling, step) then w
      else w.(used := R.Apply(w.used, step), filling := HandAfterPush(w.used, w.filling, step))
    case ConsumerPop(step) =>
      if !MayPop(w.draining, step) then w
      else w.(used := R.Apply(w.used, step), draining := HandAfterPop(w.used, step))
    case ConsumerPush(step) =>
      if !MayPush(w.draining, step) then w
      else w.(free := R.Apply(w.free, step), draining := HandAfterPush(w.free, w.draining, step))
  }

  /** The start-up loop: nobody else is at work while it tries to push the first n buffers of the pool. */
  function FillSteps(n: nat): seq<R.Step<nat>> {
    if n == 0 then []
    else FillSteps(n - 1) + [R.PushLoad(n - 1), R.PushCheck(0), R.PushWrite, R.PushStore]
  }

  /** One of its pushes, in two halves. */
  function Asked(s: Ring, value: nat): Ring {
    R.Apply(R.Apply(s, R.PushLoad(value)), R.PushCheck(0))
  }

  function Put(s: Ring): Ring {
    R.Apply(R.Apply(s, R.PushWrite), R.PushStore)
  }

  /** The check with an up-to-date load of the other side's index. */
  function FreshCheck(s: Ring): R.Step<nat> {
    R.PushCheck(if s.readIdx == [] then 0 else |s.readIdx| - 1)
  }

  /** The world after the start-up loop and any interleaving of the two threads' steps. */
  function Run(slots: seq<nat>, pool: nat, steps: seq<Step>): World
    decreases |steps|
  {
    if steps == [] then World(R.Run(slots, FillSteps(pool)), R.Start(slots), None, None)
    else Apply(Run(slots, pool, steps[..|steps| - 1]), steps[|steps| - 1])
  }

  // ----- Start-up -----

  ghost predicate Alone(s: Ring) {
    R.Kept(s) && s.producer.PIdle? && s.consumer.CIdle? && |s.readIdx| == 1
  }

  /** The first half of an undisturbed push: it is granted when there is room, and changes nothing otherwise. */
  lemma AskAlone(s: Ring, value: nat)
    requires Alone(s)
    ensures var t := Asked(s, value);
      && R.Kept(t) && t.consumer.CIdle? && |t.readIdx| == 1 && |t.slots| == |s.slots| && R.Contents(t) == R.Contents(s)
      && (if |R.Contents(s)| < |s.slots| - 1
          then t.producer.PGranted? && t.producer.value == value else t.producer.PIdle?)
  {
    assert Look(0);
    R.StepKeeps(s, R.PushLoad(value));
    CheckAlone(R.Apply(s, R.PushLoad(value)));
  }

  lemma CheckAlone(s: Ring)
    requires R.Kept(s) && s.producer.PLoaded? && s.consumer.CIdle? && |s.readIdx| == 1
    ensures var t := R.Apply(s, R.PushCheck(0));
      && R.Kept(t) && t.consumer.CIdle? && |t.readIdx| == 1 && |t.slots| == |s.slots|
      && R.Contents(t) == R.Contents(s)
      && (if |R.Contents(s)| < |s.slots| - 1 then t.producer.PGranted? && t.producer.value == s.producer.value
          else t.producer.PIdle?)
  {
    assert Look(0);
    R.FullView(s, 0);
    R.ContentsLength(s);
    R.StepKeeps(s, R.PushCheck(0));
  }

  /** The second half: the slot and the index. */
  lemma PutAlone(s: Ring)
    requires R.Kept(s) && (s.producer.PIdle? || s.producer.PGranted?) && s.consumer.CIdle? && |s.readIdx| == 1
    ensures var t := Put(s);
      && Alone(t) && |t.slots| == |s.slots|
      && R.Contents(t) == if s.producer.PIdle? then R.Contents(s) else R.Contents(s) + [s.producer.value]
  {
    assert Look(0);
    R.StepKeeps(s, R.PushWrite);
    R.StepKeeps(R.Apply(s, R.PushWrite), R.PushStore);
  }

  ghost predicate Filled(s: Ring, size: nat, k: nat) {
    forall z {:trigger Peek(z)} :: Peek(z) ==>
      Alone(s) && |s.slots| == size && R.Contents(s) == First(k)
  }

  /** The free ring when the loop has tried to push n buffers. */
  ghost predicate StartedUp(slots: seq<nat>, n: nat) {
    forall z {:trigger Peek(z)} :: Peek(z) ==>
      Filled(R.Run(slots, FillSteps(n)), |slots|, Circulating(slots, n))
  }

  /** The start-up loop places min(POOL_SIZE, RING_SIZE - 1) buffers; its later pushes fail. */
  lemma {:induction false} FillHolds(slots: seq<nat>, n: nat)
    requires |slots| >= 2
    ensures StartedUp(slots, n)
  {
    if n == 0 {
      StartFilled(slots);
    } else {
      FillHolds(slots, n - 1);
      FillNext(slots, n);
    }
  }

  lemma FillNext(slots: seq<nat>, n: nat)
    requires |slots| >= 2 && n > 0 && StartedUp(slots, n - 1)
    ensures StartedUp(slots, n)
  {
    FillUnfolds(slots, n);
    var s, t := R.Run(slots, FillSteps(n - 1)), R.Run(slots, FillSteps(n));
    assert Filled(s, |slots|, Circulating(slots, n - 1)) by { assert Peek(0); }
    FillStep(s, |slots|, Circulating(slots, n - 1), n - 1, t);
  }

  /** t is s after one undisturbed push. */
  ghost predicate PushedAlone(s: Ring, value: nat, t: Ring) {
    forall z {:trigger Peek(z)} :: Peek(z) ==> t == Put(Asked(s, value))
  }

  lemma FillUnfolds(slots: seq<nat>, n: nat)
    requires n > 0
    ensures PushedAlone(R.Run(slots, FillSteps(n - 1)), n - 1, R.Run(slots, FillSteps(n)))
  {
    var a := FillSteps(n - 1);
    var b := a + [R.PushLoad(n - 1)];
    var c := b + [R.PushCheck(0)];
    var d := c + [R.PushWrite];
    R.RunSnoc(slots, a, R.PushLoad(n - 1));
    R.RunSnoc(slots, b, R.PushCheck(0));
    R.RunSnoc(slots, c, R.PushWrite);
    R.RunSnoc(slots, d, R.PushStore);
    assert FillSteps(n) == d + [R.PushStore];
  }

  lemma StartFilled(slots: seq<nat>)
    requires |slots| >= 2
    ensures Filled(R.Run(slots, FillSteps(0)), |slots|, 0)
  {
    R.StartOk(slots);
  }

  lemma FillStep(s: Ring, size: nat, k: nat, value: nat, t: Ring)
    requires Filled(s, size, k) && size >= 2 && (k < size - 1 ==> value == k) && PushedAlone(s, value, t)
    ensures Filled(t, size, if k < size - 1 then k + 1 else k)
  {
    assert Peek(0);
    AskAlone(s, value);
    PutAlone(Asked(s, value));
    FirstLength(k);
  }

  /** The first k buffers of the pool. */
  function First(k: nat): seq<nat> {
    if k == 0 then [] else First(k - 1) + [k - 1]
  }

  lemma {:induction false} FirstLength(k: nat)
    ensures |First(k)| == k
  {
    if k > 0 { FirstLength(k - 1); }
  }

  function Circulating(slots: seq<nat>, pool: nat): nat {
    if pool < |slots| then pool else if |slots| == 0 then 0 else |slots| - 1
  }

  // ----- The invariant -----

  function InHand(hand: Option<nat>): seq<nat> {
    if hand.Some? then [hand.value] else []
  }

  /** Where the buffers are. */
  ghost function Everywhere(w: World): multiset<nat> {
    multiset(R.Contents(w.free)) + multiset(R.Contents(w.used))
    + multiset(InHand(w.filling)) + multiset(InHand(w.draining))
  }

  /** A thread with a buffer in hand is pushing that one; one without is not pushing. */
  ghost predicate ThreadOk(hand: Option<nat>, from: Ring, to: Ring) {
    match hand
    case None => to.producer.PIdle?
    case Some(b) => from.consumer.CIdle? && (!to.producer.PIdle? ==> to.producer.value == b)
  }

  ghost predicate Inv(w: World, size: nat, k: nat) {
    && R.Kept(w.free) && R.Kept(w.used) && |w.free.slots| == size && |w.used.slots| == size
    && ThreadOk(w.filling, w.free, w.used) && ThreadOk(w.draining, w.used, w.free)
    && Whole(w, k)
  }

  /** The buffers everywhere are the first k, each once. */
  ghost predicate Whole(w: World, k: nat) {
    forall z {:trigger Peek(z)} :: Peek(z) ==> Everywhere(w) == multiset(First(k))
  }

  lemma MovesOut(before: seq<nat>, after: seq<nat>, hand: Option<nat>)
    requires hand.None? ==> before == after
    requires hand.Some? ==> before == [hand.value] + after
    ensures multiset(before) + multiset(InHand(None)) == multiset(after) + multiset(InHand(hand))
  {
  }

  /** A pop step touches the consumer's side only and moves at most the oldest buffer, into the hand. */
  lemma PopMoves(s: Ring, step: R.Step<nat>)
    requires R.Kept(s) && IsPop(step)
    ensures var t := R.Apply(s, step);
      var hand := HandAfterPop(s, step);
      && R.Kept(t) && |t.slots| == |s.slots| && t.producer == s.producer
      && Both(s, None) == Both(t, hand)
      && (hand.Some? ==> t.consumer.CIdle?)
  {
    R.StepKeeps(s, step);
    PopFrame(s, step);
    var t := R.Apply(s, step);
    MovesOut(R.Contents(s), R.Contents(t), HandAfterPop(s, step));
  }

  /** A push step touches the producer's side only and moves at most the buffer in hand, out of it. */
  lemma PushMoves(s: Ring, hand: Option<nat>, step: R.Step<nat>)
    requires R.Kept(s) && MayPush(hand, step) && (!s.producer.PIdle? ==> s.producer.value == hand.value)
    ensures var t := R.Apply(s, step);
      var left := HandAfterPush(s, hand, step);
      && R.Kept(t) && |t.slots| == |s.slots| && t.consumer == s.consumer
      && Both(t, left) == Both(s, hand)
      && (if left.None? then t.producer.PIdle?
          else left == hand && (!t.producer.PIdle? ==> t.producer.value == hand.value))
  {
    R.StepKeeps(s, step);
    PushFrame(s, step);
  }

  lemma PopFrame(s: Ring, step: R.Step<nat>)
    requires |s.slots| > 0 && s.writeIdx != [] && s.readIdx != [] && IsPop(step)
    ensures R.Apply(s, step).producer == s.producer
    ensures step.PopStore? && s.consumer.CRead? ==> R.Apply(s, step).consumer.CIdle?
  {
  }

  lemma PushFrame(s: Ring, step: R.Step<nat>)
    requires |s.slots| > 0 && s.writeIdx != [] && s.readIdx != [] && !IsPop(step)
    ensures var t := R.Apply(s, step);
      && t.consumer == s.consumer
      && (step.PushStore? && s.producer.PWritten? ==> t.producer.PIdle?)
      && (!t.producer.PIdle? ==>
           if s.producer.PIdle? then step.PushLoad? && t.producer.value == step.value
           else t.producer.value == s.producer.value)
  {
  }

  ghost function Both(s: Ring, hand: Option<nat>): multiset<nat> {
    multiset(R.Contents(s)) + multiset(InHand(hand))
  }

  /** A move between one ring and one hand keeps the whole. */
  lemma Regroup(v: World, w: World, k: nat)
    requires Whole(v, k)
    requires
      || (Both(v.free, v.filling) == Both(w.free, w.filling) && v.used == w.used && v.draining == w.draining)
      || (Both(v.free, v.draining) == Both(w.free, w.draining) && v.used == w.used && v.filling == w.filling)
      || (Both(v.used, v.filling) == Both(w.used, w.filling) && v.free == w.free && v.draining == w.draining)
      || (Both(v.used, v.draining) == Both(w.used, w.draining) && v.free == w.free && v.filling == w.filling)
    ensures Whole(w, k)
  {
    assert Peek(0);
    Pairs(multiset(R.Contents(v.free)), multiset(R.Contents(v.used)),
          multiset(InHand(v.filling)), multiset(InHand(v.draining)));
    Pairs(multiset(R.Contents(w.free)), multiset(R.Contents(w.used)),
          multiset(InHand(w.filling)), multiset(InHand(w.draining)));
  }

  lemma Pairs(a: multiset<nat>, b: multiset<nat>, c: multiset<nat>, d: multiset<nat>)
    ensures a + b + c + d == (a + c) + (b + d) == (a + d) + (b + c)
  {
  }

  lemma ProducerPopKeeps(w: World, size: nat, k: nat, step: R.Step<nat>)
    requires Inv(w, size, k)
    ensures Inv(Apply(w, ProducerPop(step)), size, k)
  {
    if MayPop(w.filling, step) {
      PopMoves(w.free, step);
      Regroup(w, Apply(w, ProducerPop(step)), k);
    }
  }

  lemma ConsumerPopKeeps(w: World, size: nat, k: nat, step: R.Step<nat>)
    requires Inv(w, size, k)
    ensures Inv(Apply(w, ConsumerPop(step)), size, k)
  {
    if MayPop(w.draining, step) {
      PopMoves(w.used, step);
      Regroup(w, Apply(w, ConsumerPop(step)), k);
    }
  }

  lemma ProducerPushKeeps(w: World, size: nat, k: nat, step: R.Step<nat>)
    requires Inv(w, size, k)
    ensures Inv(Apply(w, ProducerPush(step)), size, k)
  {
    if MayPush(w.filling, step) {
      PushMoves(w.used, w.filling, step);
      Regroup(w, Apply(w, ProducerPush(step)), k);
    }
  }

  lemma ConsumerPushKeeps(w: World, size: nat, k: nat, step: R.Step<nat>)
    requires Inv(w, size, k)
    ensures Inv(Apply(w, ConsumerPush(step)), size, k)
  {
    if MayPush(w.draining, step) {
      PushMoves(w.free, w.draining, step);
      Regroup(w, Apply(w, ConsumerPush(step)), k);
    }
  }

  /** The invariant as one atom. */
  ghost predicate Kept(w: World, size: nat, k: nat) {
    forall z {:trigger Peek(z)} :: Peek(z) ==> Inv(w, size, k)
  }

  lemma StepKeeps(w: World, size: nat, k: nat, step: Step)
    requires Kept(w, size, k)
    ensures Kept(Apply(w, step), size, k)
  {
    assert Peek(0);
    match step
    case ProducerPop(s) => ProducerPopKeeps(w, size, k, s);
    case ProducerPush(s) => ProducerPushKeeps(w, size, k, s);
    case ConsumerPop(s) => ConsumerPopKeeps(w, size, k, s);
    case ConsumerPush(s) => ConsumerPushKeeps(w, size, k, s);
  }

  lemma StartKeeps(slots: seq<nat>, pool: nat)
    requires |slots| >= 2
    ensures Kept(Run(slots, pool, []), |slots|, Circulating(slots, pool))
  {
    FillHolds(slots, pool);
    R.StartOk(slots);
    assert Peek(0);
  }

  lemma {:induction false} RunKeeps(slots: seq<nat>, pool: nat, steps: seq<Step>)
    requires |slots| >= 2
    ensures Kept(Run(slots, pool, steps), |slots|, Circulating(slots, pool))
    decreases |steps|
  {
    if steps == [] {
      StartKeeps(slots, pool);
    } else {
      RunKeeps(slots, pool, steps[..|steps| - 1]);
      StepKeeps(Run(slots, pool, steps[..|steps| - 1]), |slots|, Circulating(slots, pool), steps[|steps| - 1]);
    }
  }

  // ----- Main results -----

  lemma {:induction false} CountOnce(k: nat, b: nat)
    ensures multiset(First(k))[b] == if b < k then 1 else 0
  {
    if k == 0 {
    } else {
      CountOnce(k - 1, b);
    }
  }

  /** Whatever the interleaving and the staleness, each of the first min(POOL_SIZE, RING_SIZE - 1) buffers is in
      exactly one place, once, and no other buffer ever circulates. */
  lemma EachBufferInOnePlace(slots: seq<nat>, pool: nat, steps: seq<Step>, b: nat)
    requires |slots| >= 2
    ensures var w := Run(slots, pool, steps);
      Everywhere(w)[b] == if b < pool && b < |slots| - 1 then 1 else 0
  {
    RunKeeps(slots, pool, steps);
    CountOnce(Circulating(slots, pool), b);
    assert Peek(0);
  }

  // What goes where, in order.

  /** What the producer has put on the used ring is what it has taken from the free ring, in order, but for the buffer
      in its hand; what the consumer has put on the free ring, behind the start-up buffers, is what it has taken. */
  ghost predicate Flows(w: World, k: nat) {
    forall z {:trigger Look(z)} :: Look(z) ==>
      && F.Popped(w.free.log) == F.Pushed(w.used.log) + InHand(w.filling)
      && First(k) + F.Popped(w.used.log) == F.Pushed(w.free.log) + InHand(w.draining)
  }

  lemma PopLogs(s: Ring, step: R.Step<nat>)
    requires R.Kept(s) && IsPop(step)
    ensures var t := R.Apply(s, step);
      && F.Pushed(t.log) == F.Pushed(s.log)
      && F.Popped(t.log) == F.Popped(s.log) + InHand(HandAfterPop(s, step))
  {
    R.StepKeeps(s, step);
    R.StepLogs(s, step);
  }

  lemma PushLogs(s: Ring, hand: Option<nat>, step: R.Step<nat>)
    requires R.Kept(s) && MayPush(hand, step) && (!s.producer.PIdle? ==> s.producer.value == hand.value)
    ensures var t := R.Apply(s, step);
      && F.Popped(t.log) == F.Popped(s.log)
      && F.Pushed(t.log) + InHand(HandAfterPush(s, hand, step)) == F.Pushed(s.log) + InHand(hand)
  {
    R.StepKeeps(s, step);
    R.StepLogs(s, step);
    var more := if step.PushStore? && s.producer.PWritten? then [s.producer.value] else [];
    PutDown(F.Pushed(s.log), F.Pushed(R.Apply(s, step).log), more, hand, HandAfterPush(s, hand, step));
  }

  lemma PutDown(pushed: seq<nat>, pushed': seq<nat>, more: seq<nat>, hand: Option<nat>, hand': Option<nat>)
    requires pushed' == pushed + more
    requires if more == [] then hand' == hand else hand.Some? && more == [hand.value] && hand' == None
    ensures pushed' + InHand(hand') == pushed + InHand(hand)
  {
  }

  lemma StepFlows(w: World, size: nat, k: nat, step: Step)
    requires Kept(w, size, k) && Flows(w, k)
    ensures Flows(Apply(w, step), k)
  {
    KeptParts(w, size, k);
    match step
    case ProducerPop(s) => ProducerPopFlows(w, k, s);
    case ProducerPush(s) => ProducerPushFlows(w, k, s);
    case ConsumerPop(s) => ConsumerPopFlows(w, k, s);
    case ConsumerPush(s) => ConsumerPushFlows(w, k, s);
  }

  lemma ProducerPopFlows(w: World, k: nat, step: R.Step<nat>)
    requires R.Kept(w.free) && Flows(w, k)
    ensures Flows(Apply(w, ProducerPop(step)), k)
  {
    if MayPop(w.filling, step) {
      PopLogs(w.free, step);
      FlowsStep(w, Apply(w, ProducerPop(step)), k, InHand(HandAfterPop(w.free, step)), []);
    }
  }

  lemma ConsumerPopFlows(w: World, k: nat, step: R.Step<nat>)
    requires R.Kept(w.used) && Flows(w, k)
    ensures Flows(Apply(w, ConsumerPop(step)), k)
  {
    if MayPop(w.draining, step) {
      PopLogs(w.used, step);
      FlowsStep(w, Apply(w, ConsumerPop(step)), k, [], InHand(HandAfterPop(w.used, step)));
    }
  }

  lemma ProducerPushFlows(w: World, k: nat, step: R.Step<nat>)
    requires R.Kept(w.used) && Flows(w, k)
    requires w.filling.Some? && !w.used.producer.PIdle? ==> w.used.producer.value == w.filling.value
    ensures Flows(Apply(w, ProducerPush(step)), k)
  {
    if MayPush(w.filling, step) {
      PushLogs(w.used, w.filling, step);
      FlowsStep(w, Apply(w, ProducerPush(step)), k, [], []);
    }
  }

  lemma ConsumerPushFlows(w: World, k: nat, step: R.Step<nat>)
    requires R.Kept(w.free) && Flows(w, k)
    requires w.draining.Some? && !w.free.producer.PIdle? ==> w.free.producer.value == w.draining.value
    ensures Flows(Apply(w, ConsumerPush(step)), k)
  {
    if MayPush(w.draining, step) {
      PushLogs(w.free, w.draining, step);
      FlowsStep(w, Apply(w, ConsumerPush(step)), k, [], []);
    }
  }

  lemma KeptParts(w: World, size: nat, k: nat)
    requires Kept(w, size, k)
    ensures R.Kept(w.free) && R.Kept(w.used)
    ensures w.filling.Some? && !w.used.producer.PIdle? ==> w.used.producer.value == w.filling.value
    ensures w.draining.Some? && !w.free.producer.PIdle? ==> w.free.producer.value == w.draining.value
  {
    assert Peek(0);
  }

  /** A step that takes these buffers from the free ring and those from the used ring: each goes to the other ring or
      into the hand. */
  lemma FlowsStep(v: World, w: World, k: nat, a: seq<nat>, b: seq<nat>)
    requires Flows(v, k)
    requires F.Popped(w.free.log) == F.Popped(v.free.log) + a
    requires F.Pushed(w.used.log) + InHand(w.filling) == F.Pushed(v.used.log) + InHand(v.filling) + a
    requires F.Popped(w.used.log) == F.Popped(v.used.log) + b
    requires F.Pushed(w.free.log) + InHand(w.draining) == F.Pushed(v.free.log) + InHand(v.draining) + b
    ensures Flows(w, k)
  {
    assert F.Popped(v.free.log) == F.Pushed(v.used.log) + InHand(v.filling) by { assert Look(0); }
    assert First(k) + F.Popped(v.used.log) == F.Pushed(v.free.log) + InHand(v.draining) by { assert Look(0); }
    Longer(First(k), F.Popped(v.used.log), b);
  }

  lemma Longer(a: seq<nat>, b: seq<nat>, c: seq<nat>)
    ensures a + (b + c) == (a + b) + c
  {
  }

  lemma StartFlows(slots: seq<nat>, pool: nat)
    requires |slots| >= 2
    ensures Flows(Run(slots, pool, []), Circulating(slots, pool))
  {
    FillHolds(slots, pool);
    var s := R.Run(slots, FillSteps(pool));
    assert R.Contents(s) == First(Circulating(slots, pool)) && |s.readIdx| == 1 by { assert Peek(0); }
    R.RefinesDeque(slots, FillSteps(pool));
    R.FailsExactly(slots, FillSteps(pool), 0);
    assert |F.Popped(s.log)| == 0;
  }

  /** The buffers that the consumer gets are those the producer has filled, in the order of filling, and those the
      producer gets are, after the start-up ones, those the consumer is done with. */
  lemma {:induction false} BuffersFlow(slots: seq<nat>, pool: nat, steps: seq<Step>)
    requires |slots| >= 2
    ensures Flows(Run(slots, pool, steps), Circulating(slots, pool))
    decreases |steps|
  {
    if steps == [] {
      StartFlows(slots, pool);
    } else {
      RunKeeps(slots, pool, steps[..|steps| - 1]);
      BuffersFlow(slots, pool, steps[..|steps| - 1]);
      StepFlows(Run(slots, pool, steps[..|steps| - 1]), |slots|, Circulating(slots, pool), steps[|steps| - 1]);
    }
  }

  /** In particular no value is reordered on its way: what has been drained is a prefix of what has been filled. */
  lemma DrainedInOrder(slots: seq<nat>, pool: nat, steps: seq<Step>)
    requires |slots| >= 2
    ensures var w := Run(slots, pool, steps);
      && F.Popped(w.free.log) == F.Pushed(w.used.log) + InHand(w.filling)
      && First(Circulating(slots, pool)) + F.Popped(w.used.log) == F.Pushed(w.free.log) + InHand(w.draining)
      && F.Pushed(w.used.log) == F.Popped(w.used.log) + R.Contents(w.used)
      && F.Pushed(w.free.log) == F.Popped(w.free.log) + R.Contents(w.free)
  {
    BuffersFlow(slots, pool, steps);
    RunKeeps(slots, pool, steps);
    var w := Run(slots, pool, steps);
    assert R.Kept(w.used) && R.Kept(w.free) && |w.used.slots| == |w.free.slots| == |slots| by { assert Peek(0); }
    R.InvFifo(w.used, |slots| - 1);
    R.InvFifo(w.free, |slots| - 1);
    assert Look(0);
  }

  /** So the buffer that the producer fills is not waiting to be consumed, nor being consumed, nor free. */
  lemma NoReuseBeforeConsumed(slots: seq<nat>, pool: nat, steps: seq<Step>)
    requires |slots| >= 2
    ensures var w := Run(slots, pool, steps);
      w.filling.Some? ==>
        && w.filling.value !in R.Contents(w.used)
        && w.filling.value !in R.Contents(w.free)
        && w.draining != w.filling
  {
    var w := Run(slots, pool, steps);
    if w.filling.Some? {
      var b := w.filling.value;
      EachBufferInOnePlace(slots, pool, steps, b);
      assert multiset(InHand(w.filling))[b] == 1;
      assert w.draining == w.filling ==> multiset(InHand(w.draining))[b] == 1;
    }
  }

  /** With up-to-date loads the spinning pushes of both threads succeed at once. */
  lemma PushNeverSpins(slots: seq<nat>, pool: nat, steps: seq<Step>)
    requires |slots| >= 2
    ensures var w := Run(slots, pool, steps);
      && (w.used.producer.PLoaded? ==> R.Apply(w.used, FreshCheck(w.used)).producer.PGranted?)
      && (w.free.producer.PLoaded? ==> R.Apply(w.free, FreshCheck(w.free)).producer.PGranted?)
  {
    RunKeeps(slots, pool, steps);
    InvGrants(Run(slots, pool, steps), |slots|, Circulating(slots, pool));
  }

  lemma InvGrants(w: World, size: nat, k: nat)
    requires Kept(w, size, k) && size >= 2 && k < size
    ensures w.used.producer.PLoaded? ==> R.Apply(w.used, FreshCheck(w.used)).producer.PGranted?
    ensures w.free.producer.PLoaded? ==> R.Apply(w.free, FreshCheck(w.free)).producer.PGranted?
  {
    assert Peek(0);
    FirstLength(k);
    assert |Everywhere(w)| == k;
    if w.used.producer.PLoaded? { HasRoom(w.used); }
    if w.free.producer.PLoaded? { HasRoom(w.free); }
  }

  lemma HasRoom(s: Ring)
    requires R.Kept(s) && s.producer.PLoaded? && |R.Contents(s)| < |s.slots| - 1
    ensures R.Apply(s, FreshCheck(s)).producer.PGranted?
  {
    assert Look(0);
    R.FullView(s, |s.readIdx| - 1);
    R.ContentsLength(s);
  }
}
