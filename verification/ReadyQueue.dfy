/**
  The queue with per-slot ready flags of topics/concurrency/waitfree_spsc_queue.cpp (lines 36-70) as a step system.
  Neither side reads the other's index; they meet at the flags only.
*/
module ReadyQueue {
  import opened Options
  import opened BoundedFifo
  import opened Sealing
  import Circle

  datatype Slot<V> = Slot(ready: bool, value: V)

  /** Where the producer stands inside enqueue. */
  datatype Producer<V> =
    | PIdle
    | PLoaded(value: V, w: nat)     // w = write_idx_
    | PGranted(value: V, w: nat)    // the slot is not ready
    | PFilled(value: V, w: nat)     // its value is written
    | PReady(w: nat)                // its flag is set

  /** Where the consumer stands inside dequeue. */
  datatype Consumer<V> =
    | CIdle
    | CLoaded(r: nat)               // r = read_idx_
    | CGranted(r: nat)              // the slot is ready
    | CTaken(value: V, r: nat)      // its value is read
    | CCleared(r: nat)              // its flag is cleared

  datatype Queue<V> = Queue(
    slots: seq<Slot<V>>,
    writeIdx: nat,
    readIdx: nat,
    producer: Producer<V>,
    consumer: Consumer<V>,
    fault: bool,                    // some step left the slots
    log: seq<Op<V>>,                // finished operations in the order of their deciding step
    offered: seq<V>,                // arguments of the calls of enqueue so far
    answers: seq<bool>,             // and, once decided, their results
    asked: nat,                     // calls of dequeue so far
    results: seq<Option<V>>         // and, once decided, what they gave, if anything
  )

  /** A load of a flag may be stale; it then returns what the loading side stored there itself, and the operation
      fails. (On the first round no such value exists; allowing it there too covers more runs.) */
  datatype Step<V> =
    | PushLoad(value: V) | PushCheck(stale: bool) | PushFill | PushReady | PushStore
    | PopLoad | PopCheck(stale: bool) | PopTake | PopClear | PopStore

  function Start<V>(capacity: nat, blank: V): Queue<V> {
    Queue(seq(capacity, i => Slot(false, blank)), 0, 0, PIdle, CIdle, false, [], [], [], 0, [])
  }

  function ApplyPush<V>(s: Queue<V>, step: Step<V>): Queue<V> {
    match s.producer
    case PIdle =>
      if step.PushLoad? then s.(producer := PLoaded(step.value, s.writeIdx), offered := s.offered + [step.value]) else s
    case PLoaded(value, w) =>
      if !step.PushCheck? then s
      else if w >= |s.slots| then s.(fault := true)
      else if step.stale then s.(producer := PIdle, answers := s.answers + [false])
      else if s.slots[w].ready then
        s.(producer := PIdle, answers := s.answers + [false], log := s.log + [Full])
      else s.(producer := PGranted(value, w))
    case PGranted(value, w) =>
      if !step.PushFill? then s
      else if w >= |s.slots| then s.(fault := true)
      else s.(slots := s.slots[w := s.slots[w].(value := value)], producer := PFilled(value, w))
    case PFilled(value, w) =>
      if !step.PushReady? then s
      else if w >= |s.slots| then s.(fault := true)
      else s.(slots := s.slots[w := s.slots[w].(ready := true)], producer := PReady(w), answers := s.answers + [true],
              log := s.log + [Push(value)])
    case PReady(w) =>
      if !step.PushStore? then s
      else if |s.slots| == 0 then s.(fault := true)
      else s.(writeIdx := Circle.Slot(w + 1, |s.slots|), producer := PIdle)
  }

  function ApplyPop<V>(s: Queue<V>, step: Step<V>): Queue<V> {
    match s.consumer
    case CIdle =>
      if step.PopLoad? then s.(consumer := CLoaded(s.readIdx), asked := s.asked + 1) else s
    case CLoaded(r) =>
      if !step.PopCheck? then s
      else if r >= |s.slots| then s.(fault := true)
      else if step.stale then s.(consumer := CIdle, results := s.results + [None])
      else if !s.slots[r].ready then s.(consumer := CIdle, results := s.results + [None], log := s.log + [Empty])
      else s.(consumer := CGranted(r))
    case CGranted(r) =>
      if !step.PopTake? then s
      else if r >= |s.slots| then s.(fault := true)
      else s.(consumer := CTaken(s.slots[r].value, r))
    case CTaken(value, r) =>
      if !step.PopClear? then s
      else if r >= |s.slots| then s.(fault := true)
      else s.(slots := s.slots[r := s.slots[r].(ready := false)], consumer := CCleared(r),
              results := s.results + [Some(value)], log := s.log + [Pop(value)])
    case CCleared(r) =>
      if !step.PopStore? then s
      else if |s.slots| == 0 then s.(fault := true)
      else s.(readIdx := Circle.Slot(r + 1, |s.slots|), consumer := CIdle)
  }

  /** One step; a step that its side cannot take changes nothing. */
  function Apply<V>(s: Queue<V>, step: Step<V>): Queue<V> {
    if step.PushLoad? || step.PushCheck? || step.PushFill? || step.PushReady? || step.PushStore?
    then ApplyPush(s, step) else ApplyPop(s, step)
  }

  /** The state after any interleaving of steps. */
  function Run<V>(capacity: nat, blank: V, steps: seq<Step<V>>): Queue<V>
    decreases |steps|
  {
    if steps == [] then Start(capacity, blank)
    else Apply(Run(capacity, blank, steps[..|steps| - 1]), steps[|steps| - 1])
  }

  // ----- The invariant, for w values enqueued and r dequeued so far -----

  /** The slot of count j. */
  ghost function Cell<V>(slots: seq<Slot<V>>, j: nat): Slot<V>
    requires |slots| > 0
  {
    slots[Circle.Slot(j, |slots|)]
  }

  /** Of the |slots| counts from r on, exactly those before w are ready. */
  ghost predicate Flags(slots: seq<Slot>, w: nat, r: nat) {
    forall z {:trigger Peek(z)} :: Peek(z) ==>
      && |slots| > 0 && r <= w <= r + |slots|
      && forall j :: r <= j < r + |slots| ==> (Cell(slots, j).ready <==> j < w)
  }

  /** The values between r and w, oldest first. */
  ghost predicate Holds<V>(slots: seq<Slot<V>>, w: nat, r: nat, queue: seq<V>) {
    forall z {:trigger Peek(z)} :: Peek(z) ==>
      && |slots| > 0 && r <= w && |queue| == w - r
      && forall j :: r <= j < w ==> Cell(slots, j).value == queue[j - r]
  }

  ghost predicate ProducerOk<V>(slots: seq<Slot<V>>, writeIdx: nat, w: nat, r: nat, producer: Producer<V>) {
    forall z {:trigger Peek(z)} :: Peek(z) ==>
      && |slots| > 0
      && writeIdx == Circle.Slot(if producer.PReady? && w > 0 then w - 1 else w, |slots|)
      && match producer
         case PIdle => true
         case PLoaded(_, i) => i == writeIdx
         case PGranted(_, i) => i == writeIdx && w < r + |slots|
         case PFilled(value, i) => i == writeIdx && w < r + |slots| && Cell(slots, w).value == value
         case PReady(i) => i == writeIdx && w > 0
  }

  ghost predicate ConsumerOk<V>(slots: seq<Slot<V>>, readIdx: nat, w: nat, r: nat, consumer: Consumer<V>) {
    forall z {:trigger Peek(z)} :: Peek(z) ==>
      && |slots| > 0
      && readIdx == Circle.Slot(if consumer.CCleared? && r > 0 then r - 1 else r, |slots|)
      && match consumer
         case CIdle => true
         case CLoaded(i) => i == readIdx
         case CGranted(i) => i == readIdx && r < w
         case CTaken(value, i) => i == readIdx && r < w && Cell(slots, r).value == value
         case CCleared(i) => i == readIdx && r > 0
  }

  /** The value of a call that is not decided yet. */
  function Pending<V>(producer: Producer<V>): Option<V> {
    if producer.PIdle? || producer.PReady? then None else Some(producer.value)
  }

  /** Whether a call of dequeue is not decided yet. */
  predicate Inside(consumer: Consumer) {
    !consumer.CIdle? && !consumer.CCleared?
  }

  ghost predicate CountsLog<V>(log: seq<Op<V>>, w: nat, r: nat) {
    forall z {:trigger Peek(z)} :: Peek(z) ==> |Pushed(log)| == w && |Popped(log)| == r
  }

  ghost predicate Inv<V>(s: Queue<V>, w: nat, r: nat, queue: seq<V>) {
    && !s.fault
    && ProducerOk(s.slots, s.writeIdx, w, r, s.producer) && ConsumerOk(s.slots, s.readIdx, w, r, s.consumer)
    && Flags(s.slots, w, r) && Holds(s.slots, w, r, queue)
    && CountsLog(s.log, w, r) && IsRun(s.log, |s.slots|, queue)
    && Offers(s.offered, s.answers, s.log, Pending(s.producer))
    && Asks(s.asked, s.results, s.log, Inside(s.consumer))
  }

  /** The invariant as one atom. */
  ghost predicate Kept<V>(s: Queue<V>, w: nat, r: nat, queue: seq<V>) {
    forall z {:trigger Look(z)} :: Look(z) ==> Inv(s, w, r, queue)
  }

  // ----- Every step keeps it -----

  lemma CheckTells(slots: seq<Slot>, w: nat, r: nat, queue: seq)
    requires Flags(slots, w, r) && Holds(slots, w, r, queue)
    ensures |slots| > 0 && r <= w <= r + |slots| && |queue| == w - r
    ensures Cell(slots, w).ready <==> w == r + |slots|
    ensures Cell(slots, r).ready <==> r < w
  {
    assert Peek(0);
    assert Circle.Slot(r + |slots|, |slots|) == Circle.Slot(r, |slots|);
  }

  lemma Fills<V>(slots: seq<Slot<V>>, w: nat, r: nat, queue: seq<V>, value: V)
    requires Flags(slots, w, r) && Holds(slots, w, r, queue) && |slots| > 0 && w < r + |slots|
    ensures var i := Circle.Slot(w, |slots|);
      var slots' := slots[i := slots[i].(value := value)];
      && Flags(slots', w, r) && Holds(slots', w, r, queue) && Cell(slots', w).value == value
      && (r < w ==> Cell(slots', r) == Cell(slots, r))
  {
    assert Peek(0);
    var i := Circle.Slot(w, |slots|);
    var slots' := slots[i := slots[i].(value := value)];
    forall j | r <= j < w ensures Cell(slots', j) == Cell(slots, j) {
      Circle.Apart(j, w, |slots|);
    }
    forall j | r <= j < r + |slots| ensures Cell(slots', j).ready == Cell(slots, j).ready {
      assert Cell(slots', j) == if Circle.Slot(j, |slots|) == i then slots[i].(value := value) else Cell(slots, j);
    }
  }

  lemma SetsReady<V>(slots: seq<Slot<V>>, w: nat, r: nat, queue: seq<V>)
    requires Flags(slots, w, r) && Holds(slots, w, r, queue) && |slots| > 0 && w < r + |slots|
    ensures var i := Circle.Slot(w, |slots|);
      var slots' := slots[i := slots[i].(ready := true)];
      && Flags(slots', w + 1, r) && Holds(slots', w + 1, r, queue + [Cell(slots, w).value])
      && (r < w ==> Cell(slots', r) == Cell(slots, r))
  {
    assert Peek(0);
    var i := Circle.Slot(w, |slots|);
    var slots' := slots[i := slots[i].(ready := true)];
    forall j | r <= j < r + |slots| && j != w ensures Cell(slots', j) == Cell(slots, j) {
      if j < w { Circle.Apart(j, w, |slots|); } else { Circle.Apart(w, j, |slots|); }
    }
  }

  lemma Clears<V>(slots: seq<Slot<V>>, w: nat, r: nat, queue: seq<V>)
    requires Flags(slots, w, r) && Holds(slots, w, r, queue) && |slots| > 0 && r < w
    ensures var i := Circle.Slot(r, |slots|);
      var slots' := slots[i := slots[i].(ready := false)];
      && queue != [] && queue[0] == Cell(slots, r).value
      && Flags(slots', w, r + 1) && Holds(slots', w, r + 1, queue[1..])
      && Cell(slots', w).value == Cell(slots, w).value
  {
    assert Peek(0);
    var i := Circle.Slot(r, |slots|);
    var slots' := slots[i := slots[i].(ready := false)];
    forall j | r < j < r + |slots| ensures Cell(slots', j) == Cell(slots, j) {
      Circle.Apart(r, j, |slots|);
    }
    assert Cell(slots', r + |slots|) == Cell(slots', r);
  }

  lemma CountedLog<V>(log: seq<Op<V>>, w: nat, r: nat, op: Op<V>)
    requires CountsLog(log, w, r)
    ensures CountsLog(log + [op], if op.Push? then w + 1 else w, if op.Pop? then r + 1 else r)
  {
    assert Peek(0);
    PushedPoppedSnoc(log, op);
  }

  /** A failed operation with an up-to-date load found the queue full or empty. */
  lemma LogFailure<V>(log: seq<Op<V>>, max: nat, w: nat, r: nat, queue: seq<V>, op: Op<V>)
    requires IsRun(log, max, queue) && CountsLog(log, w, r)
    requires (op.Full? && |queue| == max) || (op.Empty? && queue == [])
    ensures IsRun(log + [op], max, queue) && CountsLog(log + [op], w, r)
  {
    LogSnoc(log, max, queue, op);
    CountedLog(log, w, r, op);
  }

  // What the producer's steps do to its own part.

  lemma PushLoads<V>(slots: seq<Slot<V>>, writeIdx: nat, w: nat, r: nat, value: V)
    requires ProducerOk(slots, writeIdx, w, r, PIdle)
    ensures ProducerOk(slots, writeIdx, w, r, PLoaded(value, writeIdx))
  {
    assert Peek(0);
  }

  lemma PushChecks<V>(slots: seq<Slot<V>>, writeIdx: nat, w: nat, r: nat, producer: Producer<V>)
    requires ProducerOk(slots, writeIdx, w, r, producer) && producer.PLoaded?
    ensures |slots| > 0 && producer.w == Circle.Slot(w, |slots|)
    ensures ProducerOk(slots, writeIdx, w, r, PIdle)
    ensures w < r + |slots| ==> ProducerOk(slots, writeIdx, w, r, PGranted(producer.value, producer.w))
  {
    assert Peek(0);
  }

  lemma PushWhere<V>(slots: seq<Slot<V>>, writeIdx: nat, w: nat, r: nat, producer: Producer<V>)
    requires ProducerOk(slots, writeIdx, w, r, producer) && (producer.PGranted? || producer.PFilled?)
    ensures |slots| > 0 && producer.w == Circle.Slot(w, |slots|) && w < r + |slots|
    ensures producer.PFilled? ==> Cell(slots, w).value == producer.value
  {
    assert Peek(0);
  }

  lemma PushFilled<V>(slots: seq<Slot<V>>, writeIdx: nat, w: nat, r: nat, producer: Producer<V>, slots': seq<Slot<V>>)
    requires ProducerOk(slots, writeIdx, w, r, producer) && producer.PGranted? && |slots'| == |slots| > 0
    requires Cell(slots', w).value == producer.value
    ensures ProducerOk(slots', writeIdx, w, r, PFilled(producer.value, producer.w))
  {
    assert Peek(0);
  }

  lemma PushIsReady<V>(slots: seq<Slot<V>>, writeIdx: nat, w: nat, r: nat, producer: Producer<V>, slots': seq<Slot<V>>)
    requires ProducerOk(slots, writeIdx, w, r, producer) && producer.PFilled? && |slots'| == |slots|
    ensures ProducerOk(slots', writeIdx, w + 1, r, PReady(producer.w))
  {
    assert Peek(0);
  }

  lemma PushStores<V>(slots: seq<Slot<V>>, writeIdx: nat, w: nat, r: nat, producer: Producer<V>)
    requires ProducerOk(slots, writeIdx, w, r, producer) && producer.PReady?
    ensures |slots| > 0 && ProducerOk(slots, Circle.Slot(producer.w + 1, |slots|), w, r, PIdle)
  {
    assert Peek(0);
    Circle.Successor(w - 1, |slots|);
  }

  /** The consumer's progress and its clearing of flags leave the producer's part alone. */
  lemma PushUnmoved<V>(slots: seq<Slot<V>>, writeIdx: nat, w: nat, r: nat, producer: Producer<V>, slots': seq<Slot<V>>,
                       r': nat)
    requires ProducerOk(slots, writeIdx, w, r, producer) && |slots'| == |slots| > 0 && r <= r'
    requires Cell(slots', w).value == Cell(slots, w).value
    ensures ProducerOk(slots', writeIdx, w, r', producer)
  {
    assert Peek(0);
  }

  lemma PopUnmoved<V>(slots: seq<Slot<V>>, readIdx: nat, w: nat, r: nat, consumer: Consumer<V>, slots': seq<Slot<V>>,
                      w': nat)
    requires ConsumerOk(slots, readIdx, w, r, consumer) && |slots'| == |slots| > 0 && w <= w'
    requires r < w ==> Cell(slots', r) == Cell(slots, r)
    ensures ConsumerOk(slots', readIdx, w', r, consumer)
  {
    assert Peek(0);
  }

  // What the consumer's steps do to its own part.

  lemma PopLoads<V>(slots: seq<Slot<V>>, readIdx: nat, w: nat, r: nat)
    requires ConsumerOk(slots, readIdx, w, r, CIdle)
    ensures ConsumerOk(slots, readIdx, w, r, CLoaded(readIdx))
  {
    assert Peek(0);
  }

  lemma PopChecks<V>(slots: seq<Slot<V>>, readIdx: nat, w: nat, r: nat, consumer: Consumer<V>)
    requires ConsumerOk(slots, readIdx, w, r, consumer) && consumer.CLoaded?
    ensures |slots| > 0 && consumer.r == Circle.Slot(r, |slots|)
    ensures ConsumerOk(slots, readIdx, w, r, CIdle)
    ensures r < w ==> ConsumerOk(slots, readIdx, w, r, CGranted(consumer.r))
  {
    assert Peek(0);
  }

  lemma PopTakes<V>(slots: seq<Slot<V>>, readIdx: nat, w: nat, r: nat, consumer: Consumer<V>)
    requires ConsumerOk(slots, readIdx, w, r, consumer) && consumer.CGranted?
    ensures consumer.r < |slots|
    ensures ConsumerOk(slots, readIdx, w, r, CTaken(slots[consumer.r].value, consumer.r))
  {
    assert Peek(0);
  }

  lemma PopClears<V>(slots: seq<Slot<V>>, readIdx: nat, w: nat, r: nat, consumer: Consumer<V>, slots': seq<Slot<V>>)
    requires ConsumerOk(slots, readIdx, w, r, consumer) && consumer.CTaken? && |slots'| == |slots|
    ensures |slots| > 0 && consumer.r == Circle.Slot(r, |slots|) && r < w && Cell(slots, r).value == consumer.value
    ensures ConsumerOk(slots', readIdx, w, r + 1, CCleared(consumer.r))
  {
    assert Peek(0);
  }

  lemma PopStores<V>(slots: seq<Slot<V>>, readIdx: nat, w: nat, r: nat, consumer: Consumer<V>)
    requires ConsumerOk(slots, readIdx, w, r, consumer) && consumer.CCleared?
    ensures |slots| > 0 && ConsumerOk(slots, Circle.Slot(consumer.r + 1, |slots|), w, r, CIdle)
  {
    assert Peek(0);
    Circle.Successor(r - 1, |slots|);
  }

  // The steps.

  lemma PushLoadKeeps<V>(s: Queue<V>, w: nat, r: nat, queue: seq<V>, step: Step<V>)
    requires Inv(s, w, r, queue) && s.producer.PIdle?
    ensures Kept(ApplyPush(s, step), w, r, queue)
  {
    if step.PushLoad? {
      PushLoads(s.slots, s.writeIdx, w, r, step.value);
      OfferBegins(s.offered, s.answers, s.log, step.value);
    }
  }

  lemma PushCheckKeeps<V>(s: Queue<V>, w: nat, r: nat, queue: seq<V>, step: Step<V>)
    requires Inv(s, w, r, queue) && s.producer.PLoaded?
    ensures Kept(ApplyPush(s, step), w, r, queue)
  {
    CheckTells(s.slots, w, r, queue);
    PushChecks(s.slots, s.writeIdx, w, r, s.producer);
    OfferRefused(s.offered, s.answers, s.log, s.producer.value);
    AskElsewhere(s.asked, s.results, s.log, Inside(s.consumer), Full);
    if w == r + |s.slots| {
      LogFailure(s.log, |s.slots|, w, r, queue, Full);
    }
  }

  lemma PushFillKeeps<V>(s: Queue<V>, w: nat, r: nat, queue: seq<V>, step: Step<V>)
    requires Inv(s, w, r, queue) && s.producer.PGranted?
    ensures Kept(ApplyPush(s, step), w, r, queue)
  {
    if step.PushFill? {
      PushWhere(s.slots, s.writeIdx, w, r, s.producer);
      Fills(s.slots, w, r, queue, s.producer.value);
      var slots' := ApplyPush(s, step).slots;
      PushFilled(s.slots, s.writeIdx, w, r, s.producer, slots');
      PopUnmoved(s.slots, s.readIdx, w, r, s.consumer, slots', w);
    }
  }

  lemma PushReadyKeeps<V>(s: Queue<V>, w: nat, r: nat, queue: seq<V>)
    requires Inv(s, w, r, queue) && s.producer.PFilled?
    ensures Kept(ApplyPush(s, PushReady), w + 1, r, queue + [s.producer.value])
  {
    var value := s.producer.value;
    PushWhere(s.slots, s.writeIdx, w, r, s.producer);
    SetsReady(s.slots, w, r, queue);
    var slots' := ApplyPush(s, PushReady).slots;
    PushIsReady(s.slots, s.writeIdx, w, r, s.producer, slots');
    PopUnmoved(s.slots, s.readIdx, w, r, s.consumer, slots', w + 1);
    CheckTells(s.slots, w, r, queue);
    LogSnoc(s.log, |s.slots|, queue, Push(value));
    CountedLog(s.log, w, r, Push(value));
    OfferAccepted(s.offered, s.answers, s.log, value);
    AskElsewhere(s.asked, s.results, s.log, Inside(s.consumer), Push(value));
  }

  lemma PushStoreKeeps<V>(s: Queue<V>, w: nat, r: nat, queue: seq<V>, step: Step<V>)
    requires Inv(s, w, r, queue) && s.producer.PReady?
    ensures Kept(ApplyPush(s, step), w, r, queue)
  {
    PushStores(s.slots, s.writeIdx, w, r, s.producer);
  }

  lemma PushStepKeeps<V>(s: Queue<V>, w: nat, r: nat, queue: seq<V>, step: Step<V>)
    returns (w': nat, queue': seq<V>)
    requires Inv(s, w, r, queue)
    ensures Kept(ApplyPush(s, step), w', r, queue')
  {
    w', queue' := w, queue;
    match s.producer
    case PIdle => PushLoadKeeps(s, w, r, queue, step);
    case PLoaded(_, _) => PushCheckKeeps(s, w, r, queue, step);
    case PGranted(_, _) => PushFillKeeps(s, w, r, queue, step);
    case PFilled(value, _) =>
      if step.PushReady? {
        PushReadyKeeps(s, w, r, queue);
        w', queue' := w + 1, queue + [value];
      }
    case PReady(_) => PushStoreKeeps(s, w, r, queue, step);
  }

  lemma PopCheckKeeps<V>(s: Queue<V>, w: nat, r: nat, queue: seq<V>, step: Step<V>)
    requires Inv(s, w, r, queue) && s.consumer.CLoaded?
    ensures Kept(ApplyPop(s, step), w, r, queue)
  {
    CheckTells(s.slots, w, r, queue);
    PopChecks(s.slots, s.readIdx, w, r, s.consumer);
    OfferElsewhere(s.offered, s.answers, s.log, Pending(s.producer), Empty);
    AskRefused(s.asked, s.results, s.log);
    if r == w {
      LogFailure(s.log, |s.slots|, w, r, queue, Empty);
    }
  }

  lemma PopTakeKeeps<V>(s: Queue<V>, w: nat, r: nat, queue: seq<V>, step: Step<V>)
    requires Inv(s, w, r, queue) && (s.consumer.CIdle? || s.consumer.CGranted?)
    ensures Kept(ApplyPop(s, step), w, r, queue)
  {
    if s.consumer.CIdle? {
      PopLoads(s.slots, s.readIdx, w, r);
      AskBegins(s.asked, s.results, s.log);
    } else {
      PopTakes(s.slots, s.readIdx, w, r, s.consumer);
    }
  }

  lemma PopClearKeeps<V>(s: Queue<V>, w: nat, r: nat, queue: seq<V>)
    requires Inv(s, w, r, queue) && s.consumer.CTaken?
    ensures queue != [] && Kept(ApplyPop(s, PopClear), w, r + 1, queue[1..])
  {
    var value := s.consumer.value;
    PopClears(s.slots, s.readIdx, w, r, s.consumer, s.slots);
    Clears(s.slots, w, r, queue);
    var slots' := ApplyPop(s, PopClear).slots;
    PopClears(s.slots, s.readIdx, w, r, s.consumer, slots');
    PushUnmoved(s.slots, s.writeIdx, w, r, s.producer, slots', r + 1);
    LogSnoc(s.log, |s.slots|, queue, Pop(value));
    CountedLog(s.log, w, r, Pop(value));
    OfferElsewhere(s.offered, s.answers, s.log, Pending(s.producer), Pop(value));
    AskGranted(s.asked, s.results, s.log, value);
  }

  lemma PopStoreKeeps<V>(s: Queue<V>, w: nat, r: nat, queue: seq<V>, step: Step<V>)
    requires Inv(s, w, r, queue) && s.consumer.CCleared?
    ensures Kept(ApplyPop(s, step), w, r, queue)
  {
    PopStores(s.slots, s.readIdx, w, r, s.consumer);
  }

  lemma PopStepKeeps<V>(s: Queue<V>, w: nat, r: nat, queue: seq<V>, step: Step<V>)
    returns (r': nat, queue': seq<V>)
    requires Inv(s, w, r, queue)
    ensures Kept(ApplyPop(s, step), w, r', queue')
  {
    r', queue' := r, queue;
    match s.consumer
    case CTaken(value, _) =>
      if step.PopClear? {
        PopClearKeeps(s, w, r, queue);
        r', queue' := r + 1, queue[1..];
      }
    case CCleared(_) => PopStoreKeeps(s, w, r, queue, step);
    case CLoaded(_) => PopCheckKeeps(s, w, r, queue, step);
    case _ => PopTakeKeeps(s, w, r, queue, step);
  }

  lemma StepKeeps<V>(s: Queue<V>, w: nat, r: nat, queue: seq<V>, step: Step<V>)
    returns (w': nat, r': nat, queue': seq<V>)
    requires Kept(s, w, r, queue)
    ensures Kept(Apply(s, step), w', r', queue') && |Apply(s, step).slots| == |s.slots|
  {
    assert Look(0);
    w', r' := w, r;
    if step.PushLoad? || step.PushCheck? || step.PushFill? || step.PushReady? || step.PushStore? {
      w', queue' := PushStepKeeps(s, w, r, queue, step);
    } else {
      r', queue' := PopStepKeeps(s, w, r, queue, step);
    }
  }

  lemma StartOk<V>(capacity: nat, blank: V)
    requires capacity >= 1
    ensures Kept(Start(capacity, blank), 0, 0, []) && |Start(capacity, blank).slots| == capacity
  {
  }

  lemma {:induction false} RunKept<V>(capacity: nat, blank: V, steps: seq<Step<V>>)
    returns (w: nat, r: nat, queue: seq<V>)
    requires capacity >= 1
    ensures Kept(Run(capacity, blank, steps), w, r, queue) && |Run(capacity, blank, steps).slots| == capacity
    decreases |steps|
  {
    if steps == [] {
      w, r, queue := 0, 0, [];
      StartOk(capacity, blank);
    } else {
      w, r, queue := RunKept(capacity, blank, steps[..|steps| - 1]);
      w, r, queue := StepKeeps(Run(capacity, blank, steps[..|steps| - 1]), w, r, queue, steps[|steps| - 1]);
    }
  }

  // ----- Main results -----

  /** Under every interleaving the queue is a FIFO of full size Capacity: its history is one of MutexDeque's; a
      failed enqueue with an up-to-date load found it full and a failed dequeue found it empty. What was pushed is
      what enqueue was called with, call by call, where its answer is true, and what was popped is what the calls of
      dequeue gave, where they gave anything. */
  lemma RefinesDeque<V>(capacity: nat, blank: V, steps: seq<Step<V>>) returns (queue: seq<V>)
    requires capacity >= 1
    ensures BehavesLikeDeque(Run(capacity, blank, steps), capacity, queue)
  {
    var w, r;
    w, r, queue := RunKept(capacity, blank, steps);
    InvFifo(Run(capacity, blank, steps), capacity, w, r, queue);
  }

  ghost predicate BehavesLikeDeque<V>(s: Queue<V>, capacity: nat, queue: seq<V>) {
    && !s.fault
    && Replay(s.log, capacity) == Legal(queue)
    && Pushed(s.log) == Popped(s.log) + queue && |queue| <= capacity
    && |s.offered| == |s.answers| + (if Pending(s.producer).Some? then 1 else 0)
    && Pushed(s.log) == Accepted(s.offered, s.answers)
    && s.asked == |s.results| + (if Inside(s.consumer) then 1 else 0)
    && Popped(s.log) == Gained(s.results)
  }

  lemma InvFifo<V>(s: Queue<V>, capacity: nat, w: nat, r: nat, queue: seq<V>)
    requires Kept(s, w, r, queue) && |s.slots| == capacity
    ensures BehavesLikeDeque(s, capacity, queue)
  {
    assert Look(0);
    RunMeans(s.log, capacity, queue);
    OffersMean(s.offered, s.answers, s.log, Pending(s.producer));
    AsksMean(s.asked, s.results, s.log, Inside(s.consumer));
  }

  /** Whether an operation is refused, step by step: with an up-to-date load enqueue is refused exactly when Capacity
      values are in the queue, dequeue exactly when none is; and a refusal that is not in the history comes from a
      stale load. */
  lemma FailsExactly<V>(capacity: nat, blank: V, steps: seq<Step<V>>, step: Step<V>)
    requires capacity >= 1
    ensures Decides(Run(capacity, blank, steps), capacity)
    ensures var s, t := Run(capacity, blank, steps), Apply(Run(capacity, blank, steps), step);
      && (t.answers == s.answers + [false] && t.log != s.log + [Full] ==> step.PushCheck? && step.stale)
      && (t.results == s.results + [None] && t.log != s.log + [Empty] ==> step.PopCheck? && step.stale)
  {
    var w, r, queue := RunKept(capacity, blank, steps);
    InvDecides(Run(capacity, blank, steps), w, r, queue);
    RefusedBy(Run(capacity, blank, steps), step);
  }

  ghost predicate Decides(s: Queue, capacity: nat) {
    var held := |Pushed(s.log)| - |Popped(s.log)|;
    && (s.producer.PLoaded? ==>
         var t := Apply(s, PushCheck(false));
         if held == capacity then t.producer == PIdle && t.answers == s.answers + [false] && t.log == s.log + [Full]
         else t.producer == PGranted(s.producer.value, s.producer.w) && t.answers == s.answers && t.log == s.log)
    && (s.consumer.CLoaded? ==>
         var t := Apply(s, PopCheck(false));
         if held == 0 then t.consumer == CIdle && t.results == s.results + [None] && t.log == s.log + [Empty]
         else t.consumer == CGranted(s.consumer.r) && t.results == s.results && t.log == s.log)
  }

  lemma InvDecides(s: Queue, w: nat, r: nat, queue: seq)
    requires Kept(s, w, r, queue)
    ensures Decides(s, |s.slots|)
  {
    assert Look(0);
    assert |Pushed(s.log)| == w && |Popped(s.log)| == r by { assert Peek(0); }
    CheckTells(s.slots, w, r, queue);
    if s.producer.PLoaded? { PushChecks(s.slots, s.writeIdx, w, r, s.producer); }
    if s.consumer.CLoaded? { PopChecks(s.slots, s.readIdx, w, r, s.consumer); }
  }

  lemma RefusedBy(s: Queue, step: Step)
    ensures var t := Apply(s, step);
      && (t.answers == s.answers + [false] && t.log != s.log + [Full] ==> step.PushCheck? && step.stale)
      && (t.results == s.results + [None] && t.log != s.log + [Empty] ==> step.PopCheck? && step.stale)
  {
    assert s.answers + [false] != s.answers + [true];
    assert (s.answers + [true])[|s.answers|];
    assert |s.answers + [false]| != |s.answers| && |s.results + [None]| != |s.results|;
    if s.consumer.CTaken? {
      assert (s.results + [Some(s.consumer.value)])[|s.results|] != None;
    }
  }

  // ----- Wait-free -----

  predicate IsPop(step: Step) {
    step.PopLoad? || step.PopCheck? || step.PopTake? || step.PopClear? || step.PopStore?
  }

  /** Going on from a state. */
  function Onward<V>(s: Queue<V>, steps: seq<Step<V>>): Queue<V>
    decreases |steps|
  {
    if steps == [] then s else Apply(Onward(s, steps[..|steps| - 1]), steps[|steps| - 1])
  }

  /** What the consumer leaves alone, and how the producer's part of the history grows. */
  ghost predicate ProducerSame<V>(s: Queue<V>, t: Queue<V>) {
    && t.producer == s.producer && t.answers == s.answers && Pushed(t.log) == Pushed(s.log)
    && |t.slots| == |s.slots| && t.fault == s.fault
  }

  ghost predicate ConsumerSame<V>(s: Queue<V>, t: Queue<V>) {
    && t.consumer == s.consumer && t.results == s.results && Popped(t.log) == Popped(s.log)
    && |t.slots| == |s.slots| && t.fault == s.fault
  }

  lemma PopStaysAway<V>(s: Queue<V>, step: Step<V>)
    requires IsPop(step) && !s.fault && !Apply(s, step).fault
    ensures ProducerSame(s, Apply(s, step))
  {
    match s.consumer
    case CLoaded(_) => PushedPoppedSnoc(s.log, Op<V>.Empty);
    case CTaken(value, _) => PushedPoppedSnoc(s.log, Op.Pop(value));
    case _ =>
  }

  lemma PushStaysAway<V>(s: Queue<V>, step: Step<V>)
    requires !IsPop(step) && !s.fault && !Apply(s, step).fault
    ensures ConsumerSame(s, Apply(s, step))
  {
    match s.producer
    case PLoaded(_, _) => PushedPoppedSnoc(s.log, Op<V>.Full);
    case PFilled(value, _) => PushedPoppedSnoc(s.log, Op.Push(value));
    case _ =>
  }

  /** The invariant with what the history says. */
  ghost predicate Reached<V>(s: Queue<V>) {
    forall z {:trigger Look(z)} :: Look(z) ==>
      var held := Replay(s.log, |s.slots|);
      held.Legal? && Kept(s, |Pushed(s.log)|, |Popped(s.log)|, held.queue)
  }

  lemma KeptIsReached<V>(s: Queue<V>, w: nat, r: nat, queue: seq<V>)
    requires Kept(s, w, r, queue)
    ensures Reached(s)
  {
    assert |Pushed(s.log)| == w && |Popped(s.log)| == r && Replay(s.log, |s.slots|) == Legal(queue) by {
      assert Look(0);
      assert Peek(0);
    }
  }

  lemma ReachedOn<V>(s: Queue<V>, step: Step<V>)
    requires Reached(s)
    ensures Reached(Apply(s, step)) && !s.fault
  {
    assert Look(0);
    var w, r, queue := |Pushed(s.log)|, |Popped(s.log)|, Replay(s.log, |s.slots|).queue;
    var w', r', queue' := StepKeeps(s, w, r, queue, step);
    KeptIsReached(Apply(s, step), w', r', queue');
  }

  lemma {:induction false} ConsumerStaysAway<V>(s: Queue<V>, pops: seq<Step<V>>)
    requires Reached(s) && forall i :: 0 <= i < |pops| ==> IsPop(pops[i])
    ensures Reached(Onward(s, pops)) && ProducerSame(s, Onward(s, pops))
    decreases |pops|
  {
    if pops == [] {
    } else {
      var n := |pops| - 1;
      ConsumerStaysAway(s, pops[..n]);
      var t := Onward(s, pops[..n]);
      ReachedOn(t, pops[n]);
      ReachedOn(Apply(t, pops[n]), pops[n]);
      PopStaysAway(t, pops[n]);
    }
  }

  lemma {:induction false} ProducerStaysAway<V>(s: Queue<V>, pushes: seq<Step<V>>)
    requires Reached(s) && forall i :: 0 <= i < |pushes| ==> !IsPop(pushes[i])
    ensures Reached(Onward(s, pushes)) && ConsumerSame(s, Onward(s, pushes))
    decreases |pushes|
  {
    if pushes == [] {
    } else {
      var n := |pushes| - 1;
      ProducerStaysAway(s, pushes[..n]);
      var t := Onward(s, pushes[..n]);
      ReachedOn(t, pushes[n]);
      ReachedOn(Apply(t, pushes[n]), pushes[n]);
      PushStaysAway(t, pushes[n]);
    }
  }

  /** The other side's steps, then one of one's own. */
  function Turn<V>(s: Queue<V>, others: seq<Step<V>>, step: Step<V>): Queue<V> {
    Apply(Onward(s, others), step)
  }

  lemma PushTurn<V>(s: Queue<V>, pops: seq<Step<V>>, step: Step<V>)
    requires Reached(s) && (forall i :: 0 <= i < |pops| ==> IsPop(pops[i])) && !IsPop(step)
    ensures var t := Turn(s, pops, step);
      && Reached(t)
      && (s.producer.PIdle? && step.PushLoad? ==>
           t.producer.PLoaded? && t.producer.value == step.value && t.answers == s.answers
           && Pushed(t.log) == Pushed(s.log))
      && (s.producer.PLoaded? && step.PushCheck? ==>
           if t.producer.PIdle? then t.answers == s.answers + [false] && Pushed(t.log) == Pushed(s.log)
           else t.producer.PGranted? && t.producer.value == s.producer.value && t.answers == s.answers
                && Pushed(t.log) == Pushed(s.log))
      && (s.producer.PGranted? && step.PushFill? ==>
           t.producer.PFilled? && t.producer.value == s.producer.value && t.answers == s.answers
           && Pushed(t.log) == Pushed(s.log))
      && (s.producer.PFilled? && step.PushReady? ==>
           t.producer.PReady? && t.answers == s.answers + [true] && Pushed(t.log) == Pushed(s.log) + [s.producer.value])
      && (s.producer.PReady? && step.PushStore? ==>
           t.producer.PIdle? && t.answers == s.answers && Pushed(t.log) == Pushed(s.log))
  {
    ConsumerStaysAway(s, pops);
    var u := Onward(s, pops);
    ReachedOn(u, step);
    ReachedOn(Apply(u, step), step);
    PushedPoppedSnoc(u.log, Op<V>.Full);
    if u.producer.PFilled? { PushedPoppedSnoc(u.log, Op.Push(u.producer.value)); }
  }

  /** enqueue ends after at most five steps of its own, whatever the consumer does between them, and answers true
      exactly when the slot it checks is granted; then its value is the one that the queue takes next. */
  lemma EnqueueEnds<V>(capacity: nat, blank: V, steps: seq<Step<V>>, value: V, stale: bool, pops: seq<seq<Step<V>>>)
    requires capacity >= 1 && |pops| == 5 && Run(capacity, blank, steps).producer.PIdle?
    requires forall k, i :: 0 <= k < 5 && 0 <= i < |pops[k]| ==> IsPop(pops[k][i])
    ensures var s := Run(capacity, blank, steps);
      var b := Turn(Turn(s, pops[0], PushLoad(value)), pops[1], PushCheck(stale));
      var t := Turn(Turn(Turn(b, pops[2], PushFill), pops[3], PushReady), pops[4], PushStore);
      if b.producer.PIdle? then b.answers == s.answers + [false] && Pushed(b.log) == Pushed(s.log)
      else t.producer.PIdle? && t.answers == s.answers + [true] && Pushed(t.log) == Pushed(s.log) + [value]
  {
    var w, r, queue := RunKept(capacity, blank, steps);
    var s := Run(capacity, blank, steps);
    KeptIsReached(s, w, r, queue);
    PushTurn(s, pops[0], PushLoad(value));
    var a := Turn(s, pops[0], PushLoad(value));
    PushTurn(a, pops[1], PushCheck(stale));
    var b := Turn(a, pops[1], PushCheck(stale));
    if !b.producer.PIdle? {
      PushTurn(b, pops[2], PushFill);
      PushTurn(Turn(b, pops[2], PushFill), pops[3], PushReady);
      PushTurn(Turn(Turn(b, pops[2], PushFill), pops[3], PushReady), pops[4], PushStore);
    }
  }

  lemma PopTurn<V>(s: Queue<V>, pushes: seq<Step<V>>, step: Step<V>)
    requires Reached(s) && (forall i :: 0 <= i < |pushes| ==> !IsPop(pushes[i])) && IsPop(step)
    ensures var t := Turn(s, pushes, step);
      && Reached(t)
      && (s.consumer.CIdle? && step.PopLoad? ==>
           t.consumer.CLoaded? && t.results == s.results && Popped(t.log) == Popped(s.log))
      && (s.consumer.CLoaded? && step.PopCheck? ==>
           if t.consumer.CIdle? then t.results == s.results + [None] && Popped(t.log) == Popped(s.log)
           else t.consumer.CGranted? && t.results == s.results && Popped(t.log) == Popped(s.log))
      && (s.consumer.CGranted? && step.PopTake? ==>
           t.consumer.CTaken? && t.results == s.results && Popped(t.log) == Popped(s.log))
      && (s.consumer.CTaken? && step.PopClear? ==>
           t.consumer.CCleared? && t.results == s.results + [Some(s.consumer.value)]
           && Popped(t.log) == Popped(s.log) + [s.consumer.value])
      && (s.consumer.CCleared? && step.PopStore? ==>
           t.consumer.CIdle? && t.results == s.results && Popped(t.log) == Popped(s.log))
  {
    ProducerStaysAway(s, pushes);
    var u := Onward(s, pushes);
    ReachedOn(u, step);
    ReachedOn(Apply(u, step), step);
    PushedPoppedSnoc(u.log, Op<V>.Empty);
    if u.consumer.CTaken? { PushedPoppedSnoc(u.log, Op.Pop(u.consumer.value)); }
  }

  /** dequeue ends after at most five steps of its own, whatever the producer does between them: without a value if the
      slot it checks is not granted, else with the value that the history pops next. */
  lemma DequeueEnds<V>(capacity: nat, blank: V, steps: seq<Step<V>>, stale: bool, pushes: seq<seq<Step<V>>>)
    requires capacity >= 1 && |pushes| == 5 && Run(capacity, blank, steps).consumer.CIdle?
    requires forall k, i :: 0 <= k < 5 && 0 <= i < |pushes[k]| ==> !IsPop(pushes[k][i])
    ensures var s := Run(capacity, blank, steps);
      var b := Turn(Turn(s, pushes[0], PopLoad), pushes[1], PopCheck(stale));
      var c := Turn(b, pushes[2], PopTake);
      var t := Turn(Turn(c, pushes[3], PopClear), pushes[4], PopStore);
      if b.consumer.CIdle? then b.results == s.results + [None] && Popped(b.log) == Popped(s.log)
      else
        && t.consumer.CIdle? && c.consumer.CTaken? && t.results == s.results + [Some(c.consumer.value)]
        && Popped(t.log) == Popped(s.log) + [c.consumer.value]
  {
    var w, r, queue := RunKept(capacity, blank, steps);
    var s := Run(capacity, blank, steps);
    KeptIsReached(s, w, r, queue);
    PopTurn(s, pushes[0], PopLoad);
    var a := Turn(s, pushes[0], PopLoad);
    PopTurn(a, pushes[1], PopCheck(stale));
    var b := Turn(a, pushes[1], PopCheck(stale));
    if !b.consumer.CIdle? {
      PopTurn(b, pushes[2], PopTake);
      PopTurn(Turn(b, pushes[2], PopTake), pushes[3], PopClear);
      PopTurn(Turn(Turn(b, pushes[2], PopTake), pushes[3], PopClear), pushes[4], PopStore);
    }
  }

  // ----- The flags and the indices -----

  ghost predicate MarksInterval(s: Queue, w: nat, r: nat) {
    && |s.slots| > 0 && r <= w <= r + |s.slots|
    && (forall j :: r <= j < r + |s.slots| ==> (Cell(s.slots, j).ready <==> j < w))
    && (s.producer.PReady? ==> w > 0) && (s.consumer.CCleared? ==> r > 0)
    && s.writeIdx == Circle.Slot(if s.producer.PReady? then w - 1 else w, |s.slots|)
    && s.readIdx == Circle.Slot(if s.consumer.CCleared? then r - 1 else r, |s.slots|)
  }

  lemma InvMarks(s: Queue, w: nat, r: nat, queue: seq)
    requires Kept(s, w, r, queue)
    ensures MarksInterval(s, |Pushed(s.log)|, |Popped(s.log)|)
  {
    assert Look(0);
    assert Peek(0);
  }

  /** The ready flags mark exactly the cyclic interval from the read index to the write index, with each index one
      behind while its side stands between storing the flag and storing the index. */
  lemma FlagsMarkTheInterval<V>(capacity: nat, blank: V, steps: seq<Step<V>>)
    requires capacity >= 1
    ensures var s := Run(capacity, blank, steps);
      |s.slots| == capacity && MarksInterval(s, |Pushed(s.log)|, |Popped(s.log)|)
  {
    var w, r, queue := RunKept(capacity, blank, steps);
    InvMarks(Run(capacity, blank, steps), w, r, queue);
  }

  /** The two sides never access the value of the same slot at once. */
  lemma NeverSameSlot<V>(capacity: nat, blank: V, steps: seq<Step<V>>)
    requires capacity >= 1
    ensures var s := Run(capacity, blank, steps);
      s.producer.PGranted? && s.consumer.CGranted? ==> s.producer.w != s.consumer.r
  {
    var w, r, queue := RunKept(capacity, blank, steps);
    SlotsDiffer(Run(capacity, blank, steps), w, r, queue);
  }

  lemma SlotsDiffer(s: Queue, w: nat, r: nat, queue: seq)
    requires Kept(s, w, r, queue)
    ensures s.producer.PGranted? && s.consumer.CGranted? ==> s.producer.w != s.consumer.r
  {
    assert Look(0);
    assert Peek(0);
    if s.producer.PGranted? && s.consumer.CGranted? {
      Circle.Apart(r, w, |s.slots|);
    }
  }
}
