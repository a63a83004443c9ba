/**
  The single-producer single-consumer ring of topics/concurrency/lockfree_spsc_ring_buffer.cpp (lines 42-69) as a
  step system; notes_spsc_bump_vs_double_ring.cpp (lines 60-83) has the same ring under other names. Every load,
  store and slot access is a step of its own. An index variable is the list of the values ever stored in it; a load
  by the other side may return any of them from the last one that side saw on, which is what acquire and release
  guarantee.
*/
module SpscRing {
  import opened Options
  import opened BoundedFifo
  import opened Sealing
  import Circle

  /** Where the producer stands inside push. */
  datatype Producer<V> =
    | PIdle
    | PLoaded(value: V, w: nat)              // w = write_idx_
    | PGranted(value: V, w: nat, next: nat)  // next is not read_idx_
    | PWritten(value: V, next: nat)          // buffer_[w] is written

  /** Where the consumer stands inside pop. */
  datatype Consumer<V> =
    | CIdle
    | CLoaded(r: nat)                        // r = read_idx_
    | CGranted(r: nat)                       // r is not write_idx_
    | CRead(value: V, r: nat)                // buffer_[r] is read

  datatype Ring<V> = Ring(
    slots: seq<V>,
    writeIdx: seq<nat>,     // values of write_idx_ so far, the current one last
    readIdx: seq<nat>,      // values of read_idx_ so far, the current one last
    seenRead: nat,          // which of `readIdx` the producer saw last
    seenWrite: nat,         // which of `writeIdx` the consumer saw last
    producer: Producer<V>,
    consumer: Consumer<V>,
    fault: bool,            // some step left the slots
    log: seq<Op<V>>,        // finished operations in the order of their deciding step
    offered: seq<V>,        // arguments of the calls of push so far
    answers: seq<bool>,     // and their results
    asked: nat,             // calls of pop so far
    results: seq<Option<V>> // and what they gave, if anything
  )

  datatype Step<V> =
    | PushLoad(value: V)       // w = write_idx_.load()
    | PushCheck(view: nat)     // next == read_idx_.load()
    | PushWrite                // buffer_[w] = value
    | PushStore                // write_idx_.store(next)
    | PopLoad                  // r = read_idx_.load()
    | PopCheck(view: nat)      // r == write_idx_.load()
    | PopRead                  // value = buffer_[r]
    | PopStore                 // read_idx_.store((r + 1) % Capacity)

  function Last(s: seq<nat>): nat
    requires s != []
  {
    s[|s| - 1]
  }

  function Start<V>(slots: seq<V>): Ring<V> {
    Ring(slots, [0], [0], 0, 0, PIdle, CIdle, false, [], [], [], 0, [])
  }

  // The steps one by one; a step that its side cannot take changes nothing. Failed operations are logged when the load
  // that failed them was up to date: a stale one reports a state that has passed.

  function DoPushLoad<V>(s: Ring<V>, value: V): Ring<V>
    requires s.writeIdx != []
  {
    if !s.producer.PIdle? then s
    else s.(producer := PLoaded(value, Last(s.writeIdx)), offered := s.offered + [value])
  }

  function DoPushCheck<V>(s: Ring<V>, view: nat): Ring<V>
    requires |s.slots| > 0
  {
    if !s.producer.PLoaded? || !(s.seenRead <= view < |s.readIdx|) then s
    else
      var next := Circle.Slot(s.producer.w + 1, |s.slots|);
      if next == s.readIdx[view] then
        s.(seenRead := view, producer := PIdle, answers := s.answers + [false],
           log := if view == |s.readIdx| - 1 then s.log + [Full] else s.log)
      else
        s.(seenRead := view, producer := PGranted(s.producer.value, s.producer.w, next))
  }

  function DoPushWrite<V>(s: Ring<V>): Ring<V> {
    if !s.producer.PGranted? then s
    else if s.producer.w >= |s.slots| then s.(fault := true)
    else s.(slots := s.slots[s.producer.w := s.producer.value],
            producer := PWritten(s.producer.value, s.producer.next))
  }

  function DoPushStore<V>(s: Ring<V>): Ring<V> {
    if !s.producer.PWritten? then s
    else s.(writeIdx := s.writeIdx + [s.producer.next], producer := PIdle, answers := s.answers + [true],
            log := s.log + [Push(s.producer.value)])
  }

  function DoPopLoad<V>(s: Ring<V>): Ring<V>
    requires s.readIdx != []
  {
    if !s.consumer.CIdle? then s else s.(consumer := CLoaded(Last(s.readIdx)), asked := s.asked + 1)
  }

  function DoPopCheck<V>(s: Ring<V>, view: nat): Ring<V> {
    if !s.consumer.CLoaded? || !(s.seenWrite <= view < |s.writeIdx|) then s
    else if s.consumer.r == s.writeIdx[view] then
      s.(seenWrite := view, consumer := CIdle, results := s.results + [None],
         log := if view == |s.writeIdx| - 1 then s.log + [Empty] else s.log)
    else
      s.(seenWrite := view, consumer := CGranted(s.consumer.r))
  }

  function DoPopRead<V>(s: Ring<V>): Ring<V> {
    if !s.consumer.CGranted? then s
    else if s.consumer.r >= |s.slots| then s.(fault := true)
    else s.(consumer := CRead(s.slots[s.consumer.r], s.consumer.r))
  }

  function DoPopStore<V>(s: Ring<V>): Ring<V>
    requires |s.slots| > 0
  {
    if !s.consumer.CRead? then s
    else s.(readIdx := s.readIdx + [Circle.Slot(s.consumer.r + 1, |s.slots|)], consumer := CIdle,
            results := s.results + [Some(s.consumer.value)], log := s.log + [Pop(s.consumer.value)])
  }

  function Apply<V>(s: Ring<V>, step: Step<V>): Ring<V> {
    if |s.slots| == 0 || s.writeIdx == [] || s.readIdx == [] then s.(fault := true)
    else match step
    case PushLoad(value) => DoPushLoad(s, value)
    case PushCheck(view) => DoPushCheck(s, view)
    case PushWrite => DoPushWrite(s)
    case PushStore => DoPushStore(s)
    case PopLoad => DoPopLoad(s)
    case PopCheck(view) => DoPopCheck(s, view)
    case PopRead => DoPopRead(s)
    case PopStore => DoPopStore(s)
  }

  /** The state after any interleaving of steps. */
  function Run<V>(slots: seq<V>, steps: seq<Step<V>>): Ring<V>
    decreases |steps|
  {
    if steps == [] then Start(slots) else Apply(Run(slots, steps[..|steps| - 1]), steps[|steps| - 1])
  }

  lemma RunSnoc<V>(slots: seq<V>, steps: seq<Step<V>>, step: Step<V>)
    ensures Run(slots, steps + [step]) == Apply(Run(slots, steps), step)
  {
    assert (steps + [step])[..|steps + [step]| - 1] == steps;
  }

  // ----- The invariant, part by part -----

  /** How many values have been published and how many have been taken. */
  ghost function Written(s: Ring): int { |s.writeIdx| - 1 }
  ghost function Taken(s: Ring): int { |s.readIdx| - 1 }

  /** The values of the counts from r up to w, oldest first. */
  ghost function Between<V>(slots: seq<V>, w: int, r: int): seq<V>
    decreases w - r
  {
    if |slots| == 0 || r < 0 || w <= r then []
    else Between(slots, w - 1, r) + [slots[Circle.Slot(w - 1, |slots|)]]
  }

  lemma {:induction false} BetweenLength<V>(slots: seq<V>, w: int, r: int)
    requires |slots| > 0 && 0 <= r <= w
    ensures |Between(slots, w, r)| == w - r
    decreases w - r
  {
    if r < w { BetweenLength(slots, w - 1, r); }
  }

  lemma {:induction false} BetweenFront<V>(slots: seq<V>, w: int, r: int)
    requires |slots| > 0 && 0 <= r < w
    ensures Between(slots, w, r) == [slots[Circle.Slot(r, |slots|)]] + Between(slots, w, r + 1)
    decreases w - r
  {
    if r + 1 < w { BetweenFront(slots, w - 1, r); }
  }

  /** What the published and not yet taken slots hold. */
  ghost function Contents<V>(s: Ring<V>): seq<V> {
    Between(s.slots, Written(s), Taken(s))
  }

  /** The i-th value stored in an index is the slot of count i. */
  ghost predicate RunsRound(index: seq<nat>, cap: nat) {
    forall z {:trigger Peek(z)} :: Peek(z) ==>
      0 < cap && forall i :: 0 <= i < |index| ==> index[i] == Circle.Slot(i, cap)
  }

  /** Neither side is further behind than its check allows. */
  ghost predicate Counts(cap: int, w: int, r: int, seenRead: int, seenWrite: int) {
    cap >= 2 && 0 <= seenRead <= r <= seenWrite <= w < seenRead + cap
  }

  ghost predicate ProducerOk<V>(slots: seq<V>, w: int, seenRead: int, producer: Producer<V>) {
    forall z {:trigger Peek(z)} :: Peek(z) ==>
      var cap := |slots|;
      && cap > 0 && w >= 0
      && match producer
         case PIdle => true
         case PLoaded(_, i) => i == Circle.Slot(w, cap)
         case PGranted(_, i, next) =>
           i == Circle.Slot(w, cap) && next == Circle.Slot(w + 1, cap) && w + 1 < seenRead + cap
         case PWritten(value, next) =>
           slots[Circle.Slot(w, cap)] == value && next == Circle.Slot(w + 1, cap) && w + 1 < seenRead + cap
  }

  ghost predicate ConsumerOk<V>(slots: seq<V>, r: int, seenWrite: int, consumer: Consumer<V>) {
    forall z {:trigger Peek(z)} :: Peek(z) ==>
      var cap := |slots|;
      && cap > 0 && r >= 0
      && match consumer
         case CIdle => true
         case CLoaded(i) => i == Circle.Slot(r, cap)
         case CGranted(i) => i == Circle.Slot(r, cap) && r < seenWrite
         case CRead(value, i) => i == Circle.Slot(r, cap) && r < seenWrite && value == slots[Circle.Slot(r, cap)]
  }

  /** The history is a run of the deque of one place less that leaves what the ring holds. */
  ghost predicate LogOk<V>(slots: seq<V>, w: int, r: int, log: seq<Op<V>>) {
    forall z {:trigger Peek(z)} :: Peek(z) ==>
      |slots| > 0 && IsRun(log, |slots| - 1, Between(slots, w, r))
  }

  function Pending<V>(producer: Producer<V>): Option<V> {
    if producer.PIdle? then None else Some(producer.value)
  }

  ghost predicate Inv(s: Ring) {
    && !s.fault
    && RunsRound(s.writeIdx, |s.slots|) && RunsRound(s.readIdx, |s.slots|)
    && Counts(|s.slots|, Written(s), Taken(s), s.seenRead, s.seenWrite)
    && ProducerOk(s.slots, Written(s), s.seenRead, s.producer)
    && ConsumerOk(s.slots, Taken(s), s.seenWrite, s.consumer)
    && LogOk(s.slots, Written(s), Taken(s), s.log)
    && Offers(s.offered, s.answers, s.log, Pending(s.producer))
    && Asks(s.asked, s.results, s.log, !s.consumer.CIdle?)
  }

  lemma Advance(index: seq<nat>, cap: nat, next: nat)
    requires RunsRound(index, cap) && 0 < cap && next == Circle.Slot(|index|, cap)
    ensures RunsRound(index + [next], cap)
  {
    assert Peek(0);
  }

  // ----- What the steps do to the parts -----

  /** The index compares equal exactly when the view shows Capacity - 1 values in flight. */
  lemma FullAt(slots: seq, index: seq<nat>, w: int, seenRead: int, producer: Producer, view: nat)
    requires RunsRound(index, |slots|) && ProducerOk(slots, w, seenRead, producer) && producer.PLoaded?
    requires view < |index| && view <= w < view + |slots|
    ensures Circle.Slot(producer.w + 1, |slots|) == Circle.Slot(w + 1, |slots|)
    ensures Circle.Slot(producer.w + 1, |slots|) == index[view] <==> w - view == |slots| - 1
  {
    assert Peek(0);
    Circle.Successor(w, |slots|);
    if w + 1 - view != |slots| {
      Circle.Apart(view, w + 1, |slots|);
    } else {
      assert Circle.Slot(w + 1, |slots|) == Circle.Slot(view, |slots|);
    }
  }

  /** The index compares equal exactly when the view shows nothing in flight. */
  lemma EmptyAt(slots: seq, index: seq<nat>, r: int, seenWrite: int, consumer: Consumer, view: nat)
    requires RunsRound(index, |slots|) && ConsumerOk(slots, r, seenWrite, consumer) && consumer.CLoaded?
    requires view < |index| && r <= view < r + |slots|
    ensures consumer.r == index[view] <==> view == r
  {
    assert Peek(0);
    if view != r {
      Circle.Apart(r, view, |slots|);
    }
  }

  lemma PushLoads<V>(slots: seq<V>, index: seq<nat>, seenRead: int, value: V)
    requires RunsRound(index, |slots|) && index != []
    ensures ProducerOk(slots, |index| - 1, seenRead, PLoaded(value, Last(index)))
  {
    assert Peek(0);
  }

  lemma PushGoesIdle<V>(slots: seq<V>, w: int, seenRead: int)
    requires |slots| > 0 && w >= 0
    ensures ProducerOk(slots, w, seenRead, PIdle)
  {
  }

  lemma PushIsGranted<V>(slots: seq<V>, w: int, seenRead: int, view: int, producer: Producer<V>)
    requires ProducerOk(slots, w, seenRead, producer) && producer.PLoaded? && |slots| > 0
    requires w + 1 < view + |slots|
    ensures w >= 0
    ensures ProducerOk(slots, w, view, PGranted(producer.value, producer.w, Circle.Slot(w + 1, |slots|)))
  {
    assert Peek(0);
  }

  /** Writing the slot of count w concerns neither what is in flight nor what the consumer looks at. */
  lemma PushWrites<V>(slots: seq<V>, w: int, r: int, seenRead: int, seenWrite: int, producer: Producer<V>,
                      consumer: Consumer<V>, log: seq<Op<V>>)
    requires Counts(|slots|, w, r, seenRead, seenWrite)
    requires ProducerOk(slots, w, seenRead, producer) && producer.PGranted?
    requires ConsumerOk(slots, r, seenWrite, consumer) && LogOk(slots, w, r, log)
    ensures producer.w < |slots|
    ensures var slots' := slots[producer.w := producer.value];
      && ProducerOk(slots', w, seenRead, PWritten(producer.value, producer.next))
      && ConsumerOk(slots', r, seenWrite, consumer)
      && Between(slots', w, r) == Between(slots, w, r) && LogOk(slots', w, r, log)
  {
    ProducerWrites(slots, w, seenRead, producer);
    ConsumerUntouched(slots, w, r, seenRead, seenWrite, consumer, producer.value);
    InFlightUntouched(slots, w, w, r, producer.value);
    LogUntouched(slots, slots[producer.w := producer.value], w, r, log);
  }

  lemma ProducerWrites<V>(slots: seq<V>, w: int, seenRead: int, producer: Producer<V>)
    requires ProducerOk(slots, w, seenRead, producer) && producer.PGranted?
    ensures |slots| > 0 && w >= 0 && producer.w == Circle.Slot(w, |slots|) && w + 1 < seenRead + |slots|
    ensures ProducerOk(slots[producer.w := producer.value], w, seenRead, PWritten(producer.value, producer.next))
  {
    assert Peek(0);
  }

  lemma ConsumerUntouched<V>(slots: seq<V>, w: int, r: int, seenRead: int, seenWrite: int, consumer: Consumer<V>,
                             value: V)
    requires Counts(|slots|, w, r, seenRead, seenWrite) && w + 1 < seenRead + |slots|
    requires ConsumerOk(slots, r, seenWrite, consumer)
    ensures ConsumerOk(slots[Circle.Slot(w, |slots|) := value], r, seenWrite, consumer)
  {
    assert Peek(0);
    if r < w { Circle.Apart(r, w, |slots|); }
  }

  lemma {:induction false} InFlightUntouched<V>(slots: seq<V>, w: int, n: int, r: int, value: V)
    requires 0 <= r <= n <= w < r + |slots|
    ensures Between(slots[Circle.Slot(w, |slots|) := value], n, r) == Between(slots, n, r)
    decreases n - r
  {
    if r >= n {
    } else {
      InFlightUntouched(slots, w, n - 1, r, value);
      Circle.Apart(n - 1, w, |slots|);
    }
  }

  lemma LogUntouched<V>(slots: seq<V>, slots': seq<V>, w: int, r: int, log: seq<Op<V>>)
    requires LogOk(slots, w, r, log) && |slots'| == |slots| && Between(slots', w, r) == Between(slots, w, r)
    ensures LogOk(slots', w, r, log)
  {
    assert Peek(0);
  }

  lemma PushStores<V>(slots: seq<V>, w: int, r: int, seenRead: int, seenWrite: int, producer: Producer<V>,
                      log: seq<Op<V>>)
    requires Counts(|slots|, w, r, seenRead, seenWrite)
    requires ProducerOk(slots, w, seenRead, producer) && producer.PWritten?
    requires LogOk(slots, w, r, log)
    ensures producer.next == Circle.Slot(w + 1, |slots|) && Counts(|slots|, w + 1, r, seenRead, seenWrite)
    ensures Between(slots, w + 1, r) == Between(slots, w, r) + [producer.value]
    ensures LogOk(slots, w + 1, r, log + [Push(producer.value)])
  {
    assert Peek(0);
    BetweenLength(slots, w, r);
    LogSnoc(log, |slots| - 1, Between(slots, w, r), Push(producer.value));
  }

  /** An up-to-date failure is an operation on the full or empty queue. */
  lemma LogFailure<V>(slots: seq<V>, w: int, r: int, log: seq<Op<V>>)
    requires 0 <= r <= w && LogOk(slots, w, r, log)
    ensures w - r == |slots| - 1 ==> LogOk(slots, w, r, log + [Full])
    ensures w == r ==> LogOk(slots, w, r, log + [Empty])
  {
    assert Peek(0);
    BetweenLength(slots, w, r);
    LogSnoc(log, |slots| - 1, Between(slots, w, r), Full);
    LogSnoc(log, |slots| - 1, Between(slots, w, r), Empty);
  }

  lemma PopLoads<V>(slots: seq<V>, index: seq<nat>, seenWrite: int)
    requires RunsRound(index, |slots|) && index != []
    ensures ConsumerOk(slots, |index| - 1, seenWrite, CLoaded(Last(index)))
  {
    assert Peek(0);
  }

  lemma PopGoesIdle<V>(slots: seq<V>, r: int, seenWrite: int)
    requires |slots| > 0 && r >= 0
    ensures ConsumerOk(slots, r, seenWrite, CIdle)
  {
  }

  lemma PopIsGranted<V>(slots: seq<V>, r: int, seenWrite: int, view: int, consumer: Consumer<V>)
    requires ConsumerOk(slots, r, seenWrite, consumer) && consumer.CLoaded? && r < view
    ensures ConsumerOk(slots, r, view, CGranted(consumer.r))
  {
    assert Peek(0);
  }

  lemma PopReads<V>(slots: seq<V>, r: int, seenWrite: int, consumer: Consumer<V>)
    requires ConsumerOk(slots, r, seenWrite, consumer) && consumer.CGranted?
    ensures consumer.r < |slots| && ConsumerOk(slots, r, seenWrite, CRead(slots[consumer.r], consumer.r))
  {
    assert Peek(0);
  }

  lemma PopStores<V>(slots: seq<V>, w: int, r: int, seenRead: int, seenWrite: int, consumer: Consumer<V>,
                     log: seq<Op<V>>)
    requires Counts(|slots|, w, r, seenRead, seenWrite) && ConsumerOk(slots, r, seenWrite, consumer) && consumer.CRead?
    requires LogOk(slots, w, r, log)
    ensures Circle.Slot(consumer.r + 1, |slots|) == Circle.Slot(r + 1, |slots|)
    ensures Counts(|slots|, w, r + 1, seenRead, seenWrite)
    ensures Between(slots, w, r) == [consumer.value] + Between(slots, w, r + 1)
    ensures LogOk(slots, w, r + 1, log + [Pop(consumer.value)])
  {
    assert Peek(0);
    Circle.Successor(r, |slots|);
    var before, after := Between(slots, w, r), Between(slots, w, r + 1);
    BetweenFront(slots, w, r);
    assert before[1..] == after;
    LogSnoc(log, |slots| - 1, before, Pop(consumer.value));
  }

  // ----- Every step keeps the invariant -----

  /** The invariant as one atom. */
  ghost predicate Kept(s: Ring) {
    forall z {:trigger Look(z)} :: Look(z) ==> Inv(s)
  }

  /** What a step does to the contents: only the two stores change them. */
  ghost predicate Moves<V>(s: Ring<V>, step: Step<V>, t: Ring<V>) {
    if step.PushStore? && s.producer.PWritten? then Contents(t) == Contents(s) + [s.producer.value]
    else if step.PopStore? && s.consumer.CRead? then Contents(s) == [s.consumer.value] + Contents(t)
    else Contents(t) == Contents(s)
  }

  lemma FullView(s: Ring, view: nat)
    requires Inv(s) && s.producer.PLoaded? && s.seenRead <= view < |s.readIdx|
    ensures Circle.Slot(s.producer.w + 1, |s.slots|) == Circle.Slot(Written(s) + 1, |s.slots|)
    ensures Circle.Slot(s.producer.w + 1, |s.slots|) == s.readIdx[view] <==> Written(s) - view == |s.slots| - 1
  {
    FullAt(s.slots, s.readIdx, Written(s), s.seenRead, s.producer, view);
  }

  lemma EmptyView(s: Ring, view: nat)
    requires Inv(s) && s.consumer.CLoaded? && s.seenWrite <= view < |s.writeIdx|
    ensures s.consumer.r == s.writeIdx[view] <==> view == Taken(s)
  {
    EmptyAt(s.slots, s.writeIdx, Taken(s), s.seenWrite, s.consumer, view);
  }

  lemma ContentsLength(s: Ring)
    requires Inv(s)
    ensures |Contents(s)| == Written(s) - Taken(s)
  {
    BetweenLength(s.slots, Written(s), Taken(s));
  }

  lemma PushLoadKeeps<V>(s: Ring<V>, value: V)
    requires Inv(s)
    ensures Kept(DoPushLoad(s, value)) && |DoPushLoad(s, value).slots| == |s.slots|
    ensures Contents(DoPushLoad(s, value)) == Contents(s)
  {
    if s.producer.PIdle? {
      var producer := PLoaded(value, Last(s.writeIdx));
      PushLoads(s.slots, s.writeIdx, s.seenRead, value);
      OfferBegins(s.offered, s.answers, s.log, value);
      assert DoPushLoad(s, value) == s.(producer := producer, offered := s.offered + [value]);
    }
  }

  lemma PushRefusedKeeps(s: Ring, view: nat)
    requires Inv(s) && s.producer.PLoaded? && s.seenRead <= view < |s.readIdx|
    requires Written(s) - view == |s.slots| - 1
    ensures Kept(DoPushCheck(s, view)) && |DoPushCheck(s, view).slots| == |s.slots|
    ensures Contents(DoPushCheck(s, view)) == Contents(s)
  {
    FullView(s, view);
    PushGoesIdle(s.slots, Written(s), view);
    LogFailure(s.slots, Written(s), Taken(s), s.log);
    OfferRefused(s.offered, s.answers, s.log, s.producer.value);
    AskElsewhere(s.asked, s.results, s.log, !s.consumer.CIdle?, Full);
    var log := if view == |s.readIdx| - 1 then s.log + [Full] else s.log;
    assert DoPushCheck(s, view)
        == s.(seenRead := view, producer := PIdle, answers := s.answers + [false], log := log);
  }

  lemma PushGrantedKeeps(s: Ring, view: nat)
    requires Inv(s) && s.producer.PLoaded? && s.seenRead <= view < |s.readIdx|
    requires Written(s) - view != |s.slots| - 1
    ensures Kept(DoPushCheck(s, view)) && |DoPushCheck(s, view).slots| == |s.slots|
    ensures Contents(DoPushCheck(s, view)) == Contents(s)
  {
    FullView(s, view);
    PushIsGranted(s.slots, Written(s), s.seenRead, view, s.producer);
    var producer := PGranted(s.producer.value, s.producer.w, Circle.Slot(s.producer.w + 1, |s.slots|));
    assert DoPushCheck(s, view) == s.(seenRead := view, producer := producer);
  }

  lemma PushWriteKeeps(s: Ring)
    requires Inv(s)
    ensures Kept(DoPushWrite(s)) && |DoPushWrite(s).slots| == |s.slots|
    ensures Contents(DoPushWrite(s)) == Contents(s)
  {
    if s.producer.PGranted? {
      PushWrites(s.slots, Written(s), Taken(s), s.seenRead, s.seenWrite, s.producer, s.consumer, s.log);
    }
  }

  lemma PushStoreKeeps(s: Ring)
    requires Inv(s)
    ensures Kept(DoPushStore(s)) && |DoPushStore(s).slots| == |s.slots|
    ensures (if s.producer.PWritten? then Contents(DoPushStore(s)) == Contents(s) + [s.producer.value]
             else DoPushStore(s) == s)
  {
    if s.producer.PWritten? {
      PushStores(s.slots, Written(s), Taken(s), s.seenRead, s.seenWrite, s.producer, s.log);
      Advance(s.writeIdx, |s.slots|, s.producer.next);
      PushGoesIdle(s.slots, Written(s) + 1, s.seenRead);
      OfferAccepted(s.offered, s.answers, s.log, s.producer.value);
      AskElsewhere(s.asked, s.results, s.log, !s.consumer.CIdle?, Push(s.producer.value));
    }
  }

  lemma PopLoadKeeps(s: Ring)
    requires Inv(s)
    ensures Kept(DoPopLoad(s)) && |DoPopLoad(s).slots| == |s.slots|
    ensures Contents(DoPopLoad(s)) == Contents(s)
  {
    if s.consumer.CIdle? {
      PopLoads(s.slots, s.readIdx, s.seenWrite);
      AskBegins(s.asked, s.results, s.log);
    }
  }

  lemma PopCheckKeeps(s: Ring, view: nat)
    requires Inv(s) && s.consumer.CLoaded? && s.seenWrite <= view < |s.writeIdx|
    ensures Kept(DoPopCheck(s, view)) && |DoPopCheck(s, view).slots| == |s.slots|
    ensures Contents(DoPopCheck(s, view)) == Contents(s)
  {
    EmptyView(s, view);
    if view == Taken(s) {
      PopGoesIdle(s.slots, Taken(s), view);
      LogFailure(s.slots, Written(s), Taken(s), s.log);
      OfferElsewhere(s.offered, s.answers, s.log, Pending(s.producer), Empty);
      AskRefused(s.asked, s.results, s.log);
    } else {
      PopIsGranted(s.slots, Taken(s), s.seenWrite, view, s.consumer);
    }
  }

  lemma PopReadKeeps(s: Ring)
    requires Inv(s)
    ensures Kept(DoPopRead(s)) && |DoPopRead(s).slots| == |s.slots|
    ensures Contents(DoPopRead(s)) == Contents(s)
  {
    if s.consumer.CGranted? {
      PopReads(s.slots, Taken(s), s.seenWrite, s.consumer);
      assert DoPopRead(s) == s.(consumer := CRead(s.slots[s.consumer.r], s.consumer.r));
    }
  }

  lemma PopStoreKeeps(s: Ring)
    requires Inv(s)
    ensures Kept(DoPopStore(s)) && |DoPopStore(s).slots| == |s.slots|
    ensures (if s.consumer.CRead? then Contents(s) == [s.consumer.value] + Contents(DoPopStore(s))
             else DoPopStore(s) == s)
  {
    if s.consumer.CRead? {
      PopStores(s.slots, Written(s), Taken(s), s.seenRead, s.seenWrite, s.consumer, s.log);
      var next := Circle.Slot(s.consumer.r + 1, |s.slots|);
      Advance(s.readIdx, |s.slots|, next);
      PopGoesIdle(s.slots, Taken(s) + 1, s.seenWrite);
      OfferElsewhere(s.offered, s.answers, s.log, Pending(s.producer), Pop(s.consumer.value));
      AskGranted(s.asked, s.results, s.log, s.consumer.value);
      var t := DoPopStore(s);
      assert t.readIdx == s.readIdx + [next] && t.consumer == CIdle && t.log == s.log + [Pop(s.consumer.value)];
      assert Written(t) == Written(s) && Taken(t) == Taken(s) + 1;
    }
  }

  lemma StepKeeps(s: Ring, step: Step)
    requires Kept(s)
    ensures Kept(Apply(s, step)) && Moves(s, step, Apply(s, step)) && |Apply(s, step).slots| == |s.slots|
    ensures |s.slots| > 0 && s.writeIdx != [] && s.readIdx != []
  {
    assert Look(0);
    match step
    case PushLoad(value) => PushLoadKeeps(s, value);
    case PushCheck(view) =>
      if s.producer.PLoaded? && s.seenRead <= view < |s.readIdx| {
        if Written(s) - view == |s.slots| - 1 { PushRefusedKeeps(s, view); } else { PushGrantedKeeps(s, view); }
      }
    case PushWrite => PushWriteKeeps(s);
    case PushStore => PushStoreKeeps(s);
    case PopLoad => PopLoadKeeps(s);
    case PopCheck(view) =>
      if s.consumer.CLoaded? && s.seenWrite <= view < |s.writeIdx| { PopCheckKeeps(s, view); }
    case PopRead => PopReadKeeps(s);
    case PopStore => PopStoreKeeps(s);
  }

  lemma StartOk<V>(slots: seq<V>)
    requires |slots| >= 2
    ensures Kept(Start(slots)) && Contents(Start(slots)) == []
  {
  }

  lemma {:induction false} RunKept<V>(slots: seq<V>, steps: seq<Step<V>>)
    requires |slots| >= 2
    ensures Kept(Run(slots, steps)) && |Run(slots, steps).slots| == |slots|
    decreases |steps|
  {
    if steps != [] {
      RunKept(slots, steps[..|steps| - 1]);
      StepKeeps(Run(slots, steps[..|steps| - 1]), steps[|steps| - 1]);
    } else {
      StartOk(slots);
    }
  }

  // ----- Main results -----

  /** Under every interleaving and every stale view the ring is a bounded FIFO of size Capacity - 1: its history is
      one of MutexDeque's, what was popped is a prefix of what was pushed, and no access leaves the slots. */
  lemma RefinesDeque<V>(slots: seq<V>, steps: seq<Step<V>>)
    requires |slots| >= 2
    ensures BehavesLikeDeque(Run(slots, steps), |slots| - 1)
  {
    RunKept(slots, steps);
    InvFifo(Run(slots, steps), |slots| - 1);
  }

  /** And what that history pushes is what push was called with, call by call, where it answered true; what it pops is
      what the calls of pop gave, where they gave anything. */
  lemma PushesWhatWasOffered<V>(slots: seq<V>, steps: seq<Step<V>>)
    requires |slots| >= 2
    ensures CallsAnswered(Run(slots, steps))
  {
    RunKept(slots, steps);
    InvAnswered(Run(slots, steps));
  }

  /** Nothing left the slots, and the history is a run of the deque that leaves what the ring holds. */
  ghost predicate BehavesLikeDeque(s: Ring, max: nat) {
    && !s.fault
    && Replay(s.log, max) == Legal(Contents(s))
    && Pushed(s.log) == Popped(s.log) + Contents(s)
    && |Contents(s)| <= max
  }

  /** Every call has been answered but the ones in progress, and the history is theirs. */
  ghost predicate CallsAnswered(s: Ring) {
    && |s.offered| == |s.answers| + (if s.producer.PIdle? then 0 else 1)
    && Pushed(s.log) == Accepted(s.offered, s.answers)
    && s.asked == |s.results| + (if s.consumer.CIdle? then 0 else 1)
    && Popped(s.log) == Gained(s.results)
  }

  lemma InvFifo(s: Ring, max: nat)
    requires Kept(s) && max == |s.slots| - 1
    ensures BehavesLikeDeque(s, max)
  {
    assert Look(0);
    LogMeans(s.slots, Written(s), Taken(s), s.log);
  }

  lemma InvAnswered(s: Ring)
    requires Kept(s)
    ensures CallsAnswered(s)
  {
    assert Look(0);
    OffersMean(s.offered, s.answers, s.log, Pending(s.producer));
    AsksMean(s.asked, s.results, s.log, !s.consumer.CIdle?);
  }

  lemma LogMeans<V>(slots: seq<V>, w: int, r: int, log: seq<Op<V>>)
    requires LogOk(slots, w, r, log)
    ensures |slots| > 0 && Replay(log, |slots| - 1) == Legal(Between(slots, w, r))
    ensures Pushed(log) == Popped(log) + Between(slots, w, r) && |Between(slots, w, r)| <= |slots| - 1
  {
    assert Peek(0);
    RunMeans(log, |slots| - 1, Between(slots, w, r));
  }

  /** The two sides are never about to access the same slot. */
  lemma NeverSameSlot<V>(slots: seq<V>, steps: seq<Step<V>>)
    requires |slots| >= 2
    ensures var s := Run(slots, steps);
      s.producer.PGranted? && s.consumer.CGranted? ==> s.producer.w != s.consumer.r
  {
    RunKept(slots, steps);
    SlotsDiffer(Run(slots, steps));
  }

  lemma WhereGranted(s: Ring)
    requires Inv(s)
    ensures s.producer.PGranted? ==>
      s.producer.w == Circle.Slot(Written(s), |s.slots|) && Written(s) + 1 < s.seenRead + |s.slots|
    ensures s.consumer.CGranted? ==> s.consumer.r == Circle.Slot(Taken(s), |s.slots|) && Taken(s) < s.seenWrite
  {
    assert Peek(0);
  }

  lemma SlotsDiffer(s: Ring)
    requires Kept(s)
    ensures s.producer.PGranted? && s.consumer.CGranted? ==> s.producer.w != s.consumer.r
  {
    assert Look(0);
    WhereGranted(s);
    if s.producer.PGranted? && s.consumer.CGranted? {
      Circle.Apart(Taken(s), Written(s), |s.slots|);
    }
  }

  /** The producer writes a slot only after acquiring an index stored after the consumer's last read of that slot
      (count `before`), and the consumer reads one only after acquiring an index stored after its last write. */
  lemma AccessesAreOrdered<V>(slots: seq<V>, steps: seq<Step<V>>, before: nat)
    requires |slots| >= 2
    ensures Ordered(Run(slots, steps), before)
  {
    RunKept(slots, steps);
    InvOrdered(Run(slots, steps), before);
  }

  ghost predicate Ordered(s: Ring, before: nat) {
    && |s.slots| > 0
    && (s.producer.PGranted? && before < Written(s) && Circle.Slot(before, |s.slots|) == s.producer.w ==>
         before < s.seenRead)
    && (s.consumer.CGranted? && before <= Taken(s) && Circle.Slot(before, |s.slots|) == s.consumer.r ==>
         before < s.seenWrite)
  }

  lemma InvOrdered(s: Ring, before: nat)
    requires Kept(s)
    ensures Ordered(s, before)
  {
    assert Look(0);
    WhereGranted(s);
    if s.producer.PGranted? && s.seenRead <= before < Written(s) {
      Circle.Apart(before, Written(s), |s.slots|);
    }
  }

  /** A push fails exactly when the view it loaded shows Capacity - 1 values in flight, a pop exactly when its view
      shows none; with an up-to-date view that is the state of the queue itself. */
  lemma FailsExactly<V>(slots: seq<V>, steps: seq<Step<V>>, view: nat)
    requires |slots| >= 2
    ensures Decides(Run(slots, steps), view)
    ensures |Pushed(Run(slots, steps).log)| == Written(Run(slots, steps))
    ensures |Popped(Run(slots, steps).log)| == Taken(Run(slots, steps))
  {
    RunKept(slots, steps);
    Counted(slots, steps);
    InvDecides(Run(slots, steps), view);
  }

  /** And nothing else makes an operation answer false. */
  lemma FailsOnlyThen<V>(slots: seq<V>, steps: seq<Step<V>>, step: Step<V>)
    requires |slots| >= 2
    ensures var s, t := Run(slots, steps), Apply(Run(slots, steps), step);
      && (t.answers == s.answers + [false] ==> step.PushCheck? && Written(s) - step.view == |s.slots| - 1)
      && (t.results == s.results + [None] ==> step.PopCheck? && step.view == Taken(s))
  {
    RunKept(slots, steps);
    RefusedBy(Run(slots, steps), step);
  }

  lemma RefusedBy(s: Ring, step: Step)
    requires Kept(s)
    ensures var t := Apply(s, step);
      && (t.answers == s.answers + [false] ==> step.PushCheck? && Written(s) - step.view == |s.slots| - 1)
      && (t.results == s.results + [None] ==> step.PopCheck? && step.view == Taken(s))
  {
    assert Look(0);
    assert |s.answers + [false]| != |s.answers| && |s.results + [None]| != |s.results|;
    assert (s.answers + [true])[|s.answers|] && !(s.answers + [false])[|s.answers|];
    if s.consumer.CRead? { assert (s.results + [Some(s.consumer.value)])[|s.results|] != None; }
    match step
    case PushCheck(view) => if s.producer.PLoaded? && s.seenRead <= view < |s.readIdx| { FullView(s, view); }
    case PopCheck(view) => if s.consumer.CLoaded? && s.seenWrite <= view < |s.writeIdx| { EmptyView(s, view); }
    case _ =>
  }

  ghost predicate Decides(s: Ring, view: nat) {
    && (s.producer.PLoaded? && s.seenRead <= view < |s.readIdx| ==>
         (Apply(s, PushCheck(view)).producer.PIdle? <==> Written(s) - view == |s.slots| - 1))
    && (s.consumer.CLoaded? && s.seenWrite <= view < |s.writeIdx| ==>
         (Apply(s, PopCheck(view)).consumer.CIdle? <==> view == Taken(s)))
  }

  lemma InvDecides(s: Ring, view: nat)
    requires Kept(s)
    ensures Decides(s, view)
  {
    assert Look(0);
    if s.producer.PLoaded? && s.seenRead <= view < |s.readIdx| { FullView(s, view); }
    if s.consumer.CLoaded? && s.seenWrite <= view < |s.writeIdx| { EmptyView(s, view); }
  }

  /** What a step adds to the history. */
  lemma StepLogs(s: Ring, step: Step)
    requires |s.slots| > 0 && s.writeIdx != [] && s.readIdx != []
    ensures var t := Apply(s, step);
      && Pushed(t.log) == Pushed(s.log) + (if step.PushStore? && s.producer.PWritten? then [s.producer.value] else [])
      && Popped(t.log) == Popped(s.log) + (if step.PopStore? && s.consumer.CRead? then [s.consumer.value] else [])
  {
    match step
    case PushCheck(view) => FullLogs(s, view);
    case PushStore => if s.producer.PWritten? { PushedPoppedSnoc(s.log, Push(s.producer.value)); }
    case PopCheck(view) => EmptyLogs(s, view);
    case PopStore => if s.consumer.CRead? { PushedPoppedSnoc(s.log, Pop(s.consumer.value)); }
    case _ =>
  }

  lemma FullLogs(s: Ring, view: nat)
    requires |s.slots| > 0
    ensures Pushed(DoPushCheck(s, view).log) == Pushed(s.log) && Popped(DoPushCheck(s, view).log) == Popped(s.log)
  {
    PushedPoppedSnoc(s.log, Full);
  }

  lemma EmptyLogs(s: Ring, view: nat)
    ensures Pushed(DoPopCheck(s, view).log) == Pushed(s.log) && Popped(DoPopCheck(s, view).log) == Popped(s.log)
  {
    PushedPoppedSnoc(s.log, Empty);
  }

  function PushAlone<V>(s: Ring<V>, value: V, view: nat): Ring<V> {
    Apply(Apply(Apply(Apply(s, PushLoad(value)), PushCheck(view)), PushWrite), PushStore)
  }

  function PopAlone<V>(s: Ring<V>, view: nat): Ring<V> {
    Apply(Apply(Apply(Apply(s, PopLoad), PopCheck(view)), PopRead), PopStore)
  }

  /** In every reachable state a call that runs undisturbed ends after four steps: push with its value behind all
      others, or refused by the view it loads, and pop with the oldest value, or without one. */
  lemma CallsEnd<V>(slots: seq<V>, steps: seq<Step<V>>, value: V, view: nat)
    requires |slots| >= 2
    ensures var s := Run(slots, steps);
      s.producer.PIdle? && s.seenRead <= view < |s.readIdx| ==> PushEnds(s, value, view, PushAlone(s, value, view))
    ensures var s := Run(slots, steps);
      s.consumer.CIdle? && s.seenWrite <= view < |s.writeIdx| ==> PopEnds(s, view, PopAlone(s, view))
  {
    RunKept(slots, steps);
    var s := Run(slots, steps);
    if s.producer.PIdle? && s.seenRead <= view < |s.readIdx| { PushEndsAlone(s, value, view); }
    if s.consumer.CIdle? && s.seenWrite <= view < |s.writeIdx| { PopEndsAlone(s, view); }
  }

  ghost predicate PushEnds<V>(s: Ring<V>, value: V, view: nat, t: Ring<V>) {
    && t.producer.PIdle?
    && if Written(s) - view == |s.slots| - 1 then t.answers == s.answers + [false] && Contents(t) == Contents(s)
       else t.answers == s.answers + [true] && Contents(t) == Contents(s) + [value]
  }

  ghost predicate PopEnds<V>(s: Ring<V>, view: nat, t: Ring<V>) {
    && t.consumer.CIdle?
    && if view == Taken(s) then t.results == s.results + [None] && Contents(t) == Contents(s)
       else Contents(s) != [] && t.results == s.results + [Some(Contents(s)[0])] && Contents(t) == Contents(s)[1..]
  }

  lemma PushEndsAlone<V>(s: Ring<V>, value: V, view: nat)
    requires Kept(s) && s.producer.PIdle? && s.seenRead <= view < |s.readIdx|
    ensures PushEnds(s, value, view, PushAlone(s, value, view))
  {
    StepKeeps(s, PushLoad(value));
    var a := Apply(s, PushLoad(value));
    StepKeeps(a, PushCheck(view));
    FullView(a, view) by { assert Look(0); }
    var b := Apply(a, PushCheck(view));
    StepKeeps(b, PushWrite);
    var c := Apply(b, PushWrite);
    GrantedWrites(b);
    StepKeeps(c, PushStore);
  }

  lemma GrantedWrites<V>(s: Ring<V>)
    requires Kept(s)
    ensures s.producer.PGranted? ==> var t := Apply(s, PushWrite);
      t.producer.PWritten? && t.producer.value == s.producer.value && t.answers == s.answers
    ensures s.consumer.CGranted? ==> var t := Apply(s, PopRead); t.consumer.CRead? && t.results == s.results
  {
    assert Look(0);
    WhereGranted(s);
  }

  lemma PopEndsAlone<V>(s: Ring<V>, view: nat)
    requires Kept(s) && s.consumer.CIdle? && s.seenWrite <= view < |s.writeIdx|
    ensures PopEnds(s, view, PopAlone(s, view))
  {
    StepKeeps(s, PopLoad);
    var a := Apply(s, PopLoad);
    StepKeeps(a, PopCheck(view));
    EmptyView(a, view) by { assert Look(0); }
    var b := Apply(a, PopCheck(view));
    StepKeeps(b, PopRead);
    var c := Apply(b, PopRead);
    GrantedWrites(b);
    StepKeeps(c, PopStore);
  }

  /** The indices count the successful operations. */
  lemma {:induction false} Counted<V>(slots: seq<V>, steps: seq<Step<V>>)
    ensures CountsLog(Run(slots, steps))
    decreases |steps|
  {
    if steps == [] {
    } else {
      Counted(slots, steps[..|steps| - 1]);
      CountStep(Run(slots, steps[..|steps| - 1]), steps[|steps| - 1]);
    }
  }

  ghost predicate CountsLog(s: Ring) {
    |Pushed(s.log)| == Written(s) && |Popped(s.log)| == Taken(s)
  }

  lemma CountStep(s: Ring, step: Step)
    requires CountsLog(s)
    ensures CountsLog(Apply(s, step))
  {
    if |s.slots| > 0 && s.writeIdx != [] && s.readIdx != [] {
      StepLogs(s, step);
    }
  }
}
