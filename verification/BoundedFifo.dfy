/**
  A FIFO queue of bounded size and what it means for a history of operations to be one of its runs. The concurrent
  queues of this project are compared with it.
*/
module BoundedFifo {
  import opened Options
  import opened Sealing

  /** One finished operation with its result. */
  datatype Op<V> = Push(value: V) | Full | Pop(value: V) | Empty

  datatype Outcome<V> = Legal(queue: seq<V>) | Illegal

  /** What an operation with the given result does to a queue that holds at most `max` values, oldest first. */
  ghost function After<V>(queue: seq<V>, op: Op<V>, max: nat): Outcome<V> {
    match op
    case Push(v) => if |queue| < max then Legal(queue + [v]) else Illegal
    case Full => if |queue| >= max then Legal(queue) else Illegal
    case Pop(v) => if queue != [] && queue[0] == v then Legal(queue[1..]) else Illegal
    case Empty => if queue == [] then Legal(queue) else Illegal
  }

  /** Replays a history on an empty queue. */
  ghost function Replay<V>(log: seq<Op<V>>, max: nat): Outcome<V>
    decreases |log|
  {
    if log == [] then Legal([])
    else
      var before := Replay(log[..|log| - 1], max);
      if before.Illegal? then Illegal else After(before.queue, log[|log| - 1], max)
  }

  lemma ReplaySnoc<V>(log: seq<Op<V>>, op: Op<V>, max: nat)
    requires Replay(log, max).Legal?
    ensures Replay(log + [op], max) == After(Replay(log, max).queue, op, max)
  {
    assert (log + [op])[..|log + [op]| - 1] == log;
  }

  /** The history is a run that leaves this queue. */
  ghost predicate IsRun<V>(log: seq<Op<V>>, max: nat, queue: seq<V>) {
    forall z {:trigger Peek(z)} :: Peek(z) ==> Replay(log, max) == Legal(queue)
  }

  lemma LogSnoc<V>(log: seq<Op<V>>, max: nat, queue: seq<V>, op: Op<V>)
    requires IsRun(log, max, queue)
    ensures After(queue, op, max).Legal? ==> IsRun(log + [op], max, After(queue, op, max).queue)
  {
    assert Peek(0);
    ReplaySnoc(log, op, max);
  }

  /** The values of the successful pushes, in order. */
  function Pushed<V>(log: seq<Op<V>>): seq<V>
    decreases |log|
  {
    if log == [] then []
    else
      var op := log[|log| - 1];
      Pushed(log[..|log| - 1]) + (if op.Push? then [op.value] else [])
  }

  /** The values of the successful pops, in order. */
  function Popped<V>(log: seq<Op<V>>): seq<V>
    decreases |log|
  {
    if log == [] then []
    else
      var op := log[|log| - 1];
      Popped(log[..|log| - 1]) + (if op.Pop? then [op.value] else [])
  }

  lemma PushedPoppedSnoc<V>(log: seq<Op<V>>, op: Op<V>)
    ensures Pushed(log + [op]) == Pushed(log) + (if op.Push? then [op.value] else [])
    ensures Popped(log + [op]) == Popped(log) + (if op.Pop? then [op.value] else [])
  {
    assert (log + [op])[..|log + [op]| - 1] == log;
  }

  lemma RunMeans<V>(log: seq<Op<V>>, max: nat, queue: seq<V>)
    requires IsRun(log, max, queue)
    ensures Replay(log, max) == Legal(queue)
    ensures Pushed(log) == Popped(log) + queue && |queue| <= max
  {
    assert Peek(0);
    FirstInFirstOut(log, max);
  }

  /** Of the values offered to push so far, those whose call has answered true, in order. */
  function Accepted<V>(offered: seq<V>, answers: seq<bool>): seq<V>
    requires |answers| <= |offered|
    decreases |answers|
  {
    if answers == [] then []
    else
      var n := |answers| - 1;
      Accepted(offered, answers[..n]) + if answers[n] then [offered[n]] else []
  }

  lemma {:induction false} MoreOffered<V>(offered: seq<V>, answers: seq<bool>, value: V)
    requires |answers| <= |offered|
    ensures Accepted(offered + [value], answers) == Accepted(offered, answers)
    decreases |answers|
  {
    if answers == [] {
    } else {
      MoreOffered(offered, answers[..|answers| - 1], value);
    }
  }

  /** A single producer that has offered these values, got these answers and is inside push with `pending`, if that is
      a value: the pushes of the history are the accepted offers. */
  ghost predicate Offers<V>(offered: seq<V>, answers: seq<bool>, log: seq<Op<V>>, pending: Option<V>) {
    forall z {:trigger Peek(z)} :: Peek(z) ==>
      && |offered| == |answers| + (if pending.Some? then 1 else 0)
      && (pending.Some? ==> offered[|answers|] == pending.value)
      && Pushed(log) == Accepted(offered, answers)
  }

  lemma OffersMean<V>(offered: seq<V>, answers: seq<bool>, log: seq<Op<V>>, pending: Option<V>)
    requires Offers(offered, answers, log, pending)
    ensures |offered| == |answers| + (if pending.Some? then 1 else 0)
    ensures Pushed(log) == Accepted(offered, answers)
  {
    assert Peek(0);
  }

  lemma OfferBegins<V>(offered: seq<V>, answers: seq<bool>, log: seq<Op<V>>, value: V)
    requires Offers(offered, answers, log, None)
    ensures Offers(offered + [value], answers, log, Some(value))
  {
    assert Peek(0);
    MoreOffered(offered, answers, value);
  }

  lemma OfferRefused<V>(offered: seq<V>, answers: seq<bool>, log: seq<Op<V>>, value: V)
    requires Offers(offered, answers, log, Some(value))
    ensures Offers(offered, answers + [false], log, None) && Offers(offered, answers + [false], log + [Full], None)
  {
    assert Peek(0);
    PushedPoppedSnoc(log, Full);
    assert (answers + [false])[..|answers|] == answers;
  }

  lemma OfferAccepted<V>(offered: seq<V>, answers: seq<bool>, log: seq<Op<V>>, value: V)
    requires Offers(offered, answers, log, Some(value))
    ensures Offers(offered, answers + [true], log + [Push(value)], None)
  {
    assert Peek(0);
    PushedPoppedSnoc(log, Push(value));
    assert (answers + [true])[..|answers|] == answers;
  }

  lemma OfferElsewhere<V>(offered: seq<V>, answers: seq<bool>, log: seq<Op<V>>, pending: Option<V>, op: Op<V>)
    requires Offers(offered, answers, log, pending) && !op.Push?
    ensures Offers(offered, answers, log + [op], pending)
  {
    assert Peek(0);
    PushedPoppedSnoc(log, op);
  }

  /** The values that pop has answered with, in order; a call that answered false gave none. */
  function Gained<V>(results: seq<Option<V>>): seq<V>
    decreases |results|
  {
    if results == [] then []
    else
      var last := results[|results| - 1];
      Gained(results[..|results| - 1]) + if last.Some? then [last.value] else []
  }

  lemma GainedSnoc<V>(results: seq<Option<V>>, r: Option<V>)
    ensures Gained(results + [r]) == Gained(results) + if r.Some? then [r.value] else []
  {
    assert (results + [r])[..|results + [r]| - 1] == results;
  }

  /** A single consumer that has called pop `asked` times, has got these results and may be inside pop now: the pops of
      the history are the results. */
  ghost predicate Asks<V>(asked: nat, results: seq<Option<V>>, log: seq<Op<V>>, inside: bool) {
    forall z {:trigger Peek(z)} :: Peek(z) ==>
      asked == |results| + (if inside then 1 else 0) && Popped(log) == Gained(results)
  }

  lemma AsksMean<V>(asked: nat, results: seq<Option<V>>, log: seq<Op<V>>, inside: bool)
    requires Asks(asked, results, log, inside)
    ensures asked == |results| + (if inside then 1 else 0) && Popped(log) == Gained(results)
  {
    assert Peek(0);
  }

  lemma AskBegins<V>(asked: nat, results: seq<Option<V>>, log: seq<Op<V>>)
    requires Asks(asked, results, log, false)
    ensures Asks(asked + 1, results, log, true)
  {
    assert Peek(0);
  }

  lemma AskRefused<V>(asked: nat, results: seq<Option<V>>, log: seq<Op<V>>)
    requires Asks(asked, results, log, true)
    ensures Asks(asked, results + [None], log, false) && Asks(asked, results + [None], log + [Empty], false)
  {
    assert Peek(0);
    PushedPoppedSnoc(log, Empty);
    GainedSnoc(results, None);
  }

  lemma AskGranted<V>(asked: nat, results: seq<Option<V>>, log: seq<Op<V>>, value: V)
    requires Asks(asked, results, log, true)
    ensures Asks(asked, results + [Some(value)], log + [Pop(value)], false)
  {
    assert Peek(0);
    PushedPoppedSnoc(log, Pop(value));
    GainedSnoc(results, Some(value));
  }

  lemma AskElsewhere<V>(asked: nat, results: seq<Option<V>>, log: seq<Op<V>>, inside: bool, op: Op<V>)
    requires Asks(asked, results, log, inside) && !op.Pop?
    ensures Asks(asked, results, log + [op], inside)
  {
    assert Peek(0);
    PushedPoppedSnoc(log, op);
  }

  /** First in, first out: a legal history pops what it pushed, in the same order, up to what is still queued. */
  lemma AfterKeepsOrder<V>(queue: seq<V>, op: Op<V>, max: nat, popped: seq<V>)
    requires After(queue, op, max).Legal? && |queue| <= max
    ensures popped + queue + (if op.Push? then [op.value] else [])
            == popped + (if op.Pop? then [op.value] else []) + After(queue, op, max).queue
    ensures |After(queue, op, max).queue| <= max
  {
    if op.Pop? {
      assert queue == [op.value] + queue[1..];
    }
  }

  lemma {:induction false} FirstInFirstOut<V>(log: seq<Op<V>>, max: nat)
    requires Replay(log, max).Legal?
    ensures Pushed(log) == Popped(log) + Replay(log, max).queue
    ensures |Replay(log, max).queue| <= max
    decreases |log|
  {
    if log == [] {
    } else {
      var before := log[..|log| - 1];
      FirstInFirstOut(before, max);
      AfterKeepsOrder(Replay(before, max).queue, log[|log| - 1], max, Popped(before));
    }
  }

  /** The mutex-protected deque that the benchmarks compare with (MutexSPSCDeque). */
  class MutexDeque<V> {
    const maxSize: nat
    var queue: seq<V>

    constructor (maxSize: nat)
      ensures this.maxSize == maxSize && queue == []
    {
      this.maxSize := maxSize;
      queue := [];
    }

    method Push(value: V) returns (ok: bool)
      modifies this
      ensures After(old(queue), if ok then Op.Push(value) else Full, maxSize) == Legal(queue)
      ensures ok <==> |old(queue)| < maxSize
      ensures queue == if ok then old(queue) + [value] else old(queue)
    {
      if |queue| >= maxSize {
        return false;
      }
      queue := queue + [value];
      return true;
    }

    method Pop() returns (out: Option<V>)
      modifies this
      ensures After(old(queue), if out.Some? then Op.Pop(out.value) else Empty, maxSize) == Legal(queue)
      ensures out.Some? <==> old(queue) != []
      ensures if out.Some? then old(queue) == [out.value] + queue else queue == old(queue)
    {
      if queue == [] {
        return None;
      }
      out := Some(queue[0]);
      queue := queue[1..];
    }
  }
}
