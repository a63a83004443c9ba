/** Histories of calls: which thread called with which value. */
module Calls {
  datatype Call<V> = Call(thread: nat, value: V)

  /** The values of all calls, in order. */
  function Values<V>(calls: seq<Call<V>>): seq<V>
    decreases |calls|
  {
    if calls == [] then [] else Values(calls[..|calls| - 1]) + [calls[|calls| - 1].value]
  }

  /** The values of one thread's calls, in order. */
  function By<V>(calls: seq<Call<V>>, thread: nat): seq<V>
    decreases |calls|
  {
    if calls == [] then []
    else
      var last := calls[|calls| - 1];
      By(calls[..|calls| - 1], thread) + if last.thread == thread then [last.value] else []
  }

  lemma Snoc<V>(calls: seq<Call<V>>, c: Call<V>, thread: nat)
    ensures Values(calls + [c]) == Values(calls) + [c.value]
    ensures By(calls + [c], thread) == By(calls, thread) + if c.thread == thread then [c.value] else []
  {
    assert (calls + [c])[..|calls + [c]| - 1] == calls;
  }
}
