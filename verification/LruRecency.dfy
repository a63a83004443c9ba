/**
  What "least recently used" means, read off a trace of operations alone (topics/memory/lru_cache.cpp:16-36): no list
  of entries occurs in `Resident`, only which operation used which key when.
*/
module LruRecency {
  import opened Options
  import opened Sealing
  import opened LruSpec
  import Circle

  /** The place in the trace of the last operation that used the key, which is a put or a get that found it; -1 if there
      is none. */
  ghost function LastUse<K, V>(ops: seq<Op<K, V>>, cap: nat, key: K): (i: int)
    ensures -1 <= i < |ops|
    decreases |ops|, 0
  {
    if ops == [] then -1
    else
      var before, op := ops[..|ops| - 1], ops[|ops| - 1];
      if op.key == key && (op.Put? || Resident(before, cap, key)) then |ops| - 1 else LastUse(before, cap, key)
  }

  /** The keys used more recently. */
  ghost function Newer<K, V>(ops: seq<Op<K, V>>, cap: nat, key: K): set<K>
    decreases |ops|, 1
  {
    set i | 0 <= i < |ops| && LastUse(ops, cap, ops[i].key) > LastUse(ops, cap, key) :: ops[i].key
  }

  /** The cache holds the keys that have been used with fewer than `cap` others used since. */
  ghost predicate Resident<K, V>(ops: seq<Op<K, V>>, cap: nat, key: K)
    decreases |ops|, 2
  {
    LastUse(ops, cap, key) >= 0 && |Newer(ops, cap, key)| < cap
  }

  /** The list has its keys in the order of their last use, and lacks older ones only, and those only when full. */
  ghost predicate Ranked<K, V>(list: seq<Pair<K, V>>, ops: seq<Op<K, V>>, cap: nat) {
    forall z {:trigger Look(z)} :: Look(z) ==>
      && |list| <= cap
      && (forall i :: 0 <= i < |list| ==> LastUse(ops, cap, list[i].key) >= 0)
      && (forall i, j :: 0 <= i < j < |list| ==> LastUse(ops, cap, list[i].key) > LastUse(ops, cap, list[j].key))
      && (forall n :: 0 <= n < |ops| && LastUse(ops, cap, ops[n].key) >= 0 ==> Kept(list, ops, cap, ops[n].key))
  }

  ghost predicate Kept<K, V>(list: seq<Pair<K, V>>, ops: seq<Op<K, V>>, cap: nat, key: K) {
    || (exists i :: 0 <= i < |list| && list[i].key == key)
    || (|list| == cap && forall i :: 0 <= i < |list| ==> LastUse(ops, cap, list[i].key) > LastUse(ops, cap, key))
  }

  // ----- A ranked list holds the resident keys -----

  lemma {:induction false} UsedOccurs<K, V>(ops: seq<Op<K, V>>, cap: nat, key: K)
    requires LastUse(ops, cap, key) >= 0
    ensures ops[LastUse(ops, cap, key)].key == key
    decreases |ops|
  {
    var before, op := ops[..|ops| - 1], ops[|ops| - 1];
    if op.key == key && (op.Put? || Resident(before, cap, key)) {
    } else {
      UsedOccurs(before, cap, key);
    }
  }

  ghost function Keys<K, V>(list: seq<Pair<K, V>>): set<K> {
    set i | 0 <= i < |list| :: list[i].key
  }

  lemma {:induction false} KeysCount<K, V>(list: seq<Pair<K, V>>)
    ensures |Keys(list)| <= |list| && (DistinctKeys(list) ==> |Keys(list)| == |list|)
  {
    if list == [] {
    } else {
      var rest, last := list[..|list| - 1], list[|list| - 1];
      KeysCount(rest);
      assert Keys(list) == Keys(rest) + {last.key};
    }
  }

  lemma ListedIsResident<K, V>(list: seq<Pair<K, V>>, ops: seq<Op<K, V>>, cap: nat, i: nat)
    requires Ranked(list, ops, cap) && i < |list|
    ensures Resident(ops, cap, list[i].key)
  {
    assert Look(0);
    forall key | key in Newer(ops, cap, list[i].key) ensures key in Keys(list[..i]) {
      assert Kept(list, ops, cap, key);
      var j :| 0 <= j < |list| && list[j].key == key;
      assert j < i && list[..i][j] == list[j];
    }
    Circle.SubsetSize(Newer(ops, cap, list[i].key), Keys(list[..i]));
    KeysCount(list[..i]);
  }

  lemma UnlistedIsNot<K, V>(list: seq<Pair<K, V>>, ops: seq<Op<K, V>>, cap: nat, key: K)
    requires Ranked(list, ops, cap) && DistinctKeys(list) && forall i :: 0 <= i < |list| ==> list[i].key != key
    ensures !Resident(ops, cap, key)
  {
    assert Look(0);
    if LastUse(ops, cap, key) >= 0 {
      UsedOccurs(ops, cap, key);
      assert Kept(list, ops, cap, key);
      forall k | k in Keys(list) ensures k in Newer(ops, cap, key) {
        UsedOccurs(ops, cap, k);
      }
      Circle.SubsetSize(Keys(list), Newer(ops, cap, key));
      KeysCount(list);
    }
  }

  lemma ListedIff<K, V>(list: seq<Pair<K, V>>, ops: seq<Op<K, V>>, cap: nat, key: K)
    requires Ranked(list, ops, cap) && DistinctKeys(list)
    ensures Resident(ops, cap, key) <==> Lookup(list, key).Some?
  {
    LookupFinds(list, key);
    if Lookup(list, key).Some? {
      var i :| 0 <= i < |list| && list[i] == Pair(key, Lookup(list, key).value);
      ListedIsResident(list, ops, cap, i);
    } else {
      UnlistedIsNot(list, ops, cap, key);
    }
  }

  // ----- What an operation does to the list -----

  lemma {:induction false} WithoutAt<K, V>(list: seq<Pair<K, V>>, key: K) returns (k: nat)
    requires DistinctKeys(list) && Lookup(list, key).Some?
    ensures k < |list| && list[k] == Pair(key, Lookup(list, key).value)
    ensures Without(list, key) == list[..k] + list[k + 1..]
  {
    if list[0].key == key {
      k := 0;
      LookupFinds(list[1..], key);
      OthersDistinct(list);
      WithoutLength(list[1..], key);
    } else {
      var j := WithoutAt(list[1..], key);
      k := j + 1;
      assert list[..k] == [list[0]] + list[1..][..j];
      assert list[1..][j + 1..] == list[k + 1..];
    }
  }

  /** A get that finds its key moves the entry to the front; all others keep their order. */
  lemma GetRefreshes<K, V>(list: seq<Pair<K, V>>, key: K) returns (k: nat)
    requires DistinctKeys(list) && Lookup(list, key).Some?
    ensures k < |list| && list[k].key == key
    ensures AfterGet(list, key) == [list[k]] + list[..k] + list[k + 1..]
  {
    k := WithoutAt(list, key);
  }

  lemma PutRefreshes<K, V>(list: seq<Pair<K, V>>, key: K, value: V, cap: nat) returns (k: nat)
    requires DistinctKeys(list) && Lookup(list, key).Some?
    ensures k < |list| && list[k].key == key
    ensures AfterPut(list, key, value, cap) == [Pair(key, value)] + list[..k] + list[k + 1..]
  {
    k := WithoutAt(list, key);
  }

  lemma UseSnoc<K, V>(ops: seq<Op<K, V>>, cap: nat, op: Op<K, V>, key: K)
    ensures LastUse(ops + [op], cap, key)
         == if op.key == key && (op.Put? || Resident(ops, cap, key)) then |ops| else LastUse(ops, cap, key)
  {
    assert (ops + [op])[..|ops + [op]| - 1] == ops;
  }

  /** The rest of the list without the entry at k. */
  ghost predicate Lacks<K, V>(list: seq<Pair<K, V>>, rest: seq<Pair<K, V>>, k: nat) {
    && |rest| == (if k < |list| then |list| - 1 else |list|)
    && forall i :: 0 <= i < |rest| ==> rest[i] == list[if i < k then i else i + 1]
  }

  /** A key other than the operation's keeps its rank. */
  lemma OthersSame<K, V>(ops: seq<Op<K, V>>, cap: nat, op: Op<K, V>, list: seq<Pair<K, V>>)
    requires forall i :: 0 <= i < |list| ==> list[i].key != op.key
    ensures forall i :: 0 <= i < |list| ==> LastUse(ops + [op], cap, list[i].key) == LastUse(ops, cap, list[i].key)
  {
    forall i | 0 <= i < |list| ensures LastUse(ops + [op], cap, list[i].key) == LastUse(ops, cap, list[i].key) {
      UseSnoc(ops, cap, op, list[i].key);
    }
  }

  lemma FrontOrdered<K, V>(list: seq<Pair<K, V>>, ops: seq<Op<K, V>>, cap: nat, op: Op<K, V>, p: Pair<K, V>,
                           rest: seq<Pair<K, V>>, k: nat)
    requires Ranked(list, ops, cap) && Lacks(list, rest, k)
    requires p.key == op.key && (op.Put? || Resident(ops, cap, op.key))
    requires forall i :: 0 <= i < |rest| ==> rest[i].key != op.key
    ensures var list', ops' := [p] + rest, ops + [op];
      && (forall i :: 0 <= i < |list'| ==> LastUse(ops', cap, list'[i].key) >= 0)
      && (forall i, j :: 0 <= i < j < |list'| ==> LastUse(ops', cap, list'[i].key) > LastUse(ops', cap, list'[j].key))
  {
    assert Look(0);
    UseSnoc(ops, cap, op, op.key);
    OthersSame(ops, cap, op, rest);
  }

  /** What stays in the list, or is older than all that stay. */
  lemma RestKeeps<K, V>(list: seq<Pair<K, V>>, ops: seq<Op<K, V>>, cap: nat, rest: seq<Pair<K, V>>, k: nat, key: K)
    requires Ranked(list, ops, cap) && Lacks(list, rest, k) && Kept(list, ops, cap, key)
    requires if k < |list| then list[k].key != key || k == |list| - 1 == cap - 1 else |list| < cap
    ensures || (exists i :: 0 <= i < |rest| && rest[i].key == key)
            || (|rest| + 1 == cap && forall i :: 0 <= i < |rest| ==>
                 LastUse(ops, cap, rest[i].key) > LastUse(ops, cap, key))
  {
    assert Look(0);
    if i :| 0 <= i < |list| && list[i].key == key {
      if i < k {
        assert rest[i].key == key;
      } else if i > k {
        assert rest[i - 1].key == key;
      }
    }
  }

  lemma FrontKeeps<K, V>(list: seq<Pair<K, V>>, ops: seq<Op<K, V>>, cap: nat, op: Op<K, V>, p: Pair<K, V>,
                         rest: seq<Pair<K, V>>, k: nat, key: K)
    requires Ranked(list, ops, cap) && Lacks(list, rest, k) && Kept(list, ops, cap, key)
    requires p.key == op.key && (op.Put? || Resident(ops, cap, op.key)) && key != op.key
    requires forall i :: 0 <= i < |rest| ==> rest[i].key != op.key
    requires if k < |list| then list[k].key == op.key || k == |list| - 1 == cap - 1 else |list| < cap
    ensures Kept([p] + rest, ops + [op], cap, key)
  {
    var list' := [p] + rest;
    RestKeeps(list, ops, cap, rest, k, key);
    UseSnoc(ops, cap, op, op.key);
    UseSnoc(ops, cap, op, key);
    OthersSame(ops, cap, op, rest);
    if i :| 0 <= i < |rest| && rest[i].key == key {
      assert list'[i + 1].key == key;
    }
  }

  /** The entry at k, or a new one, comes to the front of a ranked list, and what else is left of it stays ranked. */
  lemma FrontRanked<K, V>(list: seq<Pair<K, V>>, ops: seq<Op<K, V>>, cap: nat, op: Op<K, V>, p: Pair<K, V>,
                          rest: seq<Pair<K, V>>, k: nat)
    requires Ranked(list, ops, cap) && Lacks(list, rest, k) && cap >= 1
    requires p.key == op.key && (op.Put? || Resident(ops, cap, op.key))
    requires forall i :: 0 <= i < |rest| ==> rest[i].key != op.key
    requires if k < |list| then list[k].key == op.key || k == |list| - 1 == cap - 1 else |list| < cap
    ensures Ranked([p] + rest, ops + [op], cap)
  {
    var list', ops' := [p] + rest, ops + [op];
    FrontOrdered(list, ops, cap, op, p, rest, k);
    assert |list'| <= cap by { assert Look(0); }
    forall n | 0 <= n < |ops'| && LastUse(ops', cap, ops'[n].key) >= 0
      ensures Kept(list', ops', cap, ops'[n].key)
    {
      var key := ops'[n].key;
      UseSnoc(ops, cap, op, key);
      if key == op.key {
        assert list'[0].key == key;
      } else {
        assert Kept(list, ops, cap, key) by {
          assert Look(0);
          assert ops[n].key == key;
        }
        FrontKeeps(list, ops, cap, op, p, rest, k, key);
      }
    }
  }

  lemma MissRanked<K, V>(list: seq<Pair<K, V>>, ops: seq<Op<K, V>>, cap: nat, op: Op<K, V>)
    requires Ranked(list, ops, cap) && op.Get? && !Resident(ops, cap, op.key)
    ensures Ranked(list, ops + [op], cap)
  {
    assert Look(0);
    var ops' := ops + [op];
    forall key ensures LastUse(ops', cap, key) == LastUse(ops, cap, key) { UseSnoc(ops, cap, op, key); }
    forall n | 0 <= n < |ops'| && LastUse(ops', cap, ops'[n].key) >= 0
      ensures Kept(list, ops', cap, ops'[n].key)
    {
      var key := ops'[n].key;
      UsedOccurs(ops, cap, key);
      assert Kept(list, ops, cap, key);
    }
  }

  lemma StepRanked<K, V>(list: seq<Pair<K, V>>, ops: seq<Op<K, V>>, cap: nat, op: Op<K, V>)
    requires Ranked(list, ops, cap) && DistinctKeys(list) && |list| <= cap && cap >= 1
    ensures Ranked(After(list, op, cap), ops + [op], cap)
  {
    ListedIff(list, ops, cap, op.key);
    LookupFinds(list, op.key);
    var found := Lookup(list, op.key);
    if found.Some? {
      var p := Pair(op.key, if op.Put? then op.value else found.value);
      var k := WithoutAt(list, op.key);
      FrontRanked(list, ops, cap, op, p, Without(list, op.key), k);
    } else if op.Get? {
      MissRanked(list, ops, cap, op);
    } else {
      var full := |list| >= cap;
      FrontRanked(list, ops, cap, op, Pair(op.key, op.value), if full then list[..|list| - 1] else list,
                  if full then |list| - 1 else |list|);
    }
  }

  // ----- Main results -----

  /** After every trace the cache's list has its keys in strictly decreasing order of their last use. */
  lemma {:induction false} RunRanked<K, V>(ops: seq<Op<K, V>>, cap: nat)
    requires cap >= 1
    ensures Ranked(Run(ops, cap), ops, cap) && DistinctKeys(Run(ops, cap)) && |Run(ops, cap)| <= cap
    decreases |ops|
  {
    RunNested(ops, cap, cap);
    assert Peek(0);
    if ops == [] {
    } else {
      var before, op := ops[..|ops| - 1], ops[|ops| - 1];
      assert before + [op] == ops;
      RunRanked(before, cap);
      StepRanked(Run(before, cap), before, cap, op);
    }
  }

  /** What every get answers, from the trace alone: it finds the key if and only if the key was used with fewer than
      `cap` others used since, and then answers the value last put for it. */
  lemma HitsExactly<K, V>(ops: seq<Op<K, V>>, cap: nat, key: K)
    requires cap >= 1
    ensures Lookup(Run(ops, cap), key) == if Resident(ops, cap, key) then LastPut(ops, key) else None
  {
    RunRanked(ops, cap);
    ListedIff(Run(ops, cap), ops, cap, key);
    AnswersAreLatest(ops, key, cap);
  }

  /** The order of the list, and what an insertion into a full cache drops: exactly the key whose last use is longest
      ago. */
  lemma OldestIsDropped<K, V>(ops: seq<Op<K, V>>, cap: nat, key: K, value: V)
    requires cap >= 1
    ensures var list := Run(ops, cap);
      && (forall i, j :: 0 <= i < j < |list| ==> LastUse(ops, cap, list[i].key) > LastUse(ops, cap, list[j].key))
      && (Lookup(list, key).None? && |list| == cap ==>
           Run(ops + [Put(key, value)], cap) == [Pair(key, value)] + list[..cap - 1])
  {
    RunRanked(ops, cap);
    assert Look(0);
    assert (ops + [Put(key, value)])[..|ops|] == ops;
  }
}
