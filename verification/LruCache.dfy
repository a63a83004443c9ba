/** What an LRU cache does, on the list of its entries, most recently used first. */
module LruSpec {
  import opened Options
  import opened Sealing

  datatype Pair<K, V> = Pair(key: K, value: V)

  datatype Op<K, V> = Get(key: K) | Put(key: K, value: V)

  function Lookup<K(==), V>(list: seq<Pair<K, V>>, key: K): Option<V> {
    if list == [] then None else if list[0].key == key then Some(list[0].value) else Lookup(list[1..], key)
  }

  function Without<K(==), V>(list: seq<Pair<K, V>>, key: K): seq<Pair<K, V>> {
    if list == [] then []
    else (if list[0].key == key then [] else [list[0]]) + Without(list[1..], key)
  }

  /** A hit moves the entry to the front; a miss changes nothing. */
  function AfterGet<K(==), V>(list: seq<Pair<K, V>>, key: K): seq<Pair<K, V>> {
    match Lookup(list, key)
    case None => list
    case Some(value) => [Pair(key, value)] + Without(list, key)
  }

  /** A put moves or adds the entry to the front; adding to a full list drops its last entry. */
  function AfterPut<K(==), V>(list: seq<Pair<K, V>>, key: K, value: V, cap: nat): seq<Pair<K, V>> {
    [Pair(key, value)] +
    if Lookup(list, key).Some? then Without(list, key)
    else if |list| >= cap && list != [] then list[..|list| - 1]
    else list
  }

  function After<K(==), V>(list: seq<Pair<K, V>>, op: Op<K, V>, cap: nat): seq<Pair<K, V>> {
    match op
    case Get(key) => AfterGet(list, key)
    case Put(key, value) => AfterPut(list, key, value, cap)
  }

  /** The list after a trace of operations on an empty cache. */
  function Run<K(==), V>(ops: seq<Op<K, V>>, cap: nat): seq<Pair<K, V>>
    decreases |ops|
  {
    if ops == [] then [] else After(Run(ops[..|ops| - 1], cap), ops[|ops| - 1], cap)
  }

  ghost predicate DistinctKeys<K, V>(list: seq<Pair<K, V>>) {
    forall i, j :: 0 <= i < j < |list| ==> list[i].key != list[j].key
  }

  lemma {:induction false} LookupFinds<K, V>(list: seq<Pair<K, V>>, key: K)
    ensures Lookup(list, key).None? <==> forall p :: p in list ==> p.key != key
    ensures Lookup(list, key).Some? ==> Pair(key, Lookup(list, key).value) in list
  {
    if list == [] {
    } else {
      LookupFinds(list[1..], key);
      assert forall p :: p in list <==> p == list[0] || p in list[1..];
    }
  }

  lemma OthersDistinct<K, V>(list: seq<Pair<K, V>>)
    requires DistinctKeys(list) && list != []
    ensures forall p :: p in list[1..] ==> p.key != list[0].key
  {
    forall p | p in list[1..] ensures p.key != list[0].key {
      var j :| 0 <= j < |list[1..]| && list[1..][j] == p;
      assert list[j + 1] == p;
    }
  }

  lemma {:induction false} WithoutHas<K, V>(list: seq<Pair<K, V>>, key: K, p: Pair<K, V>)
    ensures p in Without(list, key) <==> p in list && p.key != key
  {
    if list == [] {
    } else {
      WithoutHas(list[1..], key, p);
      assert p in list <==> p == list[0] || p in list[1..];
    }
  }

  lemma ConsDistinct<K, V>(p: Pair<K, V>, list: seq<Pair<K, V>>)
    requires DistinctKeys(list) && forall q :: q in list ==> q.key != p.key
    ensures DistinctKeys([p] + list)
  {
  }

  lemma {:induction false} WithoutDistinct<K, V>(list: seq<Pair<K, V>>, key: K)
    requires DistinctKeys(list)
    ensures DistinctKeys(Without(list, key))
  {
    if list == [] {
    } else {
      WithoutDistinct(list[1..], key);
      if list[0].key == key {
        assert Without(list, key) == Without(list[1..], key);
      } else {
        OthersDistinct(list);
        var rest := Without(list[1..], key);
        forall q | q in rest ensures q in list[1..] { WithoutHas(list[1..], key, q); }
        ConsDistinct(list[0], Without(list[1..], key));
      }
    }
  }

  lemma {:induction false} WithoutLength<K, V>(list: seq<Pair<K, V>>, key: K)
    requires DistinctKeys(list)
    ensures Lookup(list, key).None? ==> Without(list, key) == list
    ensures Lookup(list, key).Some? ==> |Without(list, key)| == |list| - 1
  {
    if list == [] {
    } else {
      WithoutLength(list[1..], key);
      if list[0].key == key {
        LookupFinds(list[1..], key);
      }
    }
  }

  // ----- Subsequences -----

  ghost predicate Sub<T>(a: seq<T>, b: seq<T>) {
    if a == [] then true
    else if b == [] then false
    else if a[0] == b[0] then Sub(a[1..], b[1..])
    else Sub(a, b[1..])
  }

  lemma {:induction false} SubTail<T>(a: seq<T>, b: seq<T>)
    requires Sub(a, b) && a != []
    ensures Sub(a[1..], b)
    decreases |b|, 0
  {
    if a[0] == b[0] {
      if a[1..] != [] && a[1] != b[0] {
      } else if a[1..] != [] {
        SubTail(a[1..], b[1..]);
      }
    } else {
      SubTail(a, b[1..]);
      SubSkip(a[1..], b[0], b[1..]);
      assert b == [b[0]] + b[1..];
    }
  }

  lemma {:induction false} SubSkip<T>(a: seq<T>, x: T, b: seq<T>)
    requires Sub(a, b)
    ensures Sub(a, [x] + b)
    decreases |b|, 1
  {
    assert ([x] + b)[1..] == b;
    if a != [] && a[0] == x {
      SubTail(a, b);
    }
  }

  lemma SubCons<T>(a: seq<T>, x: T, b: seq<T>)
    requires Sub(a, b)
    ensures Sub([x] + a, [x] + b)
  {
    assert ([x] + a)[1..] == a && ([x] + b)[1..] == b;
  }

  lemma {:induction false} SubIn<T>(a: seq<T>, b: seq<T>)
    requires Sub(a, b)
    ensures |a| <= |b|
    ensures forall x :: x in a ==> x in b
    ensures |a| == |b| ==> a == b
    decreases |b|
  {
    if a == [] {
    } else {
      if a[0] == b[0] {
        SubIn(a[1..], b[1..]);
        assert a == [a[0]] + a[1..] && b == [b[0]] + b[1..];
      } else {
        SubIn(a, b[1..]);
      }
    }
  }

  /** Dropping the last of both keeps the one in the other. */
  lemma {:induction false} SubDropLast<T>(a: seq<T>, b: seq<T>)
    requires Sub(a, b) && a != []
    ensures b != [] && Sub(a[..|a| - 1], b[..|b| - 1])
    decreases |b|
  {
    var a', b' := a[..|a| - 1], b[..|b| - 1];
    if a' == [] {
    } else {
      if a[0] == b[0] {
        SubDropLast(a[1..], b[1..]);
        assert a'[1..] == a[1..][..|a[1..]| - 1];
      } else {
        SubDropLast(a, b[1..]);
      }
      assert b[1..] != [] && b'[1..] == b[1..][..|b[1..]| - 1] && b'[0] == b[0];
    }
  }

  lemma {:induction false} SubPrefix<T>(a: seq<T>, b: seq<T>)
    requires Sub(a, b) && a != []
    ensures Sub(a[..|a| - 1], b)
    decreases |b|
  {
    var a' := a[..|a| - 1];
    if a' == [] {
    } else {
      if a[0] == b[0] {
        SubPrefix(a[1..], b[1..]);
        assert a'[1..] == a[1..][..|a[1..]| - 1];
      } else {
        SubPrefix(a, b[1..]);
      }
    }
  }

  lemma {:induction false} SubWithout<K, V>(a: seq<Pair<K, V>>, b: seq<Pair<K, V>>, key: K)
    requires Sub(a, b)
    ensures Sub(Without(a, key), Without(b, key))
    decreases |b|
  {
    if a == [] {
    } else {
      if a[0] == b[0] {
        SubWithout(a[1..], b[1..], key);
        if a[0].key != key {
          SubCons(Without(a[1..], key), a[0], Without(b[1..], key));
        } else {
          assert Without(a, key) == Without(a[1..], key) && Without(b, key) == Without(b[1..], key);
        }
      } else {
        SubWithout(a, b[1..], key);
        if b[0].key != key {
          SubSkip(Without(a, key), b[0], Without(b[1..], key));
        } else {
          assert Without(b, key) == Without(b[1..], key);
        }
      }
    }
  }

  /** What the smaller list finds, the larger finds, with the same value. */
  lemma SubLookup<K, V>(a: seq<Pair<K, V>>, b: seq<Pair<K, V>>, key: K)
    requires Sub(a, b) && DistinctKeys(b)
    ensures Lookup(a, key).Some? ==> Lookup(b, key) == Lookup(a, key)
  {
    SubIn(a, b);
    LookupFinds(a, key);
    LookupFinds(b, key);
  }

  // ----- Monotone in capacity -----

  /** The smaller cache's list is a subsequence of the larger's, and the same while it is not full. */
  ghost predicate Nested<K, V>(a: seq<Pair<K, V>>, b: seq<Pair<K, V>>, small: nat, large: nat) {
    forall z {:trigger Peek(z)} :: Peek(z) ==>
      && DistinctKeys(a) && DistinctKeys(b) && |a| <= small && |b| <= large
      && Sub(a, b) && (|a| < small ==> a == b)
  }

  lemma {:induction false} SubSelf<T>(a: seq<T>)
    ensures Sub(a, a)
  {
    if a != [] { SubSelf(a[1..]); }
  }

  lemma AfterDistinct<K, V>(list: seq<Pair<K, V>>, op: Op<K, V>, cap: nat)
    requires DistinctKeys(list) && |list| <= cap && cap >= 1
    ensures DistinctKeys(After(list, op, cap)) && |list| <= |After(list, op, cap)| <= cap
  {
    LookupFinds(list, op.key);
    WithoutDistinct(list, op.key);
    WithoutLength(list, op.key);
    var found := Lookup(list, op.key);
    var rest := Without(list, op.key);
    forall q | q in rest ensures q.key != op.key { WithoutHas(list, op.key, q); }
    match op
    case Get(key) =>
      if found.Some? { ConsDistinct(Pair(key, found.value), Without(list, key)); }
    case Put(key, value) =>
      if found.Some? {
        ConsDistinct(Pair(key, value), Without(list, key));
      } else if |list| >= cap {
        ConsDistinct(Pair(key, value), list[..|list| - 1]);
      } else {
        ConsDistinct(Pair(key, value), list);
      }
  }

  lemma GetNested<K, V>(a: seq<Pair<K, V>>, b: seq<Pair<K, V>>, key: K)
    requires Sub(a, b) && DistinctKeys(a) && DistinctKeys(b)
    ensures Sub(AfterGet(a, key), AfterGet(b, key))
  {
    SubLookup(a, b, key);
    if Lookup(b, key).Some? {
      var p := Pair(key, Lookup(b, key).value);
      SubWithout(a, b, key);
      if Lookup(a, key).Some? {
        SubCons(Without(a, key), p, Without(b, key));
      } else {
        WithoutLength(a, key);
        SubSkip(a, p, Without(b, key));
      }
    }
  }

  lemma PutNested<K, V>(a: seq<Pair<K, V>>, b: seq<Pair<K, V>>, key: K, value: V, small: nat, large: nat)
    requires Nested(a, b, small, large) && 1 <= small <= large
    ensures Sub(AfterPut(a, key, value, small), AfterPut(b, key, value, large))
  {
    assert Peek(0);
    var a' := AfterPut(a, key, value, small)[1..];
    var b' := AfterPut(b, key, value, large)[1..];
    SubLookup(a, b, key);
    SubIn(a, b);
    if Lookup(b, key).Some? {
      SubWithout(a, b, key);
      WithoutLength(a, key);
      if Lookup(a, key).None? && |a| >= small {
        SubPrefix(a, Without(b, key));
      }
    } else if |a| >= small {
      if |b| >= large { SubDropLast(a, b); } else { SubPrefix(a, b); }
    }
    assert Sub(a', b');
    SubCons(a', Pair(key, value), b');
  }

  lemma StepNested<K, V>(a: seq<Pair<K, V>>, b: seq<Pair<K, V>>, op: Op<K, V>, small: nat, large: nat)
    requires Nested(a, b, small, large) && 1 <= small <= large
    ensures Nested(After(a, op, small), After(b, op, large), small, large)
  {
    assert Peek(0);
    AfterDistinct(a, op, small);
    AfterDistinct(b, op, large);
    match op
    case Get(key) => GetNested(a, b, key);
    case Put(key, value) => PutNested(a, b, key, value, small, large);
  }

  lemma {:induction false} RunNested<K, V>(ops: seq<Op<K, V>>, small: nat, large: nat)
    requires 1 <= small <= large
    ensures Nested(Run(ops, small), Run(ops, large), small, large)
    decreases |ops|
  {
    if ops == [] {
    } else {
      var before := ops[..|ops| - 1];
      RunNested(before, small, large);
      StepNested(Run(before, small), Run(before, large), ops[|ops| - 1], small, large);
    }
  }

  /** On every trace, what hits in the smaller cache hits in the larger with the same value. */
  lemma LargerCacheHits<K, V>(ops: seq<Op<K, V>>, key: K, small: nat, large: nat)
    requires 1 <= small <= large
    ensures Sub(Run(ops, small), Run(ops, large))
    ensures Lookup(Run(ops, small), key).Some? ==> Lookup(Run(ops, large), key) == Lookup(Run(ops, small), key)
  {
    RunNested(ops, small, large);
    assert Peek(0);
    SubLookup(Run(ops, small), Run(ops, large), key);
  }

  // ----- Answers -----

  /** The value last put for the key. */
  function LastPut<K(==), V>(ops: seq<Op<K, V>>, key: K): Option<V>
    decreases |ops|
  {
    if ops == [] then None
    else
      var op := ops[|ops| - 1];
      if op.Put? && op.key == key then Some(op.value) else LastPut(ops[..|ops| - 1], key)
  }

  lemma {:induction false} LookupWithout<K, V>(list: seq<Pair<K, V>>, key: K, other: K)
    requires other != key
    ensures Lookup(Without(list, key), other) == Lookup(list, other)
  {
    if list == [] {
    } else {
      LookupWithout(list[1..], key, other);
      var rest := Without(list[1..], key);
      if list[0].key == key {
        assert Without(list, key) == rest;
      } else {
        assert Without(list, key)[1..] == rest;
      }
    }
  }

  lemma {:induction false} LookupPrefix<K, V>(list: seq<Pair<K, V>>, n: nat, key: K)
    requires n <= |list|
    ensures Lookup(list[..n], key).Some? ==> Lookup(list[..n], key) == Lookup(list, key)
  {
    if n == 0 {
    } else {
      LookupPrefix(list[1..], n - 1, key);
      assert list[..n][1..] == list[1..][..n - 1];
    }
  }

  /** The cache forgets but never answers with anything but the last value put; and it remembers the last key put. */
  lemma {:induction false} AnswersAreLatest<K, V>(ops: seq<Op<K, V>>, key: K, cap: nat)
    requires cap >= 1
    ensures Lookup(Run(ops, cap), key).Some? ==> Lookup(Run(ops, cap), key) == LastPut(ops, key)
    ensures ops != [] && ops[|ops| - 1].Put? && ops[|ops| - 1].key == key ==>
              Lookup(Run(ops, cap), key) == Some(ops[|ops| - 1].value)
    decreases |ops|
  {
    if ops == [] {
    } else {
      var before := ops[..|ops| - 1];
      AnswersAreLatest(before, key, cap);
      var list, op := Run(before, cap), ops[|ops| - 1];
      var next := After(list, op, cap);
      if op.key != key {
        LookupWithout(list, op.key, key);
        if next != list {
          assert Lookup(next, key) == Lookup(next[1..], key);
          if list != [] { LookupPrefix(list, |list| - 1, key); }
        }
      }
    }
  }
}

/**
  The cache of topics/memory/lru_cache.cpp (lines 13-43). A std::list of nodes is the order of the node addresses and
  what each address holds; an iterator is such an address and stays valid while its node is moved about.
*/
module LruCaches {
  import opened Options
  import opened Sealing
  import opened LruSpec

  type Node = nat

  /** The list without a node: what splice does before it puts the node in front. */
  function Unlink(list: seq<Node>, node: Node): seq<Node> {
    if list == [] then [] else (if list[0] == node then [] else [list[0]]) + Unlink(list[1..], node)
  }

  ghost predicate Once(list: seq<Node>) {
    forall i, j :: 0 <= i < j < |list| ==> list[i] != list[j]
  }

  lemma ConsOnce(node: Node, list: seq<Node>)
    requires Once(list) && node !in list
    ensures Once([node] + list)
  {
  }

  lemma ConsLists<K, V>(node: Node, list: seq<Node>, nodes: map<Node, Pair<K, V>>, nodes': map<Node, Pair<K, V>>,
                        entries: seq<Pair<K, V>>)
    requires Lists(list, nodes, entries) && node in nodes'
    requires forall n :: n in list ==> n in nodes' && n in nodes && nodes'[n] == nodes[n]
    ensures Lists([node] + list, nodes', [nodes'[node]] + entries)
  {
    forall i | 0 <= i < |[node] + list|
      ensures ([node] + list)[i] in nodes' && ([nodes'[node]] + entries)[i] == nodes'[([node] + list)[i]]
    {
      if i > 0 { assert list[i - 1] in list; }
    }
  }

  /** List and map are in bijection: the map takes each key to the one node that holds it. */
  ghost predicate Linked<K, V>(list: seq<Node>, nodes: map<Node, Pair<K, V>>, index: map<K, Node>) {
    && Once(list)
    && (forall n :: n in list <==> n in nodes)
    && (forall k :: k in index ==> index[k] in nodes && nodes[index[k]].key == k)
    && (forall n :: n in nodes ==> nodes[n].key in index && index[nodes[n].key] == n)
  }

  ghost predicate Lists<K, V>(list: seq<Node>, nodes: map<Node, Pair<K, V>>, entries: seq<Pair<K, V>>) {
    && |entries| == |list|
    && forall i :: 0 <= i < |list| ==> list[i] in nodes && entries[i] == nodes[list[i]]
  }

  ghost predicate Represents<K, V>(list: seq<Node>, nodes: map<Node, Pair<K, V>>, index: map<K, Node>,
                                   entries: seq<Pair<K, V>>)
  {
    forall z {:trigger Peek(z)} :: Peek(z) ==> Linked(list, nodes, index) && Lists(list, nodes, entries)
  }

  lemma IndexAnswers<K, V>(list: seq<Node>, nodes: map<Node, Pair<K, V>>, index: map<K, Node>,
                           entries: seq<Pair<K, V>>, key: K)
    requires Represents(list, nodes, index, entries)
    ensures |entries| == |list|
    ensures key in index ==>
              && index[key] in nodes && nodes[index[key]].key == key
              && Lookup(entries, key) == Some(nodes[index[key]].value)
    ensures key !in index ==> Lookup(entries, key) == None
  {
    assert Peek(0);
    LookupFinds(entries, key);
    if key in index {
      var i :| 0 <= i < |list| && list[i] == index[key];
      assert entries[i] in entries;
    }
    if Lookup(entries, key).Some? {
      var i :| 0 <= i < |entries| && entries[i] == Pair(key, Lookup(entries, key).value);
      assert list[i] in nodes;
    }
  }

  lemma {:induction false} UnlinkHas(list: seq<Node>, node: Node, n: Node)
    ensures n in Unlink(list, node) <==> n in list && n != node
  {
    if list == [] {
    } else {
      UnlinkHas(list[1..], node, n);
      assert n in list <==> n == list[0] || n in list[1..];
    }
  }

  lemma {:induction false} UnlinkDistinct(list: seq<Node>, node: Node)
    requires Once(list)
    ensures Once(Unlink(list, node))
  {
    if list == [] {
    } else {
      var rest := Unlink(list[1..], node);
      UnlinkDistinct(list[1..], node);
      UnlinkHas(list[1..], node, list[0]);
      if list[0] == node {
        assert Unlink(list, node) == rest;
      } else {
        ConsOnce(list[0], rest);
      }
    }
  }

  lemma {:induction false} UnlinkLists<K, V>(list: seq<Node>, nodes: map<Node, Pair<K, V>>,
                                             entries: seq<Pair<K, V>>, node: Node, key: K)
    requires Lists(list, nodes, entries)
    requires forall n :: n in list ==> (nodes[n].key == key <==> n == node)
    ensures Lists(Unlink(list, node), nodes, Without(entries, key))
  {
    if list == [] {
    } else {
      UnlinkLists(list[1..], nodes, entries[1..], node, key);
      assert entries[0] == nodes[list[0]] && list[0] in list;
    }
  }

  /** Splicing a key's node to the front. */
  lemma SpliceRepresents<K, V>(list: seq<Node>, nodes: map<Node, Pair<K, V>>, index: map<K, Node>,
                               entries: seq<Pair<K, V>>, key: K)
    requires Represents(list, nodes, index, entries) && key in index && index[key] in nodes
    ensures Represents([index[key]] + Unlink(list, index[key]), nodes, index,
                       [nodes[index[key]]] + Without(entries, key))
  {
    assert Peek(0);
    var node := index[key];
    var u := Unlink(list, node);
    forall n ensures n in [node] + u <==> n in nodes { UnlinkHas(list, node, n); }
    assert node !in u by { UnlinkHas(list, node, node); }
    UnlinkDistinct(list, node);
    ConsOnce(node, u);
    UnlinkLists(list, nodes, entries, node, key);
    forall n | n in u ensures n in nodes { UnlinkHas(list, node, n); }
    ConsLists(node, u, nodes, nodes, Without(entries, key));
  }

  /** Assigning the value of a key's node, seen behind that node. */
  lemma AssignRepresents<K, V>(list: seq<Node>, nodes: map<Node, Pair<K, V>>, index: map<K, Node>,
                               entries: seq<Pair<K, V>>, key: K, value: V)
    returns (entries': seq<Pair<K, V>>)
    requires Represents(list, nodes, index, entries) && key in index && index[key] in nodes
    ensures Represents(list, nodes[index[key] := Pair(key, value)], index, entries')
    ensures Without(entries', key) == Without(entries, key)
  {
    assert Peek(0);
    var nodes' := nodes[index[key] := Pair(key, value)];
    entries' := seq(|list|, i requires 0 <= i < |list| => nodes'[list[i]]);
    AssignLinked(list, nodes, index, key, value);
    forall i | 0 <= i < |list| ensures entries'[i] == if entries[i].key == key then Pair(key, value) else entries[i] {
      assert list[i] in nodes && index[nodes[list[i]].key] == list[i];
    }
    SameOthers(entries, entries', key);
  }

  lemma AssignLinked<K, V>(list: seq<Node>, nodes: map<Node, Pair<K, V>>, index: map<K, Node>, key: K, value: V)
    requires Linked(list, nodes, index) && key in index
    ensures Linked(list, nodes[index[key] := Pair(key, value)], index)
  {
  }

  lemma {:induction false} SameOthers<K, V>(a: seq<Pair<K, V>>, b: seq<Pair<K, V>>, key: K)
    requires |a| == |b|
    requires forall i :: 0 <= i < |a| ==> a[i] == b[i] || (a[i].key == key && b[i].key == key)
    ensures Without(a, key) == Without(b, key)
  {
    if a != [] { SameOthers(a[1..], b[1..], key); }
  }

  lemma EvictRepresents<K, V>(list: seq<Node>, nodes: map<Node, Pair<K, V>>, index: map<K, Node>,
                              entries: seq<Pair<K, V>>)
    requires Represents(list, nodes, index, entries) && list != []
    ensures var last := list[|list| - 1];
      && last in nodes && nodes[last].key in index
      && |entries| == |list|
      && Represents(list[..|list| - 1], nodes - {last}, index - {nodes[last].key}, entries[..|entries| - 1])
  {
    assert Peek(0);
    var last := list[|list| - 1];
    assert last in list;
    assert forall n :: n in list <==> n in list[..|list| - 1] || n == last;
  }

  lemma AddRepresents<K, V>(list: seq<Node>, nodes: map<Node, Pair<K, V>>, index: map<K, Node>,
                            entries: seq<Pair<K, V>>, node: Node, p: Pair<K, V>)
    requires Represents(list, nodes, index, entries) && node !in nodes && p.key !in index
    ensures Represents([node] + list, nodes[node := p], index[p.key := node], [p] + entries)
  {
    assert Peek(0);
    ConsOnce(node, list);
    ConsLists(node, list, nodes, nodes[node := p], entries);
    assert forall n :: n in [node] + list <==> n == node || n in list;
  }

  class LruCache<K(==), V> {
    const cap: nat
    var list: seq<Node>
    var nodes: map<Node, Pair<K, V>>
    var index: map<K, Node>
    /** Addresses below this one may be in use. */
    var unused: Node
    /** The list's entries, most recently used first. */
    ghost var entries: seq<Pair<K, V>>

    ghost predicate Valid()
      reads this
    {
      && cap >= 1 && |list| <= cap
      && (forall n :: n in nodes ==> n < unused)
      && Represents(list, nodes, index, entries)
    }

    constructor (cap: nat)
      requires cap >= 1
      ensures Valid() && entries == [] && this.cap == cap
    {
      this.cap := cap;
      list, nodes, index, unused, entries := [], map[], map[], 0, [];
    }

    /** List and map are in bijection, and no key is in the list twice. */
    lemma Bijection()
      requires Valid()
      ensures Linked(list, nodes, index) && Lists(list, nodes, entries) && DistinctKeys(entries)
    {
      assert Peek(0);
      forall i, j | 0 <= i < j < |entries| ensures entries[i].key != entries[j].key {
        assert index[entries[i].key] == list[i] && index[entries[j].key] == list[j];
      }
    }

    method Get(key: K) returns (out: Option<V>)
      requires Valid()
      modifies this
      ensures Valid() && entries == AfterGet(old(entries), key)
      ensures out == Lookup(old(entries), key)
    {
      IndexAnswers(list, nodes, index, entries, key);
      if key !in index {
        return None;
      }
      MoveToFront(key);
      return Some(nodes[index[key]].value);
    }

    method Put(key: K, value: V)
      requires Valid()
      modifies this
      ensures Valid() && entries == AfterPut(old(entries), key, value, cap)
    {
      IndexAnswers(list, nodes, index, entries, key);
      if key in index {
        entries := AssignRepresents(list, nodes, index, entries, key, value);
        nodes := nodes[index[key] := Pair(key, value)];
        MoveToFront(key);
        return;
      }
      if |list| >= cap {
        EvictRepresents(list, nodes, index, entries);
        var last := list[|list| - 1];
        index := index - {nodes[last].key};
        nodes := nodes - {last};
        list := list[..|list| - 1];
        entries := entries[..|entries| - 1];
      }
      AddRepresents(list, nodes, index, entries, unused, Pair(key, value));
      list := [unused] + list;
      nodes := nodes[unused := Pair(key, value)];
      index := index[key := unused];
      unused := unused + 1;
      entries := [Pair(key, value)] + entries;
    }

    /** list_.splice(list_.begin(), list_, it->second) */
    method MoveToFront(key: K)
      requires Valid() && key in index && index[key] in nodes
      modifies this
      ensures Valid() && nodes == old(nodes) && index == old(index)
      ensures entries == [nodes[index[key]]] + Without(old(entries), key)
    {
      SpliceRepresents(list, nodes, index, entries, key);
      SpliceLength(list, nodes, index, entries, key);
      list := [index[key]] + Unlink(list, index[key]);
      entries := [nodes[index[key]]] + Without(entries, key);
    }
  }

  lemma SpliceLength<K, V>(list: seq<Node>, nodes: map<Node, Pair<K, V>>, index: map<K, Node>,
                           entries: seq<Pair<K, V>>, key: K)
    requires Represents(list, nodes, index, entries) && key in index
    ensures |Unlink(list, index[key])| == |list| - 1
  {
    assert Peek(0);
    var node := index[key];
    assert node in list;
    UnlinkLength(list, node);
  }

  lemma {:induction false} UnlinkLength(list: seq<Node>, node: Node)
    requires Once(list)
    ensures |Unlink(list, node)| == if node in list then |list| - 1 else |list|
  {
    if list == [] {
    } else {
      UnlinkLength(list[1..], node);
      assert node in list <==> node == list[0] || node in list[1..];
      if node == list[0] {
        assert node !in list[1..];
      }
    }
  }
}
