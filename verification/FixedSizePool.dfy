/**
  The pool of topics/memory/fixed_size_memory_pool.cpp (lines 12-52). Chunks are numbered from 1 in the order in
  which grow obtains them, BlockSize at a time; 0 is the null pointer. A chunk is one word: its `next` link while it
  is free, the user's data while it is allocated.
*/
module FixedSizePools {
  import opened Chains
  import opened Sealing

  ghost predicate Links(words: seq<nat>, chain: seq<Ptr>) {
    && (forall i :: 0 <= i < |chain| ==> 0 < chain[i] <= |words|)
    && (forall i :: 0 <= i < |chain| ==> words[chain[i] - 1] == NodeAt(chain, i + 1))
  }

  /** The list from `head` runs through exactly these chunks, each once: in particular it has no cycle. */
  ghost predicate Chain(words: seq<nat>, head: Ptr, chain: seq<Ptr>) {
    forall z {:trigger Peek(z)} :: Peek(z) ==>
      && head == NodeAt(chain, 0)
      && Links(words, chain)
      && (forall i, j :: 0 <= i < j < |chain| ==> chain[i] != chain[j])
  }

  /** Every chunk is either free or live. */
  ghost predicate Split(size: nat, chain: seq<Ptr>, live: set<Ptr>) {
    forall z {:trigger Peek(z)} :: Peek(z) ==>
      && |live| + |chain| == size
      && (forall p :: p in live ==> 0 < p <= size && p !in chain)
      && (forall p :: 0 < p <= size ==> p in live || p in chain)
  }

  lemma LinkRest(words: seq<nat>, chain: seq<Ptr>)
    requires Links(words, chain) && chain != []
    ensures Links(words, chain[1..]) && words[chain[0] - 1] == NodeAt(chain[1..], 0)
  {
    assert forall i: nat :: NodeAt(chain[1..], i) == NodeAt(chain, i + 1);
    assert forall i :: 0 <= i < |chain[1..]| ==> chain[1..][i] == chain[i + 1];
  }

  lemma PopFront(words: seq<nat>, head: Ptr, chain: seq<Ptr>, live: set<Ptr>)
    requires Chain(words, head, chain) && Split(|words|, chain, live) && chain != []
    ensures [head] + chain[1..] == chain && 0 < head <= |words| && head !in live
    ensures Chain(words, words[head - 1], chain[1..]) && Split(|words|, chain[1..], live + {head})
  {
    assert Peek(0);
    var rest := chain[1..];
    LinkRest(words, chain);
    assert forall p :: p in chain <==> p == head || p in rest;
  }

  lemma LinkFront(words: seq<nat>, head: Ptr, chain: seq<Ptr>, p: Ptr)
    requires head == NodeAt(chain, 0) && Links(words, chain) && 0 < p <= |words| && p !in chain
    ensures Links(words[p - 1 := head], [p] + chain)
  {
    forall i | 0 <= i < |[p] + chain|
      ensures words[p - 1 := head][([p] + chain)[i] - 1] == NodeAt([p] + chain, i + 1)
    {
      if i > 0 {
        OldLink([p], chain, i);
        assert chain[i - 1] in chain;
      } else {
        assert NodeAt([p] + chain, 1) == NodeAt(chain, 0);
      }
    }
  }

  lemma OldLink(block: seq<Ptr>, chain: seq<Ptr>, i: nat)
    requires |block| <= i < |block| + |chain|
    ensures (block + chain)[i] == chain[i - |block|]
    ensures NodeAt(block + chain, i + 1) == NodeAt(chain, i - |block| + 1)
  {
  }

  lemma PushFront(words: seq<nat>, head: Ptr, chain: seq<Ptr>, live: set<Ptr>, p: Ptr)
    requires Chain(words, head, chain) && Split(|words|, chain, live) && p in live
    ensures 0 < p <= |words|
    ensures Chain(words[p - 1 := head], p, [p] + chain) && Split(|words|, [p] + chain, live - {p})
  {
    assert Peek(0);
    LinkFront(words, head, chain, p);
    assert |live - {p}| == |live| - 1;
  }

  /** Writing to a live chunk does not touch the list. */
  lemma WriteLive(words: seq<nat>, head: Ptr, chain: seq<Ptr>, live: set<Ptr>, p: Ptr, value: nat)
    requires Chain(words, head, chain) && Split(|words|, chain, live) && p in live
    ensures 0 < p <= |words| && Chain(words[p - 1 := value], head, chain)
  {
    assert Peek(0);
  }

  /** The chunks of a new block behind `size` others, first to last. */
  ghost function Fresh(size: nat, n: nat): (s: seq<Ptr>)
    ensures |s| == n && forall i :: 0 <= i < n ==> s[i] == size + 1 + i
  {
    seq(n, i => size + 1 + i)
  }

  lemma BlockLink(size: nat, n: nat, head: Ptr, chain: seq<Ptr>, i: nat)
    requires i < n && head == NodeAt(chain, 0)
    ensures (Fresh(size, n) + chain)[i] == size + 1 + i
    ensures NodeAt(Fresh(size, n) + chain, i + 1) == if i + 1 < n then size + 2 + i else head
  {
  }

  lemma GrowLinks(words: seq<nat>, head: Ptr, chain: seq<Ptr>, words': seq<nat>, n: nat)
    requires head == NodeAt(chain, 0) && Links(words, chain) && n >= 1
    requires |words'| == |words| + n && forall k :: 0 <= k < |words| ==> words'[k] == words[k]
    requires forall k :: |words| <= k < |words| + n - 1 ==> words'[k] == k + 2
    requires words'[|words| + n - 1] == head
    ensures Links(words', Fresh(|words|, n) + chain)
  {
    var size, block := |words|, Fresh(|words|, n);
    forall i | 0 <= i < |block + chain|
      ensures 0 < (block + chain)[i] <= |words'|
      ensures words'[(block + chain)[i] - 1] == NodeAt(block + chain, i + 1)
    {
      if i < n {
        BlockLink(size, n, head, chain, i);
      } else {
        OldLink(block, chain, i);
        assert words[chain[i - n] - 1] == NodeAt(chain, i - n + 1);
      }
    }
  }

  /** The new block's chunks linked to one another and to the old list. */
  lemma GrowChain(words: seq<nat>, head: Ptr, chain: seq<Ptr>, live: set<Ptr>, words': seq<nat>, n: nat)
    requires Chain(words, head, chain) && Split(|words|, chain, live) && n >= 1
    requires |words'| == |words| + n && forall k :: 0 <= k < |words| ==> words'[k] == words[k]
    requires forall k :: |words| <= k < |words| + n - 1 ==> words'[k] == k + 2
    requires words'[|words| + n - 1] == head
    ensures Chain(words', |words| + 1, Fresh(|words|, n) + chain)
    ensures Split(|words'|, Fresh(|words|, n) + chain, live)
  {
    assert Peek(0);
    var size, block := |words|, Fresh(|words|, n);
    var chain' := block + chain;
    GrowLinks(words, head, chain, words', n);
    forall p | 0 < p <= size + n ensures p in live || p in chain' {
      if p > size { assert block[p - size - 1] == p && block[p - size - 1] in block; }
    }
  }

  class FixedSizePool {
    const blockSize: nat
    var blocks: nat
    var words: seq<nat>
    var freeList: Ptr
    /** The chunks on the free list, and those handed out. */
    ghost var free: seq<Ptr>
    ghost var live: set<Ptr>

    ghost predicate Valid()
      reads this
    {
      && blockSize >= 1
      && |words| == blockSize * blocks
      && Chain(words, freeList, free)
      && Split(|words|, free, live)
    }

    constructor (blockSize: nat)
      requires blockSize >= 1
      ensures Valid() && live == {} && free == Fresh(0, blockSize)
    {
      this.blockSize := blockSize;
      blocks, words, freeList := 0, [], 0;
      free, live := [], {};
      new;
      Grow();
      assert Fresh(0, blockSize) + [] == Fresh(0, blockSize);
    }

    /** The chunk handed out was not live, and no live chunk is touched; the pool grows exactly when nothing is free. */
    method Allocate() returns (p: Ptr)
      requires Valid()
      modifies this
      ensures Valid() && live == old(live) + {p} && p !in old(live) && p != 0
      ensures blocks == old(blocks) + if old(free) == [] then 1 else 0
      ensures [p] + free == if old(free) == [] then Fresh(|old(words)|, blockSize) else old(free)
      ensures |old(words)| <= |words| && words[..|old(words)|] == old(words)
    {
      if freeList == 0 {
        NullMeansEmpty(words, freeList, free);
        Grow();
      } else {
        NullMeansEmpty(words, freeList, free);
      }
      PopFront(words, freeList, free, live);
      p := freeList;
      freeList := words[freeList - 1];
      live := live + {p};
      free := free[1..];
    }

    /** A freed chunk is the next to be handed out; a null pointer is ignored. */
    method Deallocate(p: Ptr)
      requires Valid() && (p == 0 || p in live)
      modifies this
      ensures Valid() && blocks == old(blocks) && |words| == |old(words)|
      ensures if p == 0 then live == old(live) && free == old(free)
              else live == old(live) - {p} && free == [p] + old(free)
      ensures forall q :: q in live ==> 0 < q <= |words| && words[q - 1] == old(words)[q - 1]
    {
      LiveInRange(|words|, free, live);
      if p == 0 {
        return;
      }
      PushFront(words, freeList, free, live, p);
      words := words[p - 1 := freeList];
      freeList := p;
      live := live - {p};
      free := [p] + free;
    }

    /** The user stores data in a chunk it holds. */
    method Write(p: Ptr, value: nat)
      requires Valid() && p in live
      modifies this`words
      ensures Valid() && 0 < p <= |words| && words == old(words)[p - 1 := value]
    {
      WriteLive(words, freeList, free, live, p, value);
      words := words[p - 1 := value];
    }

    /** Live and free chunks together are all chunks of all blocks, none is both, and the free list runs through each
        free chunk once and ends in null. */
    lemma Accounts()
      requires Valid()
      ensures |live| + |free| == blockSize * blocks
      ensures forall p :: 0 < p <= blockSize * blocks ==> (p in live <==> p !in free)
      ensures freeList == NodeAt(free, 0) && Links(words, free)
      ensures forall i, j :: 0 <= i < j < |free| ==> free[i] != free[j]
    {
      assert Peek(0);
    }

    method Grow()
      requires Valid()
      modifies this
      ensures Valid() && live == old(live) && blocks == old(blocks) + 1
      ensures free == Fresh(|old(words)|, blockSize) + old(free)
      ensures |words| == |old(words)| + blockSize && words[..|old(words)|] == old(words)
    {
      ghost var was := words;
      var base := |words| + 1;
      words := words + seq(blockSize, _ => 0);
      blocks := blocks + 1;
      var i := 0;
      while i < blockSize - 1
        invariant 0 <= i <= blockSize - 1
        invariant |words| == |was| + blockSize && forall k :: 0 <= k < |was| ==> words[k] == was[k]
        invariant forall k :: |was| <= k < |was| + i ==> words[k] == k + 2
        invariant live == old(live) && free == old(free) && freeList == old(freeList) && blocks == old(blocks) + 1
      {
        words := words[base + i - 1 := base + i + 1];
        i := i + 1;
      }
      words := words[base + blockSize - 2 := freeList];
      assert words[..|was|] == was;
      GrowChain(was, freeList, free, live, words, blockSize);
      freeList := base;
      free := Fresh(|was|, blockSize) + free;
      assert blockSize * blocks == blockSize * (blocks - 1) + blockSize;
    }
  }

  lemma NullMeansEmpty(words: seq<nat>, head: Ptr, chain: seq<Ptr>)
    requires Chain(words, head, chain)
    ensures head == 0 <==> chain == []
  {
    assert Peek(0);
  }

  lemma LiveInRange(size: nat, chain: seq<Ptr>, live: set<Ptr>)
    requires Split(size, chain, live)
    ensures forall p :: p in live ==> 0 < p <= size
  {
    assert Peek(0);
  }
}
