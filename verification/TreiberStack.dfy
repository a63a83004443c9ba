/**
  The lock-free stack of topics/concurrency/lockfree_stack.cpp (lines 33-79) as a step system: any number of
  pushers and one popper, each load, compare-and-swap, node access and delete a step of its own, in any interleaving.
  The allocator may hand out any address that is not allocated, so freed addresses come back. Steps are
  sequentially consistent; weaker orderings are not modelled.
*/
module TreiberStack {
  import opened Calls
  import opened Chains
  import opened Options
  import opened Sealing

  datatype Node<V> = Node(value: V, next: Ptr)

  /** A thread inside push: the argument of its call, and its new node, whose next it has set when it is ready. */
  datatype Pusher<V> = Fresh(value: V, node: Ptr) | Ready(value: V, node: Ptr)

  datatype Popper<V> =
    | Idle
    | Loaded(top: Ptr)             // old_head is loaded
    | Linked(top: Ptr, next: Ptr)  // and old_head->next is read
    | Taken(top: Ptr)              // the compare-and-swap removed old_head
    | Read(top: Ptr, value: V)     // its value is read; it is still allocated

  /** Linearised operations. */
  datatype Op<V> = Push(value: V) | Pop(value: V) | PopEmpty

  datatype State<V> = State(
    head: Ptr,
    heap: map<Ptr, Node<V>>,
    pushers: map<nat, Pusher<V>>,
    popper: Popper<V>,
    fault: bool,          // some step touched an address that is not allocated
    log: seq<Op<V>>,      // operations in the order of their deciding step
    called: seq<Call<V>>, // calls of push so far, in the order of their beginning
    pushed: seq<Call<V>>, // calls of push whose deciding step is taken, in the order of those steps
    asked: nat,           // calls of pop so far
    answers: seq<Option<V>>  // what they have answered: a value, or that there is none
  )

  datatype Step<V> =
    | Alloc(pid: nat, at: Ptr, value: V)        // new Node(value)
    | LoadHead(pid: nat)                        // node->next = head_.load()
    | PushCas(pid: nat, spurious: bool)         // head_.compare_exchange_weak(node->next, node)
    | PopLoad                                   // old_head = head_.load()
    | PopNext                                   // old_head->next
    | PopCas(spurious: bool)                    // head_.compare_exchange_weak(old_head, next)
    | PopRead                                   // value = old_head->value
    | PopFree                                   // delete old_head

  function Start<V>(): State<V> {
    State(0, map[], map[], Idle, false, [], [], [], 0, [])
  }

  /** One step; a step that its thread cannot take changes nothing. */
  function Apply<V>(s: State<V>, step: Step<V>): State<V> {
    match step
    case Alloc(pid, at, value) =>
      if pid in s.pushers || at == 0 || at in s.heap then s
      else s.(heap := s.heap[at := Node(value, 0)], pushers := s.pushers[pid := Fresh(value, at)],
              called := s.called + [Call(pid, value)])
    case LoadHead(pid) =>
      if pid !in s.pushers || !s.pushers[pid].Fresh? then s
      else
        var node := s.pushers[pid].node;
        if node !in s.heap then s.(fault := true)
        else s.(heap := s.heap[node := s.heap[node].(next := s.head)],
                pushers := s.pushers[pid := Ready(s.pushers[pid].value, node)])
    case PushCas(pid, spurious) =>
      if pid !in s.pushers || !s.pushers[pid].Ready? then s
      else
        var node := s.pushers[pid].node;
        if node !in s.heap then s.(fault := true)
        else if s.head == s.heap[node].next && !spurious then
          s.(head := node, pushers := s.pushers - {pid}, log := s.log + [Push(s.pushers[pid].value)],
             pushed := s.pushed + [Call(pid, s.pushers[pid].value)])
        else
          s.(heap := s.heap[node := s.heap[node].(next := s.head)])
    case PopLoad =>
      if !s.popper.Idle? then s else Reload(s.(asked := s.asked + 1))
    case PopNext =>
      if !s.popper.Loaded? then s
      else if s.popper.top !in s.heap then s.(fault := true)
      else s.(popper := Linked(s.popper.top, s.heap[s.popper.top].next))
    case PopCas(spurious) =>
      if !s.popper.Linked? then s
      else if s.head == s.popper.top && !spurious then
        if s.popper.top !in s.heap then s.(fault := true)
        else s.(head := s.popper.next, popper := Taken(s.popper.top), log := s.log + [Pop(s.heap[s.popper.top].value)])
      else Reload(s)
    case PopRead =>
      if !s.popper.Taken? then s
      else if s.popper.top !in s.heap then s.(fault := true)
      else s.(popper := Read(s.popper.top, s.heap[s.popper.top].value))
    case PopFree =>
      if !s.popper.Read? then s
      else if s.popper.top !in s.heap then s.(fault := true)
      else s.(heap := s.heap - {s.popper.top}, popper := Idle, answers := s.answers + [Some(s.popper.value)])
  }

  /** Loading the head, at the start of pop or by a failed compare-and-swap; a null head ends pop empty-handed. */
  function Reload<V>(s: State<V>): State<V> {
    if s.head == 0 then s.(popper := Idle, log := s.log + [PopEmpty], answers := s.answers + [None])
    else s.(popper := Loaded(s.head))
  }

  /** The state after any interleaving of steps. */
  function Run<V>(steps: seq<Step<V>>): State<V>
    decreases |steps|
  {
    if steps == [] then Start() else Apply(Run(steps[..|steps| - 1]), steps[|steps| - 1])
  }

  // ----- The sequential stack -----

  datatype Outcome<V> = Legal(stack: seq<V>) | Illegal

  /** Replays a log on a sequential stack, top first. */
  ghost function Replay<V>(log: seq<Op<V>>): Outcome<V>
    decreases |log|
  {
    if log == [] then Legal([])
    else
      var before := Replay(log[..|log| - 1]);
      if before.Illegal? then Illegal
      else match log[|log| - 1]
        case Push(v) => Legal([v] + before.stack)
        case Pop(v) => if before.stack != [] && before.stack[0] == v then Legal(before.stack[1..]) else Illegal
        case PopEmpty => if before.stack == [] then before else Illegal
  }

  lemma ReplaySnoc<V>(log: seq<Op<V>>, op: Op<V>)
    requires Replay(log).Legal?
    ensures op.Push? ==> Replay(log + [op]) == Legal([op.value] + Replay(log).stack)
    ensures op.Pop? && Replay(log).stack != [] && Replay(log).stack[0] == op.value ==>
              Replay(log + [op]) == Legal(Replay(log).stack[1..])
    ensures op.PopEmpty? && Replay(log).stack == [] ==> Replay(log + [op]) == Replay(log)
  {
    assert (log + [op])[..|log + [op]| - 1] == log;
  }

  function Pushed<V>(log: seq<Op<V>>): seq<V>
    decreases |log|
  {
    if log == [] then []
    else
      var op := log[|log| - 1];
      Pushed(log[..|log| - 1]) + (if op.Push? then [op.value] else [])
  }

  function Popped<V>(log: seq<Op<V>>): seq<V>
    decreases |log|
  {
    if log == [] then []
    else
      var op := log[|log| - 1];
      Popped(log[..|log| - 1]) + (if op.Pop? then [op.value] else [])
  }

  /** What the pops of a history answer, in order. */
  function Outcomes<V>(log: seq<Op<V>>): seq<Option<V>>
    decreases |log|
  {
    if log == [] then []
    else
      Outcomes(log[..|log| - 1]) + (match log[|log| - 1]
                                    case Push(_) => []
                                    case Pop(v) => [Some(v)]
                                    case PopEmpty => [None])
  }

  lemma OutcomesSnoc<V>(log: seq<Op<V>>, op: Op<V>)
    ensures Outcomes(log + [op]) == Outcomes(log) + (match op
                                                     case Push(_) => []
                                                     case Pop(v) => [Some(v)]
                                                     case PopEmpty => [None])
  {
    assert (log + [op])[..|log + [op]| - 1] == log;
  }

  lemma PushedSnoc<V>(log: seq<Op<V>>, op: Op<V>)
    ensures Pushed(log + [op]) == Pushed(log) + (if op.Push? then [op.value] else [])
  {
    assert (log + [op])[..|log + [op]| - 1] == log;
  }

  /** A legal history loses and duplicates nothing. */
  lemma {:induction false} LegalConserves<V>(log: seq<Op<V>>)
    requires Replay(log).Legal?
    ensures multiset(Pushed(log)) == multiset(Popped(log)) + multiset(Replay(log).stack)
    decreases |log|
  {
    if log == [] {
    } else {
      var before := log[..|log| - 1];
      LegalConserves(before);
      var stack := Replay(before).stack;
      if log[|log| - 1].Pop? {
        assert stack == [stack[0]] + stack[1..];
      }
    }
  }

  /** A pop that finds nothing comes after as many pops as pushes: everything pushed has been popped. */
  lemma {:induction false} EmptyMeansEmpty<V>(log: seq<Op<V>>, i: nat)
    requires Replay(log).Legal? && i < |log| && log[i].PopEmpty?
    ensures multiset(Pushed(log[..i])) == multiset(Popped(log[..i]))
    decreases |log|
  {
    var before := log[..|log| - 1];
    if i == |log| - 1 {
      LegalConserves(before);
    } else {
      EmptyMeansEmpty(before, i);
      assert before[..i] == log[..i];
    }
  }

  // ----- The invariant -----

  /** What the structure means: the nodes from the head on, their values, and what pop has removed but not returned. */
  datatype View<V> = View(chain: seq<Ptr>, values: seq<V>, hand: seq<V>)

  /** The chain lists the nodes from the head on, with their values; in particular the list is acyclic. */
  ghost predicate Chained<V>(head: Ptr, heap: map<Ptr, Node<V>>, v: View<V>) {
    && head == NodeAt(v.chain, 0) && |v.values| == |v.chain|
    && (forall i :: 0 <= i < |v.chain| ==> v.chain[i] != 0 && v.chain[i] in heap)
    && (forall i :: 0 <= i < |v.chain| ==> heap[v.chain[i]] == Node(v.values[i], NodeAt(v.chain, i + 1)))
    && (forall i, j :: 0 <= i < j < |v.chain| ==> v.chain[i] != v.chain[j])
  }

  /** A pusher's node is allocated, private, nobody else's, and holds the value of the call. */
  ghost predicate PushersOk<V>(heap: map<Ptr, Node<V>>, pushers: map<nat, Pusher<V>>, chain: seq<Ptr>) {
    && (forall p :: p in pushers ==>
         && pushers[p].node != 0 && pushers[p].node in heap && pushers[p].node !in chain
         && heap[pushers[p].node].value == pushers[p].value)
    && (forall p, q :: p in pushers && q in pushers && p != q ==> pushers[p].node != pushers[q].node)
  }

  ghost predicate Private<V>(heap: map<Ptr, Node<V>>, pushers: map<nat, Pusher<V>>, chain: seq<Ptr>, top: Ptr) {
    top in heap && top !in chain && forall p :: p in pushers ==> pushers[p].node != top
  }

  /** What the popper has seen is still true: only it removes nodes. */
  ghost predicate PopperOk<V>(heap: map<Ptr, Node<V>>, pushers: map<nat, Pusher<V>>, popper: Popper<V>, v: View<V>) {
    match popper
    case Idle => v.hand == []
    case Loaded(top) => top in v.chain && v.hand == []
    case Linked(top, next) => top in v.chain && top in heap && heap[top].next == next && v.hand == []
    case Taken(top) => Private(heap, pushers, v.chain, top) && v.hand == [heap[top].value]
    case Read(top, value) => Private(heap, pushers, v.chain, top) && v.hand == [value]
  }

  ghost predicate Shape<V>(head: Ptr, heap: map<Ptr, Node<V>>, pushers: map<nat, Pusher<V>>, popper: Popper<V>,
                           v: View<V>)
  {
    forall z {:trigger Peek(z)} :: Peek(z) ==>
      Chained(head, heap, v) && PushersOk(heap, pushers, v.chain) && PopperOk(heap, pushers, popper, v)
  }

  function InHand<V>(hand: seq<V>): seq<Option<V>> {
    seq(|hand|, i requires 0 <= i < |hand| => Some(hand[i]))
  }

  /** The history is legal and leaves these values; pop has answered what it answers there, but for what is in hand. */
  ghost predicate History<V>(log: seq<Op<V>>, answers: seq<Option<V>>, v: View<V>) {
    forall z {:trigger Peek(z)} :: Peek(z) ==>
      Replay(log) == Legal(v.values) && Outcomes(log) == answers + InHand(v.hand)
  }

  function Pending<V>(pushers: map<nat, Pusher<V>>, p: nat): seq<V> {
    if p in pushers then [pushers[p].value] else []
  }

  /** Thread by thread, the values it called push with are those it has pushed and the one it is pushing now. */
  ghost predicate CallsOk<V>(log: seq<Op<V>>, called: seq<Call<V>>, pushed: seq<Call<V>>,
                             pushers: map<nat, Pusher<V>>)
  {
    forall z {:trigger Peek(z)} :: Peek(z) ==>
      && Pushed(log) == Values(pushed)
      && forall p: nat :: By(called, p) == By(pushed, p) + Pending(pushers, p)
  }

  ghost predicate Inv<V>(s: State<V>, v: View<V>) {
    && !s.fault
    && Shape(s.head, s.heap, s.pushers, s.popper, v)
    && History(s.log, s.answers, v) && s.asked == |s.answers| + (if s.popper.Idle? then 0 else 1)
    && CallsOk(s.log, s.called, s.pushed, s.pushers)
  }

  // ----- What the steps do to the structure -----

  lemma ShapeAlloc<V>(head: Ptr, heap: map<Ptr, Node<V>>, pushers: map<nat, Pusher<V>>, popper: Popper<V>, v: View<V>,
                      pid: nat, at: Ptr, value: V)
    requires Shape(head, heap, pushers, popper, v) && pid !in pushers && at != 0 && at !in heap
    ensures Shape(head, heap[at := Node(value, 0)], pushers[pid := Fresh(value, at)], popper, v)
  {
    assert Peek(0);
    var heap' := heap[at := Node(value, 0)];
    assert forall i :: 0 <= i < |v.chain| ==> v.chain[i] in heap' && heap'[v.chain[i]] == heap[v.chain[i]];
    assert Chained(head, heap', v);
    assert PushersOk(heap', pushers[pid := Fresh(value, at)], v.chain);
  }

  lemma ShapeNode<V>(head: Ptr, heap: map<Ptr, Node<V>>, pushers: map<nat, Pusher<V>>, popper: Popper<V>, v: View<V>,
                     pid: nat)
    requires Shape(head, heap, pushers, popper, v) && pid in pushers
    ensures pushers[pid].node in heap && heap[pushers[pid].node].value == pushers[pid].value
  {
    assert Peek(0);
  }

  /** Writing the next field of a private node concerns nobody else. */
  lemma ShapeLink<V>(head: Ptr, heap: map<Ptr, Node<V>>, pushers: map<nat, Pusher<V>>, popper: Popper<V>, v: View<V>,
                     pid: nat)
    requires Shape(head, heap, pushers, popper, v) && pid in pushers && pushers[pid].node in heap
    ensures var node, value := pushers[pid].node, pushers[pid].value;
      var heap' := heap[node := heap[node].(next := head)];
      Shape(head, heap', pushers, popper, v) && Shape(head, heap', pushers[pid := Ready(value, node)], popper, v)
  {
    assert Peek(0);
    var node, value := pushers[pid].node, pushers[pid].value;
    var heap' := heap[node := heap[node].(next := head)];
    var pushers' := pushers[pid := Ready(value, node)];
    assert Chained(head, heap', v) && PushersOk(heap', pushers, v.chain) && PopperOk(heap', pushers, popper, v);
    assert forall p :: p in pushers' ==>
      p in pushers && pushers'[p].node == pushers[p].node && pushers'[p].value == pushers[p].value;
  }

  /** A successful push puts its node in front of the chain. */
  lemma ShapePush<V>(head: Ptr, heap: map<Ptr, Node<V>>, pushers: map<nat, Pusher<V>>, popper: Popper<V>, v: View<V>,
                     pid: nat)
    requires Shape(head, heap, pushers, popper, v) && pid in pushers && pushers[pid].node in heap
    requires heap[pushers[pid].node].next == head
    ensures Shape(pushers[pid].node, heap, pushers - {pid}, popper,
                  View([pushers[pid].node] + v.chain, [pushers[pid].value] + v.values, v.hand))
  {
    assert Peek(0);
    var node := pushers[pid].node;
    var v' := View([node] + v.chain, [pushers[pid].value] + v.values, v.hand);
    ChainFront(head, heap, v, node, pushers[pid].value);
    assert forall x :: x in v'.chain <==> x == node || x in v.chain;
    assert PushersOk(heap, pushers - {pid}, v'.chain);
  }

  lemma ChainFront<V>(head: Ptr, heap: map<Ptr, Node<V>>, v: View<V>, node: Ptr, value: V)
    requires Chained(head, heap, v) && node != 0 && node in heap && node !in v.chain && heap[node] == Node(value, head)
    ensures Chained(node, heap, View([node] + v.chain, [value] + v.values, v.hand))
  {
    var chain, values := [node] + v.chain, [value] + v.values;
    assert forall i: nat :: NodeAt(chain, i + 1) == NodeAt(v.chain, i);
    forall i | 0 <= i < |chain|
      ensures chain[i] != 0 && chain[i] in heap && heap[chain[i]] == Node(values[i], NodeAt(chain, i + 1))
    {
      if i > 0 { assert chain[i] == v.chain[i - 1] && values[i] == v.values[i - 1]; }
    }
    forall i, j | 0 <= i < j < |chain| ensures chain[i] != chain[j] {
      assert chain[j] == v.chain[j - 1] && v.chain[j - 1] in v.chain;
    }
  }

  /** Loading the head: it is null exactly when the list is empty. */
  lemma ShapeReload<V>(head: Ptr, heap: map<Ptr, Node<V>>, pushers: map<nat, Pusher<V>>, popper: Popper<V>, v: View<V>)
    requires Shape(head, heap, pushers, popper, v) && (popper.Idle? || popper.Linked?)
    ensures (head == 0 <==> v.values == []) && v.hand == []
    ensures Shape(head, heap, pushers, if head == 0 then Idle else Loaded(head), v)
  {
    assert Peek(0);
    if head != 0 { assert v.chain[0] in v.chain; }
  }

  lemma ShapeNext<V>(head: Ptr, heap: map<Ptr, Node<V>>, pushers: map<nat, Pusher<V>>, popper: Popper<V>, v: View<V>)
    requires Shape(head, heap, pushers, popper, v) && popper.Loaded?
    ensures popper.top in heap && Shape(head, heap, pushers, Linked(popper.top, heap[popper.top].next), v)
  {
    assert Peek(0);
  }

  /** A successful pop takes exactly the first node off the chain: addresses come back, but not the one the popper
      looks at, since only the popper frees. */
  lemma ShapeTake<V>(head: Ptr, heap: map<Ptr, Node<V>>, pushers: map<nat, Pusher<V>>, popper: Popper<V>, v: View<V>)
    requires Shape(head, heap, pushers, popper, v) && popper.Linked? && head == popper.top
    ensures head in heap && v.chain != [] && v.values != [] && v.values[0] == heap[head].value && v.hand == []
    ensures Shape(popper.next, heap, pushers, Taken(head), View(v.chain[1..], v.values[1..], [v.values[0]]))
  {
    assert Peek(0);
    ChainRest(head, heap, v);
    assert forall x :: x in v.chain[1..] ==> x in v.chain;
    assert PushersOk(heap, pushers, v.chain[1..]);
  }

  lemma ChainRest<V>(head: Ptr, heap: map<Ptr, Node<V>>, v: View<V>)
    requires Chained(head, heap, v) && v.chain != []
    ensures head in heap && v.chain[0] == head && head !in v.chain[1..] && heap[head].value == v.values[0]
    ensures Chained(heap[head].next, heap, View(v.chain[1..], v.values[1..], [v.values[0]]))
  {
    assert forall i: nat :: NodeAt(v.chain[1..], i) == NodeAt(v.chain, i + 1);
    assert forall i :: 0 <= i < |v.chain[1..]| ==>
      v.chain[1..][i] == v.chain[i + 1] && v.values[1..][i] == v.values[i + 1];
  }

  lemma ShapeRead<V>(head: Ptr, heap: map<Ptr, Node<V>>, pushers: map<nat, Pusher<V>>, popper: Popper<V>, v: View<V>)
    requires Shape(head, heap, pushers, popper, v) && popper.Taken?
    ensures popper.top in heap && Shape(head, heap, pushers, Read(popper.top, heap[popper.top].value), v)
  {
    assert Peek(0);
  }

  /** The node that pop deletes is on no list and in nobody else's hands. */
  lemma ShapeFree<V>(head: Ptr, heap: map<Ptr, Node<V>>, pushers: map<nat, Pusher<V>>, popper: Popper<V>, v: View<V>)
    requires Shape(head, heap, pushers, popper, v) && popper.Read?
    ensures popper.top in heap && v.hand == [popper.value]
    ensures Shape(head, heap - {popper.top}, pushers, Idle, v.(hand := []))
  {
    assert Peek(0);
    ChainWithout(head, heap, v, popper.top);
    assert PushersOk(heap - {popper.top}, pushers, v.chain);
    assert PopperOk(heap - {popper.top}, pushers, Idle, v.(hand := []));
  }

  lemma ChainWithout<V>(head: Ptr, heap: map<Ptr, Node<V>>, v: View<V>, top: Ptr)
    requires Chained(head, heap, v) && top !in v.chain
    ensures Chained(head, heap - {top}, v.(hand := []))
  {
    var heap' := heap - {top};
    assert forall i :: 0 <= i < |v.chain| ==> v.chain[i] in heap' && heap'[v.chain[i]] == heap[v.chain[i]];
  }

  // ----- What they do to the history -----

  lemma HistoryPush<V>(log: seq<Op<V>>, answers: seq<Option<V>>, v: View<V>, value: V, chain: seq<Ptr>)
    requires History(log, answers, v)
    ensures History(log + [Push(value)], answers, View(chain, [value] + v.values, v.hand))
  {
    assert Peek(0);
    ReplaySnoc(log, Push(value));
    OutcomesSnoc(log, Push(value));
  }

  lemma HistoryPop<V>(log: seq<Op<V>>, answers: seq<Option<V>>, v: View<V>, chain: seq<Ptr>)
    requires History(log, answers, v) && v.values != [] && v.hand == []
    ensures History(log + [Pop(v.values[0])], answers, View(chain, v.values[1..], [v.values[0]]))
  {
    assert Peek(0);
    ReplaySnoc(log, Pop(v.values[0]));
    OutcomesSnoc(log, Pop(v.values[0]));
    assert InHand(v.hand) == [] && InHand([v.values[0]]) == [Some(v.values[0])];
  }

  lemma HistoryEmpty<V>(log: seq<Op<V>>, answers: seq<Option<V>>, v: View<V>)
    requires History(log, answers, v) && v.values == [] && v.hand == []
    ensures History(log + [PopEmpty], answers + [None], v)
  {
    assert Peek(0);
    ReplaySnoc(log, PopEmpty);
    OutcomesSnoc(log, PopEmpty);
    assert InHand(v.hand) == [];
  }

  lemma HistoryReturn<V>(log: seq<Op<V>>, answers: seq<Option<V>>, v: View<V>, value: V)
    requires History(log, answers, v) && v.hand == [value]
    ensures History(log, answers + [Some(value)], v.(hand := []))
  {
    assert Peek(0);
    assert InHand(v.hand) == [Some(value)] && InHand<V>([]) == [];
  }

  // ----- What they do to the calls -----

  lemma CallsElsewhere<V>(log: seq<Op<V>>, called: seq<Call<V>>, pushed: seq<Call<V>>, pushers: map<nat, Pusher<V>>,
                          op: Op<V>)
    requires CallsOk(log, called, pushed, pushers) && !op.Push?
    ensures CallsOk(log + [op], called, pushed, pushers)
  {
    assert Peek(0);
    PushedSnoc(log, op);
  }

  lemma CallGoesOn<V>(log: seq<Op<V>>, called: seq<Call<V>>, pushed: seq<Call<V>>, pushers: map<nat, Pusher<V>>,
                      pid: nat, pusher: Pusher<V>)
    requires CallsOk(log, called, pushed, pushers) && pid in pushers && pusher.value == pushers[pid].value
    ensures CallsOk(log, called, pushed, pushers[pid := pusher])
  {
    assert Peek(0);
  }

  lemma CallBegins<V>(log: seq<Op<V>>, called: seq<Call<V>>, pushed: seq<Call<V>>, pushers: map<nat, Pusher<V>>,
                      pid: nat, pusher: Pusher<V>)
    requires CallsOk(log, called, pushed, pushers) && pid !in pushers
    ensures CallsOk(log, called + [Call(pid, pusher.value)], pushed, pushers[pid := pusher])
  {
    assert Peek(0);
    var called', pushers' := called + [Call(pid, pusher.value)], pushers[pid := pusher];
    assert Pending(pushers, pid) == [];
    forall p: nat ensures By(called', p) == By(pushed, p) + Pending(pushers', p) {
      Snoc(called, Call(pid, pusher.value), p);
    }
  }

  lemma CallDecides<V>(log: seq<Op<V>>, called: seq<Call<V>>, pushed: seq<Call<V>>, pushers: map<nat, Pusher<V>>,
                       pid: nat)
    requires CallsOk(log, called, pushed, pushers) && pid in pushers
    ensures CallsOk(log + [Push(pushers[pid].value)], called, pushed + [Call(pid, pushers[pid].value)], pushers - {pid})
  {
    assert Peek(0);
    var value := pushers[pid].value;
    PushedSnoc(log, Push(value));
    Snoc(pushed, Call(pid, value), pid);
    forall p: nat ensures By(called, p) == By(pushed + [Call(pid, value)], p) + Pending(pushers - {pid}, p) {
      Snoc(pushed, Call(pid, value), p);
    }
  }

  // ----- Every step keeps the invariant -----

  /** The invariant as one atom. */
  ghost predicate Kept<V>(s: State<V>, v: View<V>) {
    forall z {:trigger Look(z)} :: Look(z) ==> Inv(s, v)
  }

  lemma AllocKeeps<V>(s: State<V>, v: View<V>, pid: nat, at: Ptr, value: V)
    requires Inv(s, v)
    ensures Kept(Apply(s, Alloc(pid, at, value)), v)
  {
    if pid !in s.pushers && at != 0 && at !in s.heap {
      ShapeAlloc(s.head, s.heap, s.pushers, s.popper, v, pid, at, value);
      CallBegins(s.log, s.called, s.pushed, s.pushers, pid, Fresh(value, at));
    }
  }

  lemma LoadHeadKeeps<V>(s: State<V>, v: View<V>, pid: nat)
    requires Inv(s, v)
    ensures Kept(Apply(s, LoadHead(pid)), v)
  {
    if pid in s.pushers && s.pushers[pid].Fresh? {
      ShapeNode(s.head, s.heap, s.pushers, s.popper, v, pid);
      ShapeLink(s.head, s.heap, s.pushers, s.popper, v, pid);
      CallGoesOn(s.log, s.called, s.pushed, s.pushers, pid, Ready(s.pushers[pid].value, s.pushers[pid].node));
    }
  }

  lemma PushCasKeeps<V>(s: State<V>, v: View<V>, pid: nat, spurious: bool) returns (v': View<V>)
    requires Inv(s, v)
    ensures Kept(Apply(s, PushCas(pid, spurious)), v')
  {
    v' := v;
    if pid in s.pushers && s.pushers[pid].Ready? {
      ShapeNode(s.head, s.heap, s.pushers, s.popper, v, pid);
      if s.head == s.heap[s.pushers[pid].node].next && !spurious {
        v' := PushKeeps(s, v, pid);
      } else {
        ShapeLink(s.head, s.heap, s.pushers, s.popper, v, pid);
      }
    }
  }

  lemma PushKeeps<V>(s: State<V>, v: View<V>, pid: nat) returns (v': View<V>)
    requires Inv(s, v) && pid in s.pushers && s.pushers[pid].Ready?
    requires s.pushers[pid].node in s.heap && s.heap[s.pushers[pid].node].next == s.head
    ensures v' == View([s.pushers[pid].node] + v.chain, [s.pushers[pid].value] + v.values, v.hand)
    ensures Kept(Apply(s, PushCas(pid, false)), v')
  {
    v' := View([s.pushers[pid].node] + v.chain, [s.pushers[pid].value] + v.values, v.hand);
    ShapePush(s.head, s.heap, s.pushers, s.popper, v, pid);
    HistoryPush(s.log, s.answers, v, s.pushers[pid].value, v'.chain);
    CallDecides(s.log, s.called, s.pushed, s.pushers, pid);
  }

  /** Loading the head, when a call of pop begins or goes on after a failed compare-and-swap. */
  lemma ReloadKeeps<V>(s: State<V>, v: View<V>)
    requires Inv(s, v) && (s.popper.Idle? || s.popper.Linked?)
    ensures Kept(Reload(if s.popper.Idle? then s.(asked := s.asked + 1) else s), v)
  {
    ShapeReload(s.head, s.heap, s.pushers, s.popper, v);
    if s.head == 0 {
      HistoryEmpty(s.log, s.answers, v);
      CallsElsewhere(s.log, s.called, s.pushed, s.pushers, PopEmpty);
    }
  }

  lemma PopNextKeeps<V>(s: State<V>, v: View<V>)
    requires Inv(s, v)
    ensures Kept(Apply(s, PopNext), v)
  {
    if s.popper.Loaded? { ShapeNext(s.head, s.heap, s.pushers, s.popper, v); }
  }

  lemma TakeKeeps<V>(s: State<V>, v: View<V>) returns (v': View<V>)
    requires Inv(s, v) && s.popper.Linked? && s.head == s.popper.top
    ensures v.values != [] && v.chain != [] && v' == View(v.chain[1..], v.values[1..], [v.values[0]])
    ensures Kept(Apply(s, PopCas(false)), v')
  {
    ShapeTake(s.head, s.heap, s.pushers, s.popper, v);
    v' := View(v.chain[1..], v.values[1..], [v.values[0]]);
    HistoryPop(s.log, s.answers, v, v'.chain);
    CallsElsewhere(s.log, s.called, s.pushed, s.pushers, Pop(v.values[0]));
  }

  lemma PopCasKeeps<V>(s: State<V>, v: View<V>, spurious: bool) returns (v': View<V>)
    requires Inv(s, v)
    ensures Kept(Apply(s, PopCas(spurious)), v')
  {
    v' := v;
    if s.popper.Linked? {
      if s.head == s.popper.top && !spurious {
        v' := TakeKeeps(s, v);
      } else {
        ReloadKeeps(s, v);
      }
    }
  }

  lemma PopReadKeeps<V>(s: State<V>, v: View<V>)
    requires Inv(s, v)
    ensures Kept(Apply(s, PopRead), v)
  {
    if s.popper.Taken? { ShapeRead(s.head, s.heap, s.pushers, s.popper, v); }
  }

  lemma PopFreeKeeps<V>(s: State<V>, v: View<V>) returns (v': View<V>)
    requires Inv(s, v)
    ensures Kept(Apply(s, PopFree), v')
  {
    v' := v;
    if s.popper.Read? {
      v' := v.(hand := []);
      ShapeFree(s.head, s.heap, s.pushers, s.popper, v);
      HistoryReturn(s.log, s.answers, v, s.popper.value);
    }
  }

  lemma StepKeeps<V>(s: State<V>, v: View<V>, step: Step<V>) returns (v': View<V>)
    requires Kept(s, v)
    ensures Kept(Apply(s, step), v')
  {
    assert Look(0);
    v' := v;
    match step
    case Alloc(pid, at, value) => AllocKeeps(s, v, pid, at, value);
    case LoadHead(pid) => LoadHeadKeeps(s, v, pid);
    case PushCas(pid, spurious) => v' := PushCasKeeps(s, v, pid, spurious);
    case PopLoad => if s.popper.Idle? { ReloadKeeps(s, v); }
    case PopNext => PopNextKeeps(s, v);
    case PopCas(spurious) => v' := PopCasKeeps(s, v, spurious);
    case PopRead => PopReadKeeps(s, v);
    case PopFree => v' := PopFreeKeeps(s, v);
  }

  lemma StartOk<V>()
    ensures Kept<V>(Start(), View([], [], []))
  {
  }

  lemma {:induction false} RunKept<V>(steps: seq<Step<V>>) returns (v: View<V>)
    ensures Kept(Run(steps), v)
    decreases |steps|
  {
    if steps == [] {
      v := View([], [], []);
      StartOk<V>();
    } else {
      v := RunKept(steps[..|steps| - 1]);
      v := StepKeeps(Run(steps[..|steps| - 1]), v, steps[|steps| - 1]);
    }
  }

  /** In every interleaving of any number of pushers with one popper: no freed or unallocated node is touched;
      the operations in the order of their deciding steps are a legal run of a sequential stack, whose contents are
      the values on the (acyclic) list from the head; every call of pop but the one in progress has answered, and the
      answers are what the pops of that run find, short of at most the one value in the popper's hand, where a pop that
      finds nothing comes when everything pushed has been popped; thread by thread, what push was called with is what
      that run pushed and the value of the call still in progress, if any; and no value is lost or duplicated. */
  lemma Linearizable<V>(steps: seq<Step<V>>) returns (v: View<V>)
    ensures Linearized(Run(steps), v)
  {
    v := RunKept(steps);
    InvLinearized(Run(steps), v);
  }

  /** A compare-and-swap of push that fails leaves the call such that the next one succeeds if nobody interferes, and so
      does the load at its beginning. */
  lemma PushRetrySucceeds<V>(steps: seq<Step<V>>, pid: nat, spurious: bool)
    requires pid in Run(steps).pushers
    ensures var s := Run(steps);
      var t := Apply(s, if s.pushers[pid].Fresh? then LoadHead(pid) else PushCas(pid, spurious));
      pid in t.pushers ==>
        var u := Apply(t, PushCas(pid, false));
        pid !in u.pushers && u.log == s.log + [Push(s.pushers[pid].value)] && u.head == s.pushers[pid].node
  {
    var v := RunKept(steps);
    var s := Run(steps);
    assert Look(0);
    ShapeNode(s.head, s.heap, s.pushers, s.popper, v, pid);
  }

  /** The steps of a pop that has loaded the head, to its end. */
  function FinishPop<V>(s: State<V>): State<V> {
    Apply(Apply(Apply(Apply(s, PopNext), PopCas(false)), PopRead), PopFree)
  }

  /** The same for pop: after a failed compare-and-swap, and after the load at its beginning, reading the next node and
      trying again takes the first value of the list and returns it if nobody interferes. */
  lemma PopRetrySucceeds<V>(steps: seq<Step<V>>, spurious: bool) returns (v: View<V>)
    requires Run(steps).popper.Idle? || Run(steps).popper.Linked?
    ensures Linearized(Run(steps), v)
    ensures var s := Run(steps);
      var t := Apply(s, if s.popper.Idle? then PopLoad else PopCas(spurious));
      t.popper.Loaded? ==> v.values != [] && PopsAlone(s, v.values[0], FinishPop(t))
  {
    v := RunKept(steps);
    InvLinearized(Run(steps), v);
    FinishesAlone(Run(steps), v, spurious);
  }

  ghost predicate PopsAlone<V>(s: State<V>, value: V, t: State<V>) {
    t.popper == Idle && t.log == s.log + [Pop(value)] && t.answers == s.answers + [Some(value)]
  }

  lemma FinishesAlone<V>(s: State<V>, v: View<V>, spurious: bool)
    requires Kept(s, v) && (s.popper.Idle? || s.popper.Linked?)
    ensures var t := Apply(s, if s.popper.Idle? then PopLoad else PopCas(spurious));
      t.popper.Loaded? ==> v.values != [] && PopsAlone(s, v.values[0], FinishPop(t))
  {
    var t := Apply(s, if s.popper.Idle? then PopLoad else PopCas(spurious));
    if t.popper.Loaded? {
      LoadedTakes(s, v, t);
    }
  }

  lemma LoadedTakes<V>(s: State<V>, v: View<V>, t: State<V>)
    requires Kept(s, v) && (s.popper.Idle? || s.popper.Linked?) && s.head != 0
    requires t == Reload(if s.popper.Idle? then s.(asked := s.asked + 1) else s)
    ensures v.values != [] && PopsAlone(s, v.values[0], FinishPop(t))
  {
    assert Look(0);
    ShapeReload(s.head, s.heap, s.pushers, s.popper, v);
    ShapeNext(s.head, s.heap, s.pushers, Loaded(s.head), v);
    ShapeTake(s.head, s.heap, s.pushers, Linked(s.head, s.heap[s.head].next), v);
  }

  /** A failed compare-and-swap of pop, spurious or not, leaves the call open while the list is not empty. */
  lemma FailedPopGoesOn<V>(steps: seq<Step<V>>, spurious: bool)
    requires Run(steps).popper.Linked? && Run(steps).head != 0
    requires spurious || Run(steps).head != Run(steps).popper.top
    ensures var s, t := Run(steps), Apply(Run(steps), PopCas(spurious));
      && t.popper == Loaded(s.head) && t.asked == |t.answers| + 1
      && t.log == s.log && t.answers == s.answers && t.head == s.head && t.heap == s.heap
  {
    var v := RunKept(steps);
    assert Look(0);
  }

  ghost predicate Linearized<V>(s: State<V>, v: View<V>) {
    && !s.fault
    && Chained(s.head, s.heap, v)
    && Replay(s.log) == Legal(v.values)
    && Outcomes(s.log) == s.answers + InHand(v.hand) && |v.hand| <= 1 && (s.popper.Idle? ==> v.hand == [])
    && s.asked == |s.answers| + (if s.popper.Idle? then 0 else 1)
    && (forall i :: 0 <= i < |s.log| && s.log[i].PopEmpty? ==>
         multiset(Pushed(s.log[..i])) == multiset(Popped(s.log[..i])))
    && multiset(Pushed(s.log)) == multiset(Popped(s.log)) + multiset(v.values)
    && Pushed(s.log) == Values(s.pushed)
    && forall p: nat :: By(s.called, p) == By(s.pushed, p) + Pending(s.pushers, p)
  }

  lemma InvLinearized<V>(s: State<V>, v: View<V>)
    requires Kept(s, v)
    ensures Linearized(s, v)
  {
    assert Look(0);
    ShapeMeans(s.head, s.heap, s.pushers, s.popper, v);
    HistoryMeans(s.log, s.answers, v);
    CallsMean(s.log, s.called, s.pushed, s.pushers);
  }

  lemma ShapeMeans<V>(head: Ptr, heap: map<Ptr, Node<V>>, pushers: map<nat, Pusher<V>>, popper: Popper<V>, v: View<V>)
    requires Shape(head, heap, pushers, popper, v)
    ensures Chained(head, heap, v) && |v.hand| <= 1 && (popper.Idle? ==> v.hand == [])
  {
    assert Peek(0);
  }

  lemma HistoryMeans<V>(log: seq<Op<V>>, answers: seq<Option<V>>, v: View<V>)
    requires History(log, answers, v)
    ensures Replay(log) == Legal(v.values) && Outcomes(log) == answers + InHand(v.hand)
    ensures multiset(Pushed(log)) == multiset(Popped(log)) + multiset(v.values)
    ensures forall i :: 0 <= i < |log| && log[i].PopEmpty? ==> multiset(Pushed(log[..i])) == multiset(Popped(log[..i]))
  {
    assert Peek(0);
    LegalConserves(log);
    forall i | 0 <= i < |log| && log[i].PopEmpty?
      ensures multiset(Pushed(log[..i])) == multiset(Popped(log[..i]))
    {
      EmptyMeansEmpty(log, i);
    }
  }

  lemma CallsMean<V>(log: seq<Op<V>>, called: seq<Call<V>>, pushed: seq<Call<V>>, pushers: map<nat, Pusher<V>>)
    requires CallsOk(log, called, pushed, pushers)
    ensures Pushed(log) == Values(pushed)
    ensures forall p: nat :: By(called, p) == By(pushed, p) + Pending(pushers, p)
  {
    assert Peek(0);
  }
}
