/**
  The bounded blocking queue of topics/concurrency/bounded_blocking_queue.cpp (lines 46-74) with any number of
  producers and consumers. The mutex makes each stretch between two waits one step; a waiting thread may
  also be woken for no reason, and notify_one may choose any waiting thread.
*/
module BlockingQueue {
  import opened BoundedFifo
  import opened Calls
  import opened Sealing

  datatype State<V> = State(
    queue: seq<V>,
    asleepPushing: map<nat, V>,   // producers waiting on not_full_, with the value they bring
    awakePushing: map<nat, V>,    // producers woken but not yet back in the mutex
    asleepPopping: set<nat>,      // consumers waiting on not_empty_
    awakePopping: set<nat>,       // consumers woken but not yet back in the mutex
    log: seq<Op<V>>,              // finished calls in order
    called: seq<Call<V>>,         // calls of push so far
    pushed: seq<Call<V>>,         // those that have pushed, in the order in which they did
    asked: multiset<nat>,         // how often each thread has called pop
    popped: seq<Call<V>>          // the calls of pop that have returned, with what they returned
  )

  /** `chosen` is the waiting thread that notify_one picks, if there is any. */
  datatype Step<V> =
    | CallPush(id: nat, value: V, chosen: nat)   // a new call of push, up to its first wait or its end
    | ResumePush(id: nat, chosen: nat)           // a woken producer tests its condition again
    | CallPop(id: nat, chosen: nat)
    | ResumePop(id: nat, chosen: nat)
    | SpuriousPush(id: nat)
    | SpuriousPop(id: nat)

  function Start<V>(): State<V> {
    State([], map[], map[], {}, {}, [], [], [], multiset{}, [])
  }

  /** not_empty_.notify_one() */
  function NotifyPopping<V>(s: State<V>, chosen: nat): State<V> {
    if chosen in s.asleepPopping then
      s.(asleepPopping := s.asleepPopping - {chosen}, awakePopping := s.awakePopping + {chosen})
    else s
  }

  /** not_full_.notify_one() */
  function NotifyPushing<V>(s: State<V>, chosen: nat): State<V> {
    if chosen in s.asleepPushing then
      s.(awakePushing := s.awakePushing[chosen := s.asleepPushing[chosen]],
         asleepPushing := s.asleepPushing - {chosen})
    else s
  }

  /** A producer that holds the mutex: it pushes and notifies, or waits. */
  function PushBody<V>(s: State<V>, id: nat, value: V, chosen: nat, max: nat): State<V> {
    if |s.queue| < max then
      NotifyPopping(s.(queue := s.queue + [value], log := s.log + [Push(value)],
                       pushed := s.pushed + [Call(id, value)]), chosen)
    else
      s.(asleepPushing := s.asleepPushing[id := value])
  }

  /** A consumer that holds the mutex. */
  function PopBody<V>(s: State<V>, id: nat, chosen: nat): State<V> {
    if s.queue != [] then
      NotifyPushing(s.(queue := s.queue[1..], log := s.log + [Pop(s.queue[0])],
                       popped := s.popped + [Call(id, s.queue[0])]), chosen)
    else
      s.(asleepPopping := s.asleepPopping + {id})
  }

  /** notify_one wakes somebody whenever somebody waits. */
  predicate Choice<V>(s: State<V>, step: Step<V>) {
    match step
    case CallPush(_, _, chosen) => s.asleepPopping != {} ==> chosen in s.asleepPopping
    case ResumePush(_, chosen) => s.asleepPopping != {} ==> chosen in s.asleepPopping
    case CallPop(_, chosen) => |s.asleepPushing| != 0 ==> chosen in s.asleepPushing
    case ResumePop(_, chosen) => |s.asleepPushing| != 0 ==> chosen in s.asleepPushing
    case _ => true
  }

  /** One step; a step that its thread cannot take changes nothing. */
  function Apply<V>(s: State<V>, step: Step<V>, max: nat): State<V> {
    if !Choice(s, step) then s
    else match step
    case CallPush(id, value, chosen) =>
      if id in s.asleepPushing || id in s.awakePushing then s
      else PushBody(s.(called := s.called + [Call(id, value)]), id, value, chosen, max)
    case ResumePush(id, chosen) =>
      if id !in s.awakePushing then s
      else PushBody(s.(awakePushing := s.awakePushing - {id}), id, s.awakePushing[id], chosen, max)
    case CallPop(id, chosen) =>
      if id in s.asleepPopping || id in s.awakePopping then s
      else PopBody(s.(asked := s.asked + multiset{id}), id, chosen)
    case ResumePop(id, chosen) =>
      if id !in s.awakePopping then s
      else PopBody(s.(awakePopping := s.awakePopping - {id}), id, chosen)
    case SpuriousPush(id) => NotifyPushing(s, id)
    case SpuriousPop(id) => NotifyPopping(s, id)
  }

  /** The state after any interleaving of steps. */
  function Run<V>(steps: seq<Step<V>>, max: nat): State<V>
    decreases |steps|
  {
    if steps == [] then Start() else Apply(Run(steps[..|steps| - 1], max), steps[|steps| - 1], max)
  }

  // ----- The invariant -----

  /** While a consumer sleeps, enough consumers are on their way to empty the queue; while a producer sleeps, enough
      producers are on their way to fill it. */
  ghost predicate Attended<V>(s: State<V>, max: nat) {
    && (s.asleepPopping != {} ==> |s.awakePopping| >= |s.queue|)
    && (s.asleepPushing != map[] ==> |s.awakePushing| >= max - |s.queue|)
  }

  ghost predicate Inv<V>(s: State<V>, max: nat) {
    Core(s, max) && PopsOk(s.log, s.asked, s.popped, s.asleepPopping + s.awakePopping)
  }

  ghost predicate Core<V>(s: State<V>, max: nat) {
    && Attended(s, max)
    && s.asleepPopping !! s.awakePopping && s.asleepPushing.Keys !! s.awakePushing.Keys
    && Replay(s.log, max) == Legal(s.queue)
    && CallsOk(s)
  }

  /** Thread by thread, the calls of pop are those that have returned, with what the history popped, and the one that
      waits. */
  ghost predicate PopsOk<V>(log: seq<Op<V>>, asked: multiset<nat>, popped: seq<Call<V>>, waiting: set<nat>) {
    forall z {:trigger Peek(z)} :: Peek(z) ==>
      && Popped(log) == Values(popped)
      && forall id: nat :: asked[id] == |By(popped, id)| + if id in waiting then 1 else 0
  }

  lemma PopBegins<V>(log: seq<Op<V>>, asked: multiset<nat>, popped: seq<Call<V>>, waiting: set<nat>, id: nat)
    requires PopsOk(log, asked, popped, waiting) && id !in waiting
    ensures PopsOk(log, asked + multiset{id}, popped, waiting + {id})
  {
    assert Peek(0);
  }

  lemma PopReturns<V>(log: seq<Op<V>>, asked: multiset<nat>, popped: seq<Call<V>>, waiting: set<nat>, id: nat, value: V)
    requires PopsOk(log, asked, popped, waiting) && id in waiting
    ensures PopsOk(log + [Pop(value)], asked, popped + [Call(id, value)], waiting - {id})
  {
    assert Peek(0);
    PushedPoppedSnoc(log, Pop(value));
    Snoc(popped, Call(id, value), id);
    forall other: nat
      ensures asked[other] == |By(popped + [Call(id, value)], other)| + if other in waiting - {id} then 1 else 0
    {
      Snoc(popped, Call(id, value), other);
    }
  }

  lemma PushNoPop<V>(log: seq<Op<V>>, asked: multiset<nat>, popped: seq<Call<V>>, waiting: set<nat>, value: V)
    requires PopsOk(log, asked, popped, waiting)
    ensures PopsOk(log + [Push(value)], asked, popped, waiting)
  {
    assert Peek(0);
    PushedPoppedSnoc(log, Push(value));
  }

  /** Thread by thread, the values it called push with are those it has pushed and the one it waits with. */
  ghost predicate CallsOk<V>(s: State<V>) {
    forall z {:trigger Peek(z)} :: Peek(z) ==>
      && Pushed(s.log) == Values(s.pushed)
      && forall id: nat :: By(s.called, id) == By(s.pushed, id) + WaitingWith(s, id)
  }

  function WaitingWith<V>(s: State<V>, id: nat): seq<V> {
    if id in s.asleepPushing then [s.asleepPushing[id]]
    else if id in s.awakePushing then [s.awakePushing[id]]
    else []
  }

  /** The same while the thread `id` holds the mutex with a value to push. */
  ghost predicate CallsBut<V>(s: State<V>, id: nat, value: V) {
    forall z {:trigger Peek(z)} :: Peek(z) ==>
      && Pushed(s.log) == Values(s.pushed)
      && By(s.called, id) == By(s.pushed, id) + [value]
      && forall other: nat :: other != id ==> By(s.called, other) == By(s.pushed, other) + WaitingWith(s, other)
  }

  lemma CallBegins<V>(s: State<V>, id: nat, value: V)
    requires CallsOk(s) && id !in s.asleepPushing && id !in s.awakePushing
    ensures CallsBut(s.(called := s.called + [Call(id, value)]), id, value)
  {
    assert Peek(0);
    forall other: nat ensures By(s.called + [Call(id, value)], other)
                              == By(s.called, other) + if other == id then [value] else []
    {
      Snoc(s.called, Call(id, value), other);
    }
    assert WaitingWith(s, id) == [];
  }

  lemma CallResumes<V>(s: State<V>, id: nat)
    requires CallsOk(s) && id !in s.asleepPushing && id in s.awakePushing
    ensures CallsBut(s.(awakePushing := s.awakePushing - {id}), id, s.awakePushing[id])
  {
    assert Peek(0);
  }

  lemma CallPushes<V>(s: State<V>, id: nat, value: V, t: State<V>)
    requires CallsBut(s, id, value) && t.called == s.called && t.pushed == s.pushed + [Call(id, value)]
    requires t.log == s.log + [Push(value)] && t.asleepPushing == s.asleepPushing && t.awakePushing == s.awakePushing
    requires id !in s.asleepPushing && id !in s.awakePushing
    ensures CallsOk(t)
  {
    assert Peek(0);
    PushedPoppedSnoc(s.log, Push(value));
    forall other: nat ensures By(t.called, other) == By(t.pushed, other) + WaitingWith(t, other) {
      Snoc(s.pushed, Call(id, value), other);
    }
    Snoc(s.pushed, Call(id, value), id);
  }

  lemma CallWaits<V>(s: State<V>, id: nat, value: V)
    requires CallsBut(s, id, value) && id !in s.awakePushing
    ensures CallsOk(s.(asleepPushing := s.asleepPushing[id := value]))
  {
    assert Peek(0);
  }

  /** Steps of others: no push, and nobody's value changes. */
  lemma SameCalls<V>(s: State<V>, t: State<V>)
    requires CallsOk(s) && t.called == s.called && t.pushed == s.pushed && Pushed(t.log) == Pushed(s.log)
    requires forall id: nat :: WaitingWith(t, id) == WaitingWith(s, id)
    ensures CallsOk(t)
  {
    assert Peek(0);
  }

  lemma NotifyPoppingCounts<V>(s: State<V>, chosen: nat)
    requires s.asleepPopping !! s.awakePopping
    ensures var t := NotifyPopping(s, chosen);
      && t.asleepPopping !! t.awakePopping && t.asleepPopping + t.awakePopping == s.asleepPopping + s.awakePopping
      && |t.awakePopping| == |s.awakePopping| + (if chosen in s.asleepPopping then 1 else 0)
  {
  }

  lemma NotifyPushingCounts<V>(s: State<V>, chosen: nat)
    requires s.asleepPushing.Keys !! s.awakePushing.Keys
    ensures var t := NotifyPushing(s, chosen);
      && t.asleepPushing.Keys !! t.awakePushing.Keys
      && |t.awakePushing| == |s.awakePushing| + (if chosen in s.asleepPushing then 1 else 0)
  {
    var t := NotifyPushing(s, chosen);
    if chosen in s.asleepPushing {
      assert chosen !in s.awakePushing.Keys;
      assert t.asleepPushing.Keys == s.asleepPushing.Keys - {chosen};
      AddKey(s.awakePushing, chosen, s.asleepPushing[chosen]);
    }
  }

  lemma AddKey<V>(m: map<nat, V>, id: nat, value: V)
    requires id !in m
    ensures |m[id := value]| == |m| + 1 && m[id := value].Keys == m.Keys + {id}
  {
    assert m[id := value].Keys == m.Keys + {id};
    assert |m[id := value]| == |m[id := value].Keys| && |m| == |m.Keys|;
  }

  /** A producer in the mutex; when it was woken it has already left the woken ones. */
  lemma PushBodyKeeps<V>(s: State<V>, id: nat, value: V, chosen: nat, max: nat)
    requires s.asleepPopping != {} ==> |s.awakePopping| >= |s.queue| && chosen in s.asleepPopping
    requires s.asleepPushing != map[] ==> |s.awakePushing| + 1 >= max - |s.queue|
    requires s.asleepPopping !! s.awakePopping && s.asleepPushing.Keys !! s.awakePushing.Keys
    requires Replay(s.log, max) == Legal(s.queue)
    requires id !in s.asleepPushing && id !in s.awakePushing && CallsBut(s, id, value)
    requires PopsOk(s.log, s.asked, s.popped, s.asleepPopping + s.awakePopping)
    ensures Inv(PushBody(s, id, value, chosen, max), max)
  {
    if |s.queue| < max {
      var u := s.(queue := s.queue + [value], log := s.log + [Push(value)], pushed := s.pushed + [Call(id, value)]);
      CallPushes(s, id, value, PushBody(s, id, value, chosen, max));
      NotifyPoppingCounts(u, chosen);
      PushNoPop(s.log, s.asked, s.popped, s.asleepPopping + s.awakePopping, value);
      ReplaySnoc(s.log, Push(value), max);
    } else {
      CallWaits(s, id, value);
      assert s.asleepPushing[id := value].Keys == s.asleepPushing.Keys + {id};
    }
  }

  /** A consumer in the mutex returns with the oldest value or waits. */
  lemma PopBodyPops<V>(s: State<V>, id: nat, chosen: nat)
    requires id !in s.asleepPopping && id !in s.awakePopping
    requires PopsOk(s.log, s.asked, s.popped, s.asleepPopping + s.awakePopping + {id})
    ensures var t := PopBody(s, id, chosen);
      PopsOk(t.log, t.asked, t.popped, t.asleepPopping + t.awakePopping)
  {
    var waiting := s.asleepPopping + s.awakePopping;
    if s.queue != [] {
      PopReturns(s.log, s.asked, s.popped, waiting + {id}, id, s.queue[0]);
      assert waiting + {id} - {id} == waiting;
    } else {
      assert s.asleepPopping + {id} + s.awakePopping == waiting + {id};
    }
  }

  lemma PopResumes<V>(s: State<V>, id: nat, u: State<V>)
    requires id in s.awakePopping && s.asleepPopping !! s.awakePopping && u == s.(awakePopping := s.awakePopping - {id})
    requires PopsOk(s.log, s.asked, s.popped, s.asleepPopping + s.awakePopping)
    ensures PopsOk(u.log, u.asked, u.popped, u.asleepPopping + u.awakePopping + {id})
    ensures id !in u.asleepPopping && id !in u.awakePopping && u.asleepPopping !! u.awakePopping
    ensures |u.awakePopping| + 1 == |s.awakePopping|
  {
    assert u.asleepPopping + u.awakePopping + {id} == s.asleepPopping + s.awakePopping;
  }

  lemma PopBodyAttends<V>(s: State<V>, id: nat, chosen: nat, max: nat)
    requires s.asleepPushing != map[] ==> |s.awakePushing| >= max - |s.queue| && chosen in s.asleepPushing
    requires s.asleepPopping != {} ==> |s.awakePopping| + 1 >= |s.queue|
    requires s.asleepPopping !! s.awakePopping && s.asleepPushing.Keys !! s.awakePushing.Keys
    requires Replay(s.log, max) == Legal(s.queue)
    requires id !in s.asleepPopping && id !in s.awakePopping && CallsOk(s)
    ensures Core(PopBody(s, id, chosen), max)
  {
    if s.queue != [] {
      var u := s.(queue := s.queue[1..], log := s.log + [Pop(s.queue[0])], popped := s.popped + [Call(id, s.queue[0])]);
      NotifyPushingCounts(u, chosen);
      ReplaySnoc(s.log, Pop(s.queue[0]), max);
      PushedPoppedSnoc(s.log, Pop(s.queue[0]));
    }
    SameCalls(s, PopBody(s, id, chosen));
  }

  lemma PopBodyKeeps<V>(s: State<V>, id: nat, chosen: nat, max: nat)
    requires s.asleepPushing != map[] ==> |s.awakePushing| >= max - |s.queue| && chosen in s.asleepPushing
    requires s.asleepPopping != {} ==> |s.awakePopping| + 1 >= |s.queue|
    requires s.asleepPopping !! s.awakePopping && s.asleepPushing.Keys !! s.awakePushing.Keys
    requires Replay(s.log, max) == Legal(s.queue)
    requires id !in s.asleepPopping && id !in s.awakePopping && CallsOk(s)
    requires PopsOk(s.log, s.asked, s.popped, s.asleepPopping + s.awakePopping + {id})
    ensures Inv(PopBody(s, id, chosen), max)
  {
    PopBodyAttends(s, id, chosen, max);
    PopBodyPops(s, id, chosen);
  }

  /** The invariant as one atom. */
  ghost predicate Kept(s: State, max: nat) {
    forall z {:trigger Look(z)} :: Look(z) ==> Inv(s, max)
  }

  lemma CallPushKeeps<V>(s: State<V>, id: nat, value: V, chosen: nat, max: nat)
    requires Inv(s, max)
    ensures Kept(Apply(s, CallPush(id, value, chosen), max), max)
  {
    if Choice(s, CallPush(id, value, chosen)) && id !in s.asleepPushing && id !in s.awakePushing {
      CallBegins(s, id, value);
      PushBodyKeeps(s.(called := s.called + [Call(id, value)]), id, value, chosen, max);
    }
  }

  lemma ResumePushKeeps<V>(s: State<V>, id: nat, chosen: nat, max: nat)
    requires Inv(s, max)
    ensures Kept(Apply(s, ResumePush(id, chosen), max), max)
  {
    if Choice(s, ResumePush(id, chosen)) && id in s.awakePushing {
      var u := s.(awakePushing := s.awakePushing - {id});
      assert u.awakePushing.Keys == s.awakePushing.Keys - {id};
      CallResumes(s, id);
      PushBodyKeeps(u, id, s.awakePushing[id], chosen, max);
    }
  }

  lemma CallPopKeeps<V>(s: State<V>, id: nat, chosen: nat, max: nat)
    requires Inv(s, max)
    ensures Kept(Apply(s, CallPop(id, chosen), max), max)
  {
    assert s.asleepPushing != map[] ==> |s.asleepPushing| != 0;
    if Choice(s, CallPop(id, chosen)) && id !in s.asleepPopping && id !in s.awakePopping {
      var u := s.(asked := s.asked + multiset{id});
      SameCalls(s, u);
      PopBegins(s.log, s.asked, s.popped, s.asleepPopping + s.awakePopping, id);
      PopBodyKeeps(u, id, chosen, max);
    }
  }

  lemma ResumePopKeeps<V>(s: State<V>, id: nat, chosen: nat, max: nat)
    requires Inv(s, max)
    ensures Kept(Apply(s, ResumePop(id, chosen), max), max)
  {
    if Choice(s, ResumePop(id, chosen)) && id in s.awakePopping {
      SomeoneSleeps(s.asleepPushing);
      ResumeBodyKeeps(s, id, chosen, max, s.(awakePopping := s.awakePopping - {id}));
    }
  }

  lemma SomeoneSleeps<V>(m: map<nat, V>)
    ensures m != map[] ==> |m| != 0
  {
  }

  lemma ResumeBodyKeeps<V>(s: State<V>, id: nat, chosen: nat, max: nat, u: State<V>)
    requires Inv(s, max) && id in s.awakePopping && u == s.(awakePopping := s.awakePopping - {id})
    requires s.asleepPushing != map[] ==> chosen in s.asleepPushing
    ensures Inv(PopBody(u, id, chosen), max)
  {
    SameCalls(s, u);
    PopResumes(s, id, u);
    PopBodyKeeps(u, id, chosen, max);
  }

  lemma SpuriousPushKeeps<V>(s: State<V>, id: nat, max: nat)
    requires Inv(s, max)
    ensures Kept(NotifyPushing(s, id), max)
  {
    NotifyPushingCounts(s, id);
    SameCalls(s, NotifyPushing(s, id));
  }

  lemma SpuriousPopKeeps<V>(s: State<V>, id: nat, max: nat)
    requires Inv(s, max)
    ensures Kept(NotifyPopping(s, id), max)
  {
    NotifyPoppingCounts(s, id);
    SameCalls(s, NotifyPopping(s, id));
  }

  lemma StepKeeps<V>(s: State<V>, step: Step<V>, max: nat)
    requires Kept(s, max)
    ensures Kept(Apply(s, step, max), max)
  {
    assert Look(0);
    match step
    case CallPush(id, value, chosen) => CallPushKeeps(s, id, value, chosen, max);
    case ResumePush(id, chosen) => ResumePushKeeps(s, id, chosen, max);
    case CallPop(id, chosen) => CallPopKeeps(s, id, chosen, max);
    case ResumePop(id, chosen) => ResumePopKeeps(s, id, chosen, max);
    case SpuriousPush(id) => SpuriousPushKeeps(s, id, max);
    case SpuriousPop(id) => SpuriousPopKeeps(s, id, max);
  }

  lemma {:induction false} RunKept<V>(steps: seq<Step<V>>, max: nat)
    ensures Kept(Run(steps, max), max)
    decreases |steps|
  {
    if steps == [] {
    } else {
      RunKept(steps[..|steps| - 1], max);
      StepKeeps(Run(steps[..|steps| - 1], max), steps[|steps| - 1], max);
    }
  }

  // ----- Main results -----

  /** No wake-up is lost: a sleeping consumer means that woken consumers number at least the queue length, a sleeping
      producer that woken producers number at least the free places. */
  lemma NoLostWakeup<V>(steps: seq<Step<V>>, max: nat)
    ensures Attended(Run(steps, max), max)
  {
    RunKept(steps, max);
    assert Look(0);
  }

  /** With room for one value the two kinds never wait for each other: if a producer and a consumer both sleep,
      somebody is awake. And who sleeps while nobody of its kind is awake has reason to. */
  lemma NoMutualSleep<V>(steps: seq<Step<V>>, max: nat)
    requires max >= 1
    ensures SleepsWithReason(Run(steps, max), max)
  {
    RunKept(steps, max);
    assert Look(0);
    FirstInFirstOut(Run(steps, max).log, max);
  }

  ghost predicate SleepsWithReason(s: State, max: nat) {
    && (s.asleepPopping != {} && s.asleepPushing != map[] ==> s.awakePopping != {} || s.awakePushing != map[])
    && (s.asleepPopping != {} && s.awakePopping == {} ==> s.queue == [])
    && (s.asleepPushing != map[] && s.awakePushing == map[] ==> |s.queue| == max)
  }

  /** Without room the two kinds do wait for each other. */
  lemma NoRoomNoProgress(value: int)
    ensures var s := Run([CallPush(0, value, 0), CallPop(1, 0)], 0);
      s.asleepPopping == {1} && s.asleepPushing == map[0 := value] && s.awakePopping == {} && s.awakePushing == map[]
  {
    var steps := [CallPush(0, value, 0), CallPop(1, 0)];
    assert steps[..1] == [steps[0]] && steps[..1][..0] == [];
    var a: State<int> := Run([steps[0]], 0);
    assert a == Apply(Run([], 0), steps[0], 0);
    assert a.asleepPushing == map[0 := value];
  }

  /** Finished calls are a run of a bounded FIFO; and thread by thread, what push was called with is what that run
      pushed and the value of the call still waiting, if any, and every call of pop that does not wait has returned one
      of the values that run popped, in order. */
  lemma RefinesFifo<V>(steps: seq<Step<V>>, max: nat)
    ensures BehavesLikeFifo(Run(steps, max), max)
  {
    RunKept(steps, max);
    InvFifo(Run(steps, max), max);
  }

  ghost predicate BehavesLikeFifo<V>(s: State<V>, max: nat) {
    && Replay(s.log, max) == Legal(s.queue)
    && Pushed(s.log) == Popped(s.log) + s.queue && |s.queue| <= max
    && Pushed(s.log) == Values(s.pushed)
    && (forall id: nat :: By(s.called, id) == By(s.pushed, id) + WaitingWith(s, id))
    && Popped(s.log) == Values(s.popped)
    && forall id: nat :: s.asked[id] == |By(s.popped, id)| + if id in s.asleepPopping + s.awakePopping then 1 else 0
  }

  lemma InvFifo<V>(s: State<V>, max: nat)
    requires Kept(s, max)
    ensures BehavesLikeFifo(s, max)
  {
    assert Look(0);
    assert Peek(0);
    FirstInFirstOut(s.log, max);
  }
}
