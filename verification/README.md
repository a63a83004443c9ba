# Verified models of the repository's hard core

This Dafny project models the behaviour of the C++ programs of this repository that have a real
argument behind them, and proves what those arguments promise. There are four groups.

**The feed reconcilers** (`extras/citadel_interview/main.cpp`). Eight classes detect mismatches between
three feeds inside a time window: two full scans and six fast forms with a lazy min-heap, a tombstoned
open-addressing table, a timer wheel or a directly indexed vector. `ReconcilerSpec` states the scan over an
unordered map as functions on values; each class keeps the source's own state (arrays, heap, wheel buckets) and every
call is proved to move its abstract value exactly as the specification does. A wheel does so while every entry is due within
one turn; what it does otherwise is stated too (`Expiry.WheelTimer`, `DirectWheelFeed`, `FlatWheelFeed`). `Bench.RunBench` drives
any of them and returns the alert count of the specification under the class's `Policy`; `ReconcilerSpec.Agreement`,
`FlatAgreesIff` and `DirectAgreesIff` say when that is the scan's count, and `WheelRuns.TurnIff` says which sizes of a timer
wheel are right. `AlertSpec` says what such a count means without timers, entries or comparisons: `AlertsAreFiring` reads it off
the prices, sizes and times of the events alone. `Displacement` carries the argument that a table whose
tombstones are never reclaimed cannot fill up: beside the table runs a shadow into which every id
ever seen is inserted and never erased, and across every slot boundary the table pushes at most as many
ids as the shadow.

**The matching engine** (`order_book_matching_engine.cpp`). `OrderBooks` keeps both ladders as levels and is proved
against a recursive match on one priority queue, which in turn is the greedy match; `OrderBookSpec.AddOrderMeans` says in prices what
one order does to both sides, and the invariants of a run follow.

**Concurrent structures as step systems.** Each load, store, slot access and compare-and-swap is a step,
and the theorems are about the state after any sequence of steps: the Treiber stack with any number of pushers and
one popper, the SPSC ring with stale index loads, the ready-flag queue, the double-ring scheme
and the condition-variable queue. The queues are compared with one bounded FIFO (`BoundedFifo`).

**Sequential structures**: the open-addressing hash table with its mutual recursion, the LRU cache over list and map
(`LruRecency.HitsExactly` gives its answers from the trace alone), prime
factors and their intersection, the token bucket, the free-list pool and the timer wheel.

## Where code and documentation differ

- The reconcilers' `README.md` speaks of five classes; the code has eight, and the model follows the code.
- That README sorts events by time. No proof needs the order: under the conditions on ids and on time 0 below, the counts agree
  on streams in any order (`ReconcilerSpec.Agreement`).
- A comment asks for a wheel of two windows. A wheel counts right on every stream its class admits if and only if it has at least two windows less
  one tick (`WheelRuns.TurnIff`); on any smaller wheel, for every window, three events miscount (`WheelRuns.ShortTurn`).
- A window opened at time 0 looks fresh again to a class that reads freshness off the timestamps: a directly indexed class, which
  does not, can raise fewer alerts when the id is seen at a later time (`ReconcilerSpec.TimeZeroMissesAlert`).
- The workload draws ids from 1, but 1 marks tombstones in the flat tables: such a stream can give them fewer
  alerts than the scan (`ReconcilerSpec.SentinelIdMissesAlert`, `FlatAgreesIff`).
- Id 0 marks empty slots in the flat tables. Storing it is harmless exactly when the slot it takes is on no live id's path, in
  particular when the probe met no tombstone; otherwise lookups miss a live id from then on (`FlatTables.FlatTable.HarmlessIff`), it can be
  stored twice, and a table with fewer ids than slots can fill up, after which probes do not end (`FlatTables.ZeroFillsTable`,
  `Endless`).
- The comment on the ready-flag queue mentions a CAS for each enqueue; the code has none.
- The product of the common factors is the greatest common divisor except when one number is 0 and the other is not 1
  (`Factors.CommonFactorsGiveGcd`).

## Reading the project

Heavy invariants are passed around behind `Peek` (`Sealing.dfy`): a predicate of the form
`forall z :: Peek(z) ==> Fact` is `Fact`, opened by `assert Peek(0)` where it is needed. Steps that a thread cannot take leave a state
unchanged, so the theorems cover every sequence of steps.

## Model

| member | source | states |
|---|---|---|
| AlertSpec.AlertsAreFiring | extras/citadel_interview/main.cpp:962-995 | for every policy and every stream the alert count of the driver's run is the number of events at which the events alone give reason for an alert: an admitted event that is not too old for the last multiple of the window by then, in the window of its id that is still open or that it opens, when for the first time in that window two feeds' last executions differ in price or size before the window ends |
| AlertSpec.AlertIff | extras/citadel_interview/main.cpp:99-130 | one admitted event in time raises the count by one if and only if its window has not alerted, still runs, and two of the three feeds, the event in its own feed's place, hold executions that differ in price or size; and what it changes in the entry |
| AlertSpec.TimersFilter | extras/citadel_interview/main.cpp:972-975 | a run of timers leaves exactly the entries that outlive the last of them |
| AlertSpec.FlushEmpties | extras/citadel_interview/main.cpp:988-993 | the final flush leaves no window open |
| ReconcilerSpec.Agreement | extras/citadel_interview/main.cpp:45-883 | on every stream whose ids a class admits (and, where a fresh window is known by presence, in which no id seen at time 0 is seen at a positive time later) its driver run raises exactly the scan's alerts; no order is assumed |
| ReconcilerSpec.FlatAgreesIff | extras/citadel_interview/main.cpp:455-456 | on streams without id 0 the flat tables' policy counts like the scan if and only if the events of id 1, the tombstone mark, raise no alert by themselves |
| ReconcilerSpec.DirectAgreesIff | extras/citadel_interview/main.cpp:755-759 | the directly indexed classes count like the scan, on streams in which no id seen at time 0 is seen at a positive time later, if and only if the ids above the maximum raise no alert by themselves |
| ReconcilerSpec.AlertsSplit | extras/citadel_interview/main.cpp:181-205 | alerts are accounted for id by id: cutting the ids at any value splits the count of a whole run exactly |
| ReconcilerSpec.FreshnessRulesAgreeIff | extras/citadel_interview/main.cpp:108-113 | the two ways to know a fresh window treat an event alike if and only if it is late, at time 0, for an absent id, or for an entry with a non-zero timestamp |
| ReconcilerSpec.TimeZeroMissesAlert | extras/citadel_interview/main.cpp:186-188 | a concrete stream with an event at time 0 on which the scan raises one alert and a directly indexed class none |
| ReconcilerSpec.SentinelIdMissesAlert | extras/citadel_interview/main.cpp:903 | a concrete stream with id 1 on which the scan raises one alert and a flat table none |
| ReconcilerSpec.TimersKeepAlerts | extras/citadel_interview/main.cpp:972-975 | no run of timers changes an alert count |
| ReconcilerSpec.NextTimer | extras/citadel_interview/main.cpp:972-975 | the next timer after a catch-up lies beyond the time caught up to, by at most one window |
| Bench.RunBench | extras/citadel_interview/main.cpp:962-995 | driven over any stream, any of the classes returns the alert count of the specification under its policy, which is the number of events that give reason for one (`AlertSpec.AlertsAreFiring`), and ends with no window open, given room for the distinct ids and a wheel of two windows less one; how that compares with the scan's count, class by class; and a wheel of any size returns what `WheelRuns` counts |
| Bench.ComparedWithScan | extras/citadel_interview/main.cpp:1034-1064 | the count is the scan's for the unordered classes; for the flat tables, without id 0, exactly when id 1 raises no alert by itself; for the directly indexed classes, on the streams above, exactly when the ids above the maximum raise none |
| WheelRuns.TurnIff | extras/citadel_interview/main.cpp:1055-1058 | for both wheel classes, every window and every size: the wheel gives the scan's count on every stream that the class admits if and only if it has at least two windows less one tick |
| WheelRuns.LongTurn | extras/citadel_interview/main.cpp:962-995 | with that size the driver over a wheel returns the count of the class's policy on every stream whatever |
| WheelRuns.RunFollows | extras/citadel_interview/main.cpp:968-994 | the same from the middle of any run in which every entry is due within one turn |
| WheelRuns.ShortTurn | extras/citadel_interview/main.cpp:574-587 | with any smaller size, for every window, three events of one id raise an alert in the scan and none in the wheel |
| WheelRuns.ClearedEarly | extras/citadel_interview/main.cpp:576-584 | an id waiting for a later round in a bucket that a sweep clears is kept, but in no bucket any more |
| ReconcilerSpec.PositiveIsSteady | extras/citadel_interview/main.cpp:916 | positive timestamps, as the workload has them, are enough for the condition on time 0 |
| Bench.Deliver | extras/citadel_interview/main.cpp:969-986 | one round of the driver fires exactly the due timers and then delivers the event; the same on values for a wheel of any size |
| Bench.CatchUp | extras/citadel_interview/main.cpp:972-975 | the timer loop fires the specification's timers and leaves the next one in place; the same on values for a wheel of any size |
| Bench.AllAgree | extras/citadel_interview/main.cpp:1034-1064 | any two classes that admit every id of a stream, in which no id seen at time 0 is seen at a positive time later, count alike |
| Bench.Reconciler.OnFeed | extras/citadel_interview/main.cpp:976-986 | whichever class it is, an event moves its state as the specification does; a wheel, if an opened window ends within one turn |
| Bench.Reconciler.OnTimer | extras/citadel_interview/main.cpp:973 | whichever class it is, a timer moves its state as the specification does; a wheel, if its entries are due within one turn |
| ScanReconcilers.UnorderedScan.OnTimer | extras/citadel_interview/main.cpp:154-162 | the erasing loop removes exactly the expired entries |
| ScanReconcilers.UnorderedScan.OnFeed | extras/citadel_interview/main.cpp:181-205 | one event, as specified |
| ScanReconcilers.VectorScan.LowerBound | extras/citadel_interview/main.cpp:89-91 | the position before which all ids are smaller and from which none is |
| ScanReconcilers.VectorScan.GetOrCreate | extras/citadel_interview/main.cpp:88-97 | the vector stays sorted by id and holds one entry more only when the id was absent |
| ScanReconcilers.VectorScan.OnTimer | extras/citadel_interview/main.cpp:54-61 | remove_if leaves the sorted vector of exactly the entries a map scan leaves |
| ScanReconcilers.VectorScan.OnFeed | extras/citadel_interview/main.cpp:99-130 | one event on the sorted vector is one event on the map |
| HeapReconcilers.UnorderedHeap.OnTimer | extras/citadel_interview/main.cpp:225-238 | popping the due pairs, stale duplicates included, removes exactly what the full scan removes |
| HeapReconcilers.UnorderedHeap.OnFeed | extras/citadel_interview/main.cpp:264-291 | one event, as specified; every kept entry still has its expiry in the heap |
| FlatReconcilers.FlatHashHeap.OnTimer | extras/citadel_interview/main.cpp:415-429 | the same over the flat table |
| FlatReconcilers.FlatHashHeap.OnFeed | extras/citadel_interview/main.cpp:512-540 | one event, as specified for ids from 2; ids 0 and 1 leave no trace, 0 wherever it cuts no live id off |
| FlatReconcilers.FlatHashWheel.OnTimer | extras/citadel_interview/main.cpp:574-587 | sweeps and clears the buckets up to now, whatever they hold; that removes exactly what the full scan removes while every entry is due within one turn and time does not run back |
| FlatReconcilers.FlatHashWheel.OnFeed | extras/citadel_interview/main.cpp:662-692 | what one event does wherever the opened window ends; that is as specified if it ends within one turn of the wheel |
| FlatReconcilers.FlatWheelFollows | extras/citadel_interview/main.cpp:662-692 | the event on values follows the reference and keeps every entry within one turn, if the opened window ends there |
| DirectReconcilers.DirectIndexWheel.OnTimer | extras/citadel_interview/main.cpp:720-734 | sweeps and clears the buckets up to now, whatever they hold; that removes exactly what the full scan removes while every entry is due within one turn and time does not run back |
| DirectReconcilers.DirectIndexWheel.OnFeed | extras/citadel_interview/main.cpp:754-784 | what one event does wherever the opened window ends; that is as specified, for ids up to the maximum, if it ends within one turn of the wheel |
| DirectReconcilers.DirectWheelFollows | extras/citadel_interview/main.cpp:754-784 | the event on values follows the reference and keeps every entry within one turn, if the opened window ends there |
| DirectReconcilers.DirectIndexHeap.OnTimer | extras/citadel_interview/main.cpp:808-821 | the heap drain over the directly indexed vector removes exactly what the full scan removes |
| DirectReconcilers.DirectIndexHeap.OnFeed | extras/citadel_interview/main.cpp:846-876 | one event, as specified for ids up to the maximum |
| Expiry.PopKeeps | extras/citadel_interview/main.cpp:227-237 | popping one due pair, stale or not, keeps every remaining entry scheduled and removes nothing that is not due |
| Expiry.Drained | extras/citadel_interview/main.cpp:225-238 | once the top of the heap is not due, what is left of the map is what the scan leaves |
| Expiry.EndSweep | extras/citadel_interview/main.cpp:576-584 | after a bucket's sweep nothing kept is due by then, and clearing the whole bucket loses no kept entry's expiry |
| Expiry.TimerSimulates | extras/citadel_interview/main.cpp:574-587 | while every entry is due within one turn and time does not run back, sweeping and clearing whole buckets leaves what the scan leaves, and every entry due within one turn |
| Expiry.FullTurnIsLost | extras/citadel_interview/main.cpp:584 | after a bucket is cleared, an id due a full turn later is not in the bucket of its due time |
| Expiry.LostStays | extras/citadel_interview/main.cpp:574-587 | an entry whose id is in no bucket outlives every timer |
| FlatTables.FlatTable.TakenBound | extras/citadel_interview/main.cpp:471-510 | after any history of insertions and erasures live and tombstone slots together never outnumber the distinct ids ever inserted |
| FlatTables.FlatTable.FindOrInsert | extras/citadel_interview/main.cpp:471-492 | terminates while fewer distinct ids than slots were ever inserted; returns the id's slot with its entry, or the first slot on its path that holds no live id, with a blank entry; changes no other id, unless id 0 is stored on a live id's path: then lookups miss a live id |
| FlatTables.FlatTable.HarmlessIff | extras/citadel_interview/main.cpp:476-482 | storing the empty mark 0 keeps the table sound, and lookups find every live id, if and only if the slot it takes is on no live id's path; a probe that met no tombstone changes nothing |
| FlatTables.FlatTable.Seek | extras/citadel_interview/main.cpp:496-503 | the loop of findIndex on any table with an empty slot, sound or not: it answers npos if and only if an empty slot comes before the id on the probe path |
| Displacement.CutOffIff | extras/citadel_interview/main.cpp:476-504 | for every table: emptying a slot without a live id makes lookups miss some live id if and only if the slot is on a live id's path |
| FlatTables.ZeroFillsTable | extras/citadel_interview/main.cpp:471-492 | a concrete run with id 0 that fills a table of four slots with two copies of one id and one each of two others |
| FlatTables.Endless | extras/citadel_interview/main.cpp:474-504 | in a table without an empty slot a probe for an id that is not there passes every slot and stops nowhere |
| Displacement.EmptyingKeepsIff | extras/citadel_interview/main.cpp:476-480 | for every table: emptying a slot without a live id leaves all live ids reachable if and only if no live id's path runs over it |
| Displacement.ZeroKeepsIff | extras/citadel_interview/main.cpp:476-480 | for every table: the same for the slot that id 0 takes and the whole invariant |
| FlatTables.FlatTable.Search | extras/citadel_interview/main.cpp:472-491 | the probe passes only non-empty slots without the id, and ends at the id or at an empty slot; then the id is absent, and an insertion takes the first slot passed that holds no live id |
| FlatTables.FlatTable.FindIndex | extras/citadel_interview/main.cpp:494-504 | terminates under the same bound and finds exactly the live ids |
| FlatTables.FlatTable.EraseAt | extras/citadel_interview/main.cpp:506-510 | removes exactly that id from what the table maps |
| FlatTables.FlatTable.Store | extras/citadel_interview/main.cpp:516-538 | writing through an entry changes that id only, and nothing for the tombstone mark |
| FlatTables.ZeroCutsPaths | extras/citadel_interview/main.cpp:476-480 | a concrete table in which storing id 0 cuts a live id off from its home |
| Displacement.NonEmptyBound | extras/citadel_interview/main.cpp:471-510 | slots in use are no more than the ids of the deletion-free shadow |
| Displacement.Conservation | extras/citadel_interview/main.cpp:467-491 | for any placement, at every slot: ids crossing in plus ids homed there equal ids crossing out plus the ids sitting there |
| Displacement.Pressure | extras/citadel_interview/main.cpp:474-491 | an id that was inserted once and is not live: along live slots from its home the shadow pushes strictly more ids over every boundary than the table |
| Displacement.SoundInsert | extras/citadel_interview/main.cpp:471-492 | an insertion at the first tombstone or empty slot keeps the table dominated by the shadow that inserts the same id |
| Displacement.SoundErase | extras/citadel_interview/main.cpp:506-510 | an erasure keeps it dominated by the unchanged shadow |
| Displacement.SoundEmptyAhead | extras/citadel_interview/main.cpp:474-491 | with fewer ids ever seen than slots there is an empty slot ahead of every probe |
| Displacement.AbsentWhenEmpty | extras/citadel_interview/main.cpp:498-499 | an id not met before the first empty slot is not in the table |
| OrderBookSpec.ConsumeIsGreedy | topics/domain_sketches/order_book_matching_engine.cpp:57-70 | matching order by order is the greedy match: the longest prefix of crossing orders that the quantity covers in full, then at most one partial fill, for every queue |
| OrderBookSpec.SellMirrorsBuy | topics/domain_sketches/order_book_matching_engine.cpp:72-85 | matching a sell order is matching a buy order with all prices negated |
| OrderBookSpec.InsertPlace | topics/domain_sketches/order_book_matching_engine.cpp:40-45 | a resting order takes the place behind all orders not worse and ahead of all worse ones, and nothing else moves |
| OrderBookSpec.ConsumeKeeps | topics/domain_sketches/order_book_matching_engine.cpp:57-85 | a match keeps priority order and positive quantities, accounts for every unit, fills only crossing prices and stops only when done or no longer crossing |
| OrderBookSpec.AddOrderMeans | topics/domain_sketches/order_book_matching_engine.cpp:34-47 | what one order does, in prices: it takes the greedy match of the other side's orders within its limit, under its own id, and what is left of it rests at its own price behind all own orders at least as good and ahead of all others, none of which is touched |
| OrderBookSpec.RestsMeans | topics/domain_sketches/order_book_matching_engine.cpp:40-45 | so its side has as a multiset exactly that one order more, or none; and an order better than all of its side is then the best |
| OrderBookSpec.NothingToAdd | topics/domain_sketches/order_book_matching_engine.cpp:34-47 | an order of no quantity changes nothing |
| OrderBookSpec.AddOrderKeeps | topics/domain_sketches/order_book_matching_engine.cpp:34-47 | one order keeps the book sorted, positive and uncrossed, and conserves quantity |
| OrderBookSpec.RunKeeps | topics/domain_sketches/order_book_matching_engine.cpp:34-85 | after every run from the empty book: best bid below best ask, nothing non-positive resting, and submitted = resting + 2 x filled |
| OrderBooks.OrderBook.AddOrder | topics/domain_sketches/order_book_matching_engine.cpp:34-47 | the levels stay ascending and non-empty; fills and resulting book are the specification's |
| OrderBooks.OrderBook.MatchBuy | topics/domain_sketches/order_book_matching_engine.cpp:57-70 | the nested loops terminate and consume the ask queue as specified |
| OrderBooks.OrderBook.MatchSell | topics/domain_sketches/order_book_matching_engine.cpp:72-85 | the same for the bid queue, from its highest price down |
| OrderBooks.FillFromLevel | topics/domain_sketches/order_book_matching_engine.cpp:60-67 | the inner loop consumes one level until the order or the level is used up, and what is still to be matched completes the whole match |
| OrderBooks.PushBack | topics/domain_sketches/order_book_matching_engine.cpp:40-45 | appending to the level of a price, new or old, is inserting by priority into the queue of the ladder |
| OrderBooks.OrderBook.BestBid | topics/domain_sketches/order_book_matching_engine.cpp:49-51 | the highest resting bid, 0 when there is none |
| OrderBooks.OrderBook.BestAsk | topics/domain_sketches/order_book_matching_engine.cpp:52-54 | the lowest resting ask, 0 when there is none |
| OrderBooks.AscDetermines | topics/domain_sketches/order_book_matching_engine.cpp:87-88 | an ask ladder without empty levels is determined by its queue, so the abstraction loses nothing |
| OrderBooks.DescDetermines | topics/domain_sketches/order_book_matching_engine.cpp:87-88 | the same for the bid ladder |
| TreiberStack.Linearizable | topics/concurrency/lockfree_stack.cpp:51-71 | in every interleaving of any number of pushers with one popper, with freed addresses handed out again: no node is touched that is not allocated, the list from the head is acyclic, the operations in the order of their deciding steps are a legal run of a sequential stack with the values on that list, each thread's pushes in that run are the values it called push with but for the call in progress; every call of pop but the one in progress has answered, and the answers, in order, are what the pops of that run find, where a pop that finds nothing comes when everything pushed has been popped; nothing is lost or duplicated |
| TreiberStack.FailedPopGoesOn | topics/concurrency/lockfree_stack.cpp:60-66 | a compare-and-swap of pop that fails on a non-empty list leaves the call open, with the new head loaded |
| TreiberStack.PopRetrySucceeds | topics/concurrency/lockfree_stack.cpp:60-70 | from every reachable state a pop that has loaded the head, at its beginning or again, returns the first value if nobody interferes |
| TreiberStack.PushRetrySucceeds | topics/concurrency/lockfree_stack.cpp:51-58 | the same for push, after its first load and after every failed compare-and-swap |
| TreiberStack.EmptyMeansEmpty | topics/concurrency/lockfree_stack.cpp:13-31 | in a legal history a pop that finds nothing comes when everything pushed has been popped |
| TreiberStack.StepKeeps | topics/concurrency/lockfree_stack.cpp:51-71 | every step keeps the invariant behind that |
| TreiberStack.TakeKeeps | topics/concurrency/lockfree_stack.cpp:60-67 | a successful compare-and-swap of pop takes exactly the first node off: no ABA with one popper |
| TreiberStack.PushKeeps | topics/concurrency/lockfree_stack.cpp:51-58 | a successful compare-and-swap of push puts its node in front |
| TreiberStack.LegalConserves | topics/concurrency/lockfree_stack.cpp:13-31 | a legal stack history pops exactly what it pushed, apart from what is still stacked |
| BoundedFifo.FirstInFirstOut | topics/concurrency/lockfree_spsc_ring_buffer.cpp:15-39 | a legal history of the bounded deque pops in the order of pushing, and never holds more than the bound |
| BoundedFifo.MutexDeque.Push | topics/concurrency/lockfree_spsc_ring_buffer.cpp:18-23 | fails exactly when full, else appends |
| BoundedFifo.MutexDeque.Pop | topics/concurrency/lockfree_spsc_ring_buffer.cpp:24-30 | fails exactly when empty, else takes the oldest |
| SpscRing.RefinesDeque | topics/concurrency/lockfree_spsc_ring_buffer.cpp:46-63 | under every interleaving and every stale index view the ring's history is one of the bounded deque of size Capacity - 1: consumed values are a prefix of produced ones, at most Capacity - 1 in flight |
| SpscRing.PushesWhatWasOffered | topics/concurrency/lockfree_spsc_ring_buffer.cpp:46-54 | what that history pushes is what push was called with, call by call, where it answered true, and what it pops is what the calls of pop gave |
| SpscRing.FailsOnlyThen | topics/concurrency/lockfree_spsc_ring_buffer.cpp:46-63 | no step but such a check makes a call answer false |
| SpscRing.CallsEnd | topics/concurrency/lockfree_spsc_ring_buffer.cpp:46-63 | in every reachable state an undisturbed push ends with its value behind all others, or refused by a full view, and an undisturbed pop with the oldest value, or without one |
| SpscRing.NeverSameSlot | topics/concurrency/lockfree_spsc_ring_buffer.cpp:51-60 | the two sides are never about to access the same slot |
| SpscRing.AccessesAreOrdered | topics/concurrency/lockfree_spsc_ring_buffer.cpp:49-61 | a side touches a slot only after acquiring an index stored after the other side's last access to it |
| SpscRing.FailsExactly | topics/concurrency/lockfree_spsc_ring_buffer.cpp:49-59 | a push fails if and only if the loaded view shows Capacity - 1 values in flight, a pop if and only if it shows none; the indices count the successful operations |
| SpscRing.StepKeeps | topics/concurrency/lockfree_spsc_ring_buffer.cpp:46-63 | every step keeps the invariant, and only the two index stores change the contents, by one value each |
| ReadyQueue.RefinesDeque | topics/concurrency/waitfree_spsc_queue.cpp:44-64 | under every interleaving the queue's history is one of the bounded deque of full size Capacity, failures with an up-to-date load included; what it pushes is what enqueue was called with, call by call, where its answer is true, and what it pops is what the calls of dequeue gave |
| ReadyQueue.FailsExactly | topics/concurrency/waitfree_spsc_queue.cpp:47-59 | in every reachable state a check with an up-to-date load refuses enqueue if and only if Capacity values are in the queue, and dequeue if and only if none is, and grants it otherwise; a refusal outside the history comes from a stale load |
| ReadyQueue.EnqueueEnds | topics/concurrency/waitfree_spsc_queue.cpp:44-53 | wait-free: enqueue ends after at most five steps of its own, whatever the consumer does between them, and its value is the next pushed exactly when its check is granted |
| ReadyQueue.DequeueEnds | topics/concurrency/waitfree_spsc_queue.cpp:55-64 | the same for dequeue, which gives the value popped next |
| ReadyQueue.FlagsMarkTheInterval | topics/concurrency/waitfree_spsc_queue.cpp:44-64 | ready flags mark exactly the cyclic interval from the read to the write index, with the one operation in flight on each side accounted for |
| ReadyQueue.NeverSameSlot | topics/concurrency/waitfree_spsc_queue.cpp:47-60 | the two sides never access the value of the same slot at once |
| DoubleRing.EachBufferInOnePlace | topics/concurrency/notes_spsc_bump_vs_double_ring.cpp:190-222 | in every run, under any staleness, each of the first min(POOL_SIZE, RING_SIZE - 1) buffers is in exactly one of free ring, used ring and the two hands, and no other buffer circulates |
| DoubleRing.DrainedInOrder | topics/concurrency/notes_spsc_bump_vs_double_ring.cpp:201-222 | in every run the buffers put on the used ring are those taken from the free ring, and those given back are those drained, each in the same order but for the one in hand |
| DoubleRing.NoReuseBeforeConsumed | topics/concurrency/notes_spsc_bump_vs_double_ring.cpp:201-222 | a buffer being filled is neither waiting to be consumed, nor being consumed, nor free |
| DoubleRing.PushNeverSpins | topics/concurrency/notes_spsc_bump_vs_double_ring.cpp:202-222 | with up-to-date loads the spinning pushes of both threads succeed at once |
| DoubleRing.FillHolds | topics/concurrency/notes_spsc_bump_vs_double_ring.cpp:190-191 | the start-up loop leaves exactly the first min(POOL_SIZE, RING_SIZE - 1) buffers in the free ring, in order |
| BlockingQueue.NoLostWakeup | topics/concurrency/bounded_blocking_queue.cpp:49-62 | in every run with any number of threads, spurious wake-ups and any choice of notify_one: while a consumer sleeps, woken consumers number at least the queue length, and dually for producers and free places |
| BlockingQueue.NoMutualSleep | topics/concurrency/bounded_blocking_queue.cpp:49-62 | with MaxSize at least 1 a producer and a consumer never both sleep with nobody awake; who sleeps with nobody of its kind awake has reason to |
| BlockingQueue.NoRoomNoProgress | topics/concurrency/bounded_blocking_queue.cpp:49-62 | with MaxSize 0 they do: a concrete run |
| BlockingQueue.RefinesFifo | topics/concurrency/bounded_blocking_queue.cpp:49-62 | finished calls are a run of the bounded FIFO, the length stays within MaxSize, each thread's pushes in that run are the values it called push with but for the call still waiting, and each thread's calls of pop have all returned values that run popped but for the one that waits |
| HashTables.HashTable.Insert | topics/microarchitecture/cache_friendly_hash_table.cpp:17-34 | maps the key to the value and nothing else; grows exactly when at least half full, and once; the code behind the probe loop is unreachable; the recursion with rehash terminates |
| HashTables.HashTable.Rehash | topics/microarchitecture/cache_friendly_hash_table.cpp:51-59 | the same map and size in a table of twice the capacity, with no nested rehash |
| HashTables.HashTable.Find | topics/microarchitecture/cache_friendly_hash_table.cpp:36-44 | answers as the map of last inserted values does |
| HashTables.HashTable.Size | topics/microarchitecture/cache_friendly_hash_table.cpp:46 | counts the distinct keys |
| HashTables.HashTable.Search | topics/microarchitecture/cache_friendly_hash_table.cpp:19-31 | the probe passes only other keys and stops at the key, at an empty cell or after every cell |
| HashTables.ProbeDecides | topics/microarchitecture/cache_friendly_hash_table.cpp:36-44 | where the probe stops, the cell decides whether the key is mapped and to what |
| HashTables.ProbeStops | topics/microarchitecture/cache_friendly_hash_table.cpp:20-33 | with fewer keys than cells no probe passes every cell |
| HashTables.StoreRepresents | topics/microarchitecture/cache_friendly_hash_table.cpp:22-30 | storing where the probe stops represents the map with that key set, for any hash |
| LruRecency.HitsExactly | topics/memory/lru_cache.cpp:16-36 | every lookup, from the trace alone: it finds the key if and only if the key was used, by a put or a get that found it, with fewer than the capacity of others used since, and answers the value last put |
| LruRecency.RunRanked | topics/memory/lru_cache.cpp:16-36 | after every trace the list has its keys in strictly decreasing order of their last use, and lacks older ones only, when full |
| LruRecency.OldestIsDropped | topics/memory/lru_cache.cpp:29-35 | a new key put into a full cache drops exactly the key whose last use is longest ago |
| LruRecency.GetRefreshes | topics/memory/lru_cache.cpp:19 | a hit moves its entry to the front and keeps the order of all others |
| LruRecency.PutRefreshes | topics/memory/lru_cache.cpp:25-28 | so does a put of a key that is there, with the new value |
| LruSpec.LargerCacheHits | topics/memory/lru_cache.cpp:16-36 | on every trace the smaller cache's list is a subsequence of the larger's, so what hits in the smaller hits in the larger with the same value |
| LruSpec.StepNested | topics/memory/lru_cache.cpp:16-36 | each operation keeps the lists nested, and equal while the smaller is not full |
| LruSpec.AnswersAreLatest | topics/memory/lru_cache.cpp:16-36 | a hit answers the value last put for the key, and the key last put is a hit |
| LruCaches.LruCache.Get | topics/memory/lru_cache.cpp:16-21 | over list, nodes and map of iterators: answers and reorders as specified |
| LruCaches.LruCache.Put | topics/memory/lru_cache.cpp:23-36 | updates in place or evicts the last entry and adds the new one, as specified |
| LruCaches.LruCache.Bijection | topics/memory/lru_cache.cpp:38-41 | map and list are in bijection and no key is listed twice, after every operation |
| Factors.GetFactors | topics/concurrency/parallel_math/lib.h:6-18 | the primes in ascending order whose product is the number; none for 0 |
| Factors.Unique | topics/concurrency/parallel_math/lib.h:6-18 | there is only one such list, so that contract determines the result |
| Factors.GetCommonFactors | topics/concurrency/parallel_math/lib.h:20-34 | the multiset intersection of the two lists, in the order of the first |
| Factors.CommonFactorsGiveGcd | topics/concurrency/parallel_math/lib.h:6-34 | the product of the common factors of two numbers is their greatest common divisor if and only if both are positive or one of them is 1 |
| Factors.CommonOfPrimes | topics/concurrency/parallel_math/lib.h:20-34 | for any two lists of primes the product of the common ones is the greatest common divisor of the products |
| Divisibility.GcdDivides | topics/concurrency/parallel_math/lib.h:20-34 | the reference: Euclid's value divides both numbers |
| Divisibility.GcdGreatest | topics/concurrency/parallel_math/lib.h:20-34 | and every common divisor divides it |
| TokenBuckets.RateLimit | topics/io/rate_limiter_token_bucket.cpp:19-34 | in every interval [s, t] of every run at most capacity + rate x (t - s) requests are accepted |
| TokenBuckets.Greedy | topics/io/rate_limiter_token_bucket.cpp:19-27 | on every prefix try_consume has accepted at least as many requests as any other policy on the same bucket |
| TokenBuckets.RequestMeans | topics/io/rate_limiter_token_bucket.cpp:19-34 | a request sees min(capacity, tokens + rate x elapsed) tokens and is accepted if and only if that is at least one, of which it takes one |
| TokenBuckets.RefillTwice | topics/io/rate_limiter_token_bucket.cpp:29-34 | an extra refill in between makes no difference |
| TokenBuckets.TokenBucket.TryConsume | topics/io/rate_limiter_token_bucket.cpp:19-27 | one call is one request of the always-willing policy; tokens stay within 0 and capacity |
| TokenBuckets.TokenBucket.Refill | topics/io/rate_limiter_token_bucket.cpp:29-34 | adds what the rate earned since the last refill, up to the capacity |
| FixedSizePools.FixedSizePool.Allocate | topics/memory/fixed_size_memory_pool.cpp:17-22 | hands out the first free chunk, which was not live; touches no live chunk; grows exactly when nothing is free |
| FixedSizePools.FixedSizePool.Deallocate | topics/memory/fixed_size_memory_pool.cpp:24-29 | the freed chunk is the next to be handed out, no other live chunk changes, null is ignored |
| FixedSizePools.FixedSizePool.Grow | topics/memory/fixed_size_memory_pool.cpp:37-45 | a block of new chunks, first to last, in front of the free list |
| FixedSizePools.FixedSizePool.Write | topics/memory/fixed_size_memory_pool.cpp:32-35 | users may overwrite the storage of live chunks, which holds no link |
| FixedSizePools.FixedSizePool.Accounts | topics/memory/fixed_size_memory_pool.cpp:17-45 | live + free = BlockSize x blocks, no chunk is both, and the free list is acyclic and runs through every free chunk |
| TimerWheels.TimerWheel.Tick | topics/io/timer_wheel.cpp:33-41 | one tick runs exactly what is due at it, in the order of scheduling; what callbacks schedule meanwhile comes later, in order |
| TimerWheels.TimerWheel.ScheduleAfter | topics/io/timer_wheel.cpp:25-31 | schedules for the tick ((k - 1) mod n) + 1 ahead, for k = max(1, delay / interval) |
| TimerWheels.TimerWheel.Promise | topics/io/timer_wheel.cpp:25-41 | everything ever scheduled that is due by now has run at its tick, exactly once, behind what was scheduled for that tick before it; the rest is due within one turn |
| TimerWheels.TicksMean | topics/io/timer_wheel.cpp:26-27 | a delay counts as the whole tick intervals in it, and as one if there is none |
| TimerWheels.WaitIsExact | topics/io/timer_wheel.cpp:26-28 | the wait is exactly k ticks if and only if k fits in one turn, and else k less a number of whole turns |
| TimerWheels.RunsInOrder | topics/io/timer_wheel.cpp:40 | the callbacks of a tick run one after the other, so what an earlier one schedules comes first |
| TimerWheels.EachOnce | topics/io/timer_wheel.cpp:36-40 | each event has its own place among the callbacks of its tick |
| TimerWheels.AdvanceHolds | topics/io/timer_wheel.cpp:34-39 | the slot the wheel gets to holds exactly what is due, and may be emptied |

## Left out

- Integer widths: timestamps, ids, counts, prices in ticks and quantities are unbounded, so wrap-around of `ts + W` and of sums is not modelled.
- `double` prices and token arithmetic: integer ticks and real numbers stand for them; rounding is not modelled.
- `ReconcilerUnorderedHeapReserved`: differs from `ReconcilerUnorderedHeap` in `reserve` and the load factor only.
- The bits of splitmix64 and `& mask_`: any hash function and the remainder by the capacity stand for them; the duplicated table code of the two flat classes is one class here.
- FlatTables.FlatTable.FindOrInsert: asks for a table from which id 0 has cut no live id off; after that calls need not end (`ZeroFillsTable`, `Endless`), and `Seek` and `Inserts` say what the loops do to the slots if they do.
- FlatReconcilers.FlatHashHeap.OnFeed: does not cover an event of id 0 that cuts a live id off, for that reason.
- FlatReconcilers.FlatHashWheel.OnFeed: the same, for an event of id 0.
- Bench.RunBench: for the flat tables, streams that contain id 0: whether an event of id 0 does harm depends on the table at that time, and a run need not end after it did.
- Bench.Deliver: the same.
- Bench.Reconciler.OnFeed: the same.
- Library containers: `std::lower_bound` and `remove_if` are written as loops, `std::map`, `std::unordered_map` and `std::priority_queue` are sequences, maps and multisets; a heap's choice among equal expiries is left open.
- TreiberStack.Linearizable: loads and stores are sequentially consistent (the relaxed first load of pop is not modelled as stale), and there is one popper; with two, `delete` makes the property fail. `empty` and the destructor are not modelled.
- SpscRing.RefinesDeque: stale loads of the indices are modelled, stale slot contents are not; AccessesAreOrdered is why they cannot occur. `empty` is not modelled.
- ReadyQueue.RefinesDeque: a stale flag load may fail an operation; such failures are not part of the history.
- DoubleRing.EachBufferInOnePlace: the batch mode and the bump arena are not modelled, nor is `stop`; a ring has at least two slots and any size, where the source asks for a power of two.
- BlockingQueue.NoLostWakeup: calls that have not reached the mutex are not represented; progress under fairness is not stated.
- Hash-table and LRU capacities of 0, a window of width 0, an empty wheel and a block size of 0 are excluded, as the code does not support them.
- LruCaches.LruCache.Put: node addresses are never reused in the model.
- Negative timer delays and negative refill intervals are excluded; the clock is a parameter.
- TimerWheels.TimerWheel.Tick: a callback is what it schedules; one that calls `tick` itself is not modelled, nor is scheduling from another thread during a tick.
- FixedSizePools.FixedSizePool.Deallocate: asks for null or a live chunk, as `free` does.
- Benchmarks, printing, random workloads, plotting, sockets, processes and the latency servers: input and output only.
- Copies and easier members (`MarketDataQueue`, `RingBuffer`, the slab pool, `MutexQueue`, `ThreadPool`, the sorts, language demos): they would add easy members only.
