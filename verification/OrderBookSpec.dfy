/**
  What the matching engine of topics/domain_sketches/order_book_matching_engine.cpp computes. Each side of the book is
  seen as one queue of resting orders, best price first and oldest first within a price.
*/
module OrderBookSpec {
  datatype Side = Buy | Sell

  datatype Order = Order(id: nat, side: Side, price: int, qty: int)

  datatype Fill = Fill(orderId: nat, matchId: nat, price: int, qty: int)

  function Min(a: int, b: int): int { if b < a then b else a }

  function Opposite(s: Side): Side { if s == Buy then Sell else Buy }

  /** Whether an incoming order with this limit trades against a resting price. */
  predicate Crosses(s: Side, limit: int, resting: int) {
    if s == Buy then resting <= limit else resting >= limit
  }

  /** Whether price a on side s keeps its place ahead of a later order at price b. */
  predicate NotWorse(s: Side, a: int, b: int) {
    if s == Buy then a >= b else a <= b
  }

  /** The fills, the queue left behind and the quantity left over. */
  datatype Match = Match(fills: seq<Fill>, rest: seq<Order>, left: int)

  /** Matching one resting order after the other. */
  function Consume(s: Side, id: nat, limit: int, qty: int, queue: seq<Order>): Match
    decreases |queue|
  {
    if qty <= 0 || queue == [] || !Crosses(s, limit, queue[0].price) then Match([], queue, qty)
    else
      var r := queue[0];
      var f := Min(qty, r.qty);
      var fill := Fill(id, r.id, r.price, f);
      if r.qty - f == 0 then
        var m := Consume(s, id, limit, qty - f, queue[1..]);
        Match([fill] + m.fills, m.rest, m.left)
      else
        Match([fill], [r.(qty := r.qty - f)] + queue[1..], qty - f)
  }

  /** A new order waits behind every order whose price is not worse. */
  function Insert(queue: seq<Order>, o: Order): seq<Order>
    decreases |queue|
  {
    if queue == [] then [o]
    else if NotWorse(o.side, queue[0].price, o.price) then [queue[0]] + Insert(queue[1..], o)
    else [o] + queue
  }

  /** Both sides of a book. */
  datatype Book = Book(bids: seq<Order>, asks: seq<Order>) {
    function Facing(s: Side): seq<Order> { if s == Buy then asks else bids }
    function Own(s: Side): seq<Order> { if s == Buy then bids else asks }
  }

  const EMPTY_BOOK := Book([], [])

  function MatchOf(b: Book, o: Order): Match {
    Consume(o.side, o.id, o.price, o.qty, b.Facing(o.side))
  }

  function AddOrder(b: Book, o: Order): Book {
    var m := MatchOf(b, o);
    var own := if m.left > 0 then Insert(b.Own(o.side), o.(qty := m.left)) else b.Own(o.side);
    if o.side == Buy then Book(own, m.rest) else Book(m.rest, own)
  }

  // ----- The greedy specification -----

  function Total(queue: seq<Order>): int
    decreases |queue|
  {
    if queue == [] then 0 else queue[0].qty + Total(queue[1..])
  }

  function Filled(fills: seq<Fill>): int
    decreases |fills|
  {
    if fills == [] then 0 else fills[0].qty + Filled(fills[1..])
  }

  /** Full fills of resting orders. */
  function FullFills(id: nat, queue: seq<Order>): seq<Fill> {
    seq(|queue|, i requires 0 <= i < |queue| => Fill(id, queue[i].id, queue[i].price, queue[i].qty))
  }

  ghost predicate Positive(queue: seq<Order>) {
    forall i :: 0 <= i < |queue| ==> queue[i].qty > 0
  }

  /** c is the length of the prefix whose prices the limit crosses. */
  ghost predicate CrossingPrefix(s: Side, limit: int, queue: seq<Order>, c: nat) {
    && c <= |queue|
    && (forall i :: 0 <= i < c ==> Crosses(s, limit, queue[i].price))
    && (c < |queue| ==> !Crosses(s, limit, queue[c].price))
  }

  /** k is the largest number of crossing orders that the quantity covers in full. */
  ghost predicate Covered(qty: int, queue: seq<Order>, c: nat, k: nat) {
    && k <= c <= |queue|
    && Total(queue[..k]) <= qty
    && (k < c ==> qty < Total(queue[..k + 1]))
  }

  /** The match the greedy rule prescribes: the longest crossing prefix that the quantity covers is filled in full, and
      what is left of the quantity goes into the next crossing order, if there is one. */
  ghost function Greedy(id: nat, qty: int, queue: seq<Order>, c: nat, k: nat): Match
    requires Covered(qty, queue, c, k)
  {
    var left := qty - Total(queue[..k]);
    if k == c || left == 0 then Match(FullFills(id, queue[..k]), queue[k..], left)
    else
      Match(FullFills(id, queue[..k]) + [Fill(id, queue[k].id, queue[k].price, left)],
            [queue[k].(qty := queue[k].qty - left)] + queue[k + 1..], 0)
  }

  lemma ShiftPrefix(queue: seq<Order>, k: nat)
    requires queue != [] && k < |queue|
    ensures queue[..k + 1][1..] == queue[1..][..k] && queue[..k + 1][0] == queue[0]
    ensures Total(queue[..k + 1]) == queue[0].qty + Total(queue[1..][..k])
  {
    assert queue[..k + 1][1..] == queue[1..][..k];
  }

  lemma {:induction false} CrossingPrefixExists(s: Side, limit: int, queue: seq<Order>) returns (c: nat)
    ensures CrossingPrefix(s, limit, queue, c)
    decreases |queue|
  {
    c := 0;
    if queue == [] || !Crosses(s, limit, queue[0].price) {
    } else {
      var d := CrossingPrefixExists(s, limit, queue[1..]);
      c := d + 1;
      assert forall i :: 1 <= i < |queue| ==> queue[i] == queue[1..][i - 1];
    }
  }

  lemma CoveredShift(qty: int, queue: seq<Order>, c: nat, k: nat)
    requires queue != [] && Covered(qty - queue[0].qty, queue[1..], c, k)
    ensures Covered(qty, queue, c + 1, k + 1)
  {
    ShiftPrefix(queue, k);
    if k < c { ShiftPrefix(queue, k + 1); }
  }

  lemma GreedyShift(id: nat, qty: int, queue: seq<Order>, c: nat, k: nat)
    requires queue != [] && Covered(qty - queue[0].qty, queue[1..], c, k) && Covered(qty, queue, c + 1, k + 1)
    ensures var g := Greedy(id, qty - queue[0].qty, queue[1..], c, k);
      Greedy(id, qty, queue, c + 1, k + 1)
      == Match([Fill(id, queue[0].id, queue[0].price, queue[0].qty)] + g.fills, g.rest, g.left)
  {
    ShiftPrefix(queue, k);
    assert FullFills(id, queue[..k + 1])
        == [Fill(id, queue[0].id, queue[0].price, queue[0].qty)] + FullFills(id, queue[1..][..k]);
    assert queue[k + 1..] == queue[1..][k..];
    if k < c {
      assert queue[k + 1] == queue[1..][k];
      assert queue[k + 2..] == queue[1..][k + 1..];
    }
  }

  lemma NothingCovered(s: Side, id: nat, limit: int, qty: int, queue: seq<Order>, c: nat)
    requires Positive(queue) && qty >= 0 && CrossingPrefix(s, limit, queue, c)
    requires c == 0 || qty < queue[0].qty
    ensures Covered(qty, queue, c, 0)
    ensures Consume(s, id, limit, qty, queue) == Greedy(id, qty, queue, c, 0)
  {
    assert queue[..0] == [] && FullFills(id, []) == [];
    if c > 0 {
      ShiftPrefix(queue, 0);
    }
  }

  lemma OneCovered(s: Side, id: nat, limit: int, qty: int, queue: seq<Order>, c: nat, k: nat)
    requires Positive(queue) && queue != [] && queue[0].qty <= qty && Crosses(s, limit, queue[0].price)
    requires Covered(qty - queue[0].qty, queue[1..], c, k)
    requires Consume(s, id, limit, qty - queue[0].qty, queue[1..]) == Greedy(id, qty - queue[0].qty, queue[1..], c, k)
    ensures Covered(qty, queue, c + 1, k + 1)
    ensures Consume(s, id, limit, qty, queue) == Greedy(id, qty, queue, c + 1, k + 1)
  {
    CoveredShift(qty, queue, c, k);
    GreedyShift(id, qty, queue, c, k);
  }

  /** Matching order by order is the greedy match, for every queue of positive orders. */
  lemma {:induction false} ConsumeIsGreedy(s: Side, id: nat, limit: int, qty: int, queue: seq<Order>, c: nat)
      returns (k: nat)
    requires Positive(queue) && qty >= 0 && CrossingPrefix(s, limit, queue, c)
    ensures Covered(qty, queue, c, k)
    ensures Consume(s, id, limit, qty, queue) == Greedy(id, qty, queue, c, k)
    decreases |queue|
  {
    if c == 0 || qty < queue[0].qty {
      k := 0;
      NothingCovered(s, id, limit, qty, queue, c);
    } else {
      var j := ConsumeIsGreedy(s, id, limit, qty - queue[0].qty, queue[1..], c - 1);
      k := j + 1;
      OneCovered(s, id, limit, qty, queue, c - 1, j);
    }
  }

  // ----- Selling mirrors buying -----

  function NegOrders(queue: seq<Order>): seq<Order> {
    seq(|queue|, i requires 0 <= i < |queue| => queue[i].(price := -queue[i].price))
  }

  function NegFills(fills: seq<Fill>): seq<Fill> {
    seq(|fills|, i requires 0 <= i < |fills| => fills[i].(price := -fills[i].price))
  }

  lemma NegFillsCons(f: Fill, fills: seq<Fill>)
    ensures NegFills([f] + fills) == [f.(price := -f.price)] + NegFills(fills)
    ensures NegFills([f]) == [f.(price := -f.price)]
  {
  }

  lemma NegOrdersCons(o: Order, queue: seq<Order>)
    ensures NegOrders([o] + queue) == [o.(price := -o.price)] + NegOrders(queue)
  {
  }

  function NegMatch(m: Match): Match {
    Match(NegFills(m.fills), NegOrders(m.rest), m.left)
  }

  lemma NegTwice(queue: seq<Order>)
    ensures NegOrders(NegOrders(queue)) == queue && |NegOrders(queue)| == |queue|
    ensures queue != [] ==> NegOrders(queue) == [queue[0].(price := -queue[0].price)] + NegOrders(queue[1..])
  {
  }

  /** The first resting order, mirrored: filled in full, or in part. */
  lemma FirstMirrors(id: nat, limit: int, qty: int, queue: seq<Order>)
    requires qty > 0 && queue != [] && Crosses(Sell, limit, queue[0].price)
    requires var f := Min(qty, queue[0].qty);
      Consume(Sell, id, limit, qty - f, queue[1..])
      == NegMatch(Consume(Buy, id, -limit, qty - f, NegOrders(queue[1..])))
    ensures Consume(Sell, id, limit, qty, queue) == NegMatch(Consume(Buy, id, -limit, qty, NegOrders(queue)))
  {
    var neg, f := NegOrders(queue), Min(qty, queue[0].qty);
    NegTwice(queue);
    assert neg[1..] == NegOrders(queue[1..]);
    var fill := Fill(id, neg[0].id, neg[0].price, f);
    if queue[0].qty == f {
      NegFillsCons(fill, Consume(Buy, id, -limit, qty - f, neg[1..]).fills);
    } else {
      NegOrdersCons(neg[0].(qty := neg[0].qty - f), neg[1..]);
      NegTwice(queue[1..]);
      NegFillsCons(fill, []);
    }
  }

  /** Matching a sell order is matching a buy order with all prices negated. */
  lemma {:induction false} SellMirrorsBuy(id: nat, limit: int, qty: int, queue: seq<Order>)
    ensures Consume(Sell, id, limit, qty, queue) == NegMatch(Consume(Buy, id, -limit, qty, NegOrders(queue)))
    decreases |queue|
  {
    NegTwice(queue);
    if qty <= 0 || queue == [] || !Crosses(Sell, limit, queue[0].price) {
    } else {
      SellMirrorsBuy(id, limit, qty - Min(qty, queue[0].qty), queue[1..]);
      FirstMirrors(id, limit, qty, queue);
    }
  }

  // ----- What every run keeps -----

  ghost predicate Sorted(s: Side, queue: seq<Order>) {
    forall i, j :: 0 <= i < j < |queue| ==> NotWorse(s, queue[i].price, queue[j].price)
  }

  ghost predicate SideOk(s: Side, queue: seq<Order>) {
    && Sorted(s, queue) && Positive(queue)
    && forall i :: 0 <= i < |queue| ==> queue[i].side == s
  }

  ghost predicate Uncrossed(b: Book) {
    b.bids != [] && b.asks != [] ==> b.bids[0].price < b.asks[0].price
  }

  /** The invariant of a book: sorted, positive and uncrossed. */
  ghost predicate BookOk(b: Book) {
    SideOk(Buy, b.bids) && SideOk(Sell, b.asks) && Uncrossed(b)
  }

  /** An inserted order stands behind all that are not worse and ahead of all that are worse; nothing else moves. */
  lemma {:induction false} InsertPlace(queue: seq<Order>, o: Order) returns (k: nat)
    ensures k <= |queue| && Insert(queue, o) == queue[..k] + [o] + queue[k..]
    ensures forall i :: 0 <= i < k ==> NotWorse(o.side, queue[i].price, o.price)
    ensures k < |queue| ==> !NotWorse(o.side, queue[k].price, o.price)
    decreases |queue|
  {
    if queue == [] || !NotWorse(o.side, queue[0].price, o.price) {
      k := 0;
    } else {
      var j := InsertPlace(queue[1..], o);
      k := j + 1;
      assert queue[..k] == [queue[0]] + queue[1..][..j];
      assert queue[k..] == queue[1..][j..];
    }
  }

  lemma InsertTotal(queue: seq<Order>, o: Order)
    ensures Total(Insert(queue, o)) == Total(queue) + o.qty
  {
    var k := InsertPlace(queue, o);
    TotalSplit(queue[..k], queue[k..]);
    assert queue == queue[..k] + queue[k..];
    TotalSplit(queue[..k], [o] + queue[k..]);
    assert ([o] + queue[k..])[1..] == queue[k..];
    assert queue[..k] + [o] + queue[k..] == queue[..k] + ([o] + queue[k..]);
  }

  lemma InsertKeeps(queue: seq<Order>, o: Order)
    requires SideOk(o.side, queue) && o.qty > 0
    ensures SideOk(o.side, Insert(queue, o))
    ensures Insert(queue, o)[0] == o || (queue != [] && Insert(queue, o)[0] == queue[0])
  {
    var k := InsertPlace(queue, o);
    assert forall i :: k <= i < |queue| ==> NotWorse(o.side, o.price, queue[i].price);
  }

  lemma {:induction false} TotalSplit(a: seq<Order>, b: seq<Order>)
    ensures Total(a + b) == Total(a) + Total(b)
    decreases |a|
  {
    if a == [] {
      assert a + b == b;
    } else {
      assert (a + b)[1..] == a[1..] + b;
      TotalSplit(a[1..], b);
    }
  }

  /** What one match promises. */
  ghost predicate MatchOk(s: Side, limit: int, qty: int, queue: seq<Order>, m: Match) {
    && SideOk(Opposite(s), m.rest)
    && (qty > 0 ==> m.left >= 0) && (qty <= 0 ==> m.left == qty && m.fills == [])
    && qty - m.left == Filled(m.fills) == Total(queue) - Total(m.rest)
    && (m.left > 0 && m.rest != [] ==> !Crosses(s, limit, m.rest[0].price))
    && (m.rest != [] ==> queue != [] && NotWorse(Opposite(s), queue[0].price, m.rest[0].price))
    && (forall i :: 0 <= i < |m.fills| ==> m.fills[i].qty > 0 && Crosses(s, limit, m.fills[i].price))
  }

  /** Nothing is left to match, or nothing crosses. */
  lemma NoneKeeps(s: Side, limit: int, qty: int, queue: seq<Order>)
    requires SideOk(Opposite(s), queue)
    requires qty <= 0 || queue == [] || !Crosses(s, limit, queue[0].price)
    ensures MatchOk(s, limit, qty, queue, Match([], queue, qty))
  {
  }

  /** The first resting order is reduced. */
  lemma PartKeeps(s: Side, limit: int, qty: int, queue: seq<Order>, fill: Fill)
    requires SideOk(Opposite(s), queue) && queue != [] && 0 < qty < queue[0].qty
    requires Crosses(s, limit, queue[0].price) && fill.price == queue[0].price && fill.qty == qty
    ensures MatchOk(s, limit, qty, queue, Match([fill], [queue[0].(qty := queue[0].qty - qty)] + queue[1..], 0))
  {
    var rest := [queue[0].(qty := queue[0].qty - qty)] + queue[1..];
    assert rest[1..] == queue[1..] && Total(rest) == Total(queue) - qty;
    assert [fill][1..] == [] && Filled([fill]) == qty;
  }

  /** The first resting order is used up. */
  lemma FullKeeps(s: Side, limit: int, qty: int, queue: seq<Order>, fill: Fill, m: Match)
    requires SideOk(Opposite(s), queue) && queue != [] && queue[0].qty <= qty
    requires Crosses(s, limit, queue[0].price) && fill.price == queue[0].price && fill.qty == queue[0].qty
    requires MatchOk(s, limit, qty - queue[0].qty, queue[1..], m)
    ensures MatchOk(s, limit, qty, queue, Match([fill] + m.fills, m.rest, m.left))
  {
    assert ([fill] + m.fills)[1..] == m.fills;
  }

  lemma {:induction false} ConsumeKeeps(s: Side, id: nat, limit: int, qty: int, queue: seq<Order>)
    requires SideOk(Opposite(s), queue)
    ensures MatchOk(s, limit, qty, queue, Consume(s, id, limit, qty, queue))
    decreases |queue|
  {
    if qty <= 0 || queue == [] || !Crosses(s, limit, queue[0].price) {
      NoneKeeps(s, limit, qty, queue);
    } else {
      var f := Min(qty, queue[0].qty);
      var fill := Fill(id, queue[0].id, queue[0].price, f);
      if queue[0].qty == f {
        ConsumeKeeps(s, id, limit, qty - f, queue[1..]);
        FullKeeps(s, limit, qty, queue, fill, Consume(s, id, limit, qty - f, queue[1..]));
      } else {
        PartKeeps(s, limit, qty, queue, fill);
      }
    }
  }

  /** One order keeps the book sorted, positive and uncrossed, and every unit of positive quantity goes either
      into the book or, twice counted, into a fill. */
  lemma AddOrderKeeps(b: Book, o: Order)
    requires BookOk(b)
    ensures BookOk(AddOrder(b, o))
    ensures var b' := AddOrder(b, o);
      Total(b'.bids) + Total(b'.asks) + 2 * Filled(MatchOf(b, o).fills)
      == Total(b.bids) + Total(b.asks) + (if o.qty > 0 then o.qty else 0)
  {
    var m := MatchOf(b, o);
    ConsumeKeeps(o.side, o.id, o.price, o.qty, b.Facing(o.side));
    if m.left > 0 {
      InsertKeeps(b.Own(o.side), o.(qty := m.left));
      InsertTotal(b.Own(o.side), o.(qty := m.left));
    }
  }

  // ----- One order, in prices -----

  /** c is the length of the prefix whose prices are within the limit. */
  ghost predicate WithinLimit(s: Side, limit: int, queue: seq<Order>, c: nat) {
    && c <= |queue|
    && (forall i :: 0 <= i < c ==> if s == Buy then queue[i].price <= limit else queue[i].price >= limit)
    && (c < |queue| ==> if s == Buy then queue[c].price > limit else queue[c].price < limit)
  }

  /** Of the order's quantity `left` rests at its own price, behind all orders at least as good and ahead of all others;
      no other order of its side is touched. */
  ghost predicate Rests(own: seq<Order>, own': seq<Order>, o: Order, left: int, at: nat) {
    if left <= 0 then own' == own
    else
      && at <= |own| && own' == own[..at] + [Order(o.id, o.side, o.price, left)] + own[at..]
      && (forall i :: 0 <= i < at ==> if o.side == Buy then own[i].price >= o.price else own[i].price <= o.price)
      && (forall i :: at <= i < |own| ==> if o.side == Buy then own[i].price < o.price else own[i].price > o.price)
  }

  /** What one order does to a book: on the other side it takes the greedy match of the orders within its limit, and on
      its own side what is left rests. */
  lemma AddOrderMeans(b: Book, o: Order) returns (c: nat, k: nat, at: nat)
    requires BookOk(b) && o.qty >= 0
    ensures Trades(b, o, AddOrder(b, o), MatchOf(b, o).fills, c, k, at)
  {
    c, k := MatchMeans(o, b.Facing(o.side));
    at := InsertRests(b.Own(o.side), o, MatchOf(b, o).left);
  }

  /** b' is the book b after the order, with these fills. */
  ghost predicate Trades(b: Book, o: Order, b': Book, fills: seq<Fill>, c: nat, k: nat, at: nat) {
    var (facing, facing') := if o.side == Buy then (b.asks, b'.asks) else (b.bids, b'.bids);
    var (own, own') := if o.side == Buy then (b.bids, b'.bids) else (b.asks, b'.asks);
    && WithinLimit(o.side, o.price, facing, c) && Covered(o.qty, facing, c, k)
    && fills == Greedy(o.id, o.qty, facing, c, k).fills && facing' == Greedy(o.id, o.qty, facing, c, k).rest
    && Rests(own, own', o, o.qty - Filled(fills), at)
  }

  lemma MatchMeans(o: Order, facing: seq<Order>) returns (c: nat, k: nat)
    requires SideOk(Opposite(o.side), facing) && o.qty >= 0
    ensures WithinLimit(o.side, o.price, facing, c) && Covered(o.qty, facing, c, k)
    ensures var m := Consume(o.side, o.id, o.price, o.qty, facing);
      m == Greedy(o.id, o.qty, facing, c, k) && m.left == o.qty - Filled(m.fills)
  {
    c := CrossingPrefixExists(o.side, o.price, facing);
    k := ConsumeIsGreedy(o.side, o.id, o.price, o.qty, facing, c);
    ConsumeKeeps(o.side, o.id, o.price, o.qty, facing);
  }

  lemma InsertRests(own: seq<Order>, o: Order, left: int) returns (at: nat)
    requires SideOk(o.side, own)
    ensures Rests(own, if left > 0 then Insert(own, o.(qty := left)) else own, o, left, at)
  {
    at := 0;
    if left > 0 {
      at := InsertPlace(own, o.(qty := left));
      assert forall i :: at <= i < |own| ==> NotWorse(o.side, own[at].price, own[i].price);
    }
  }

  /** An order of no quantity changes nothing. */
  lemma NothingToAdd(b: Book, o: Order)
    requires o.qty <= 0
    ensures AddOrder(b, o) == b && MatchOf(b, o).fills == []
  {
  }

  /** As multisets: one order more, or none; and an order better than all of its side is the best. */
  lemma RestsMeans(own: seq<Order>, own': seq<Order>, o: Order, left: int, at: nat)
    requires Rests(own, own', o, left, at)
    ensures multiset(own')
         == multiset(own) + if left > 0 then multiset{Order(o.id, o.side, o.price, left)} else multiset{}
    ensures left > 0 && (own == [] || if o.side == Buy then own[0].price < o.price else own[0].price > o.price) ==>
              own'[0].price == o.price
  {
    if left > 0 {
      assert own == own[..at] + own[at..];
    }
  }

  /** The book after a run of orders, and the quantity filled on the way. */
  function Run(orders: seq<Order>): (Book, int)
    decreases |orders|
  {
    if orders == [] then (EMPTY_BOOK, 0)
    else
      var before := Run(orders[..|orders| - 1]);
      var o := orders[|orders| - 1];
      (AddOrder(before.0, o), before.1 + Filled(MatchOf(before.0, o).fills))
  }

  function Submitted(orders: seq<Order>): int
    decreases |orders|
  {
    if orders == [] then 0
    else
      var o := orders[|orders| - 1];
      Submitted(orders[..|orders| - 1]) + (if o.qty > 0 then o.qty else 0)
  }

  /** After every run from the empty book: uncrossed, nothing non-positive rests, and
      submitted = resting + 2 * filled. */
  lemma {:induction false} RunKeeps(orders: seq<Order>)
    ensures BookOk(Run(orders).0)
    ensures Submitted(orders) == Total(Run(orders).0.bids) + Total(Run(orders).0.asks) + 2 * Run(orders).1
    decreases |orders|
  {
    if orders == [] {
    } else {
      RunKeeps(orders[..|orders| - 1]);
      AddOrderKeeps(Run(orders[..|orders| - 1]).0, orders[|orders| - 1]);
    }
  }
}
