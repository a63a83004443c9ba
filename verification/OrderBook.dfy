/**
  The order book of topics/domain_sketches/order_book_matching_engine.cpp (lines 32-89). A std::map from price to
  level is the sequence of its levels in ascending price order: begin() is the first, rbegin() the last. Quantities and
  prices are unbounded integers; the code only subtracts and compares them.
*/
module OrderBooks {
  import opened OrderBookSpec
  import opened Sealing

  datatype Level = Level(price: int, orders: seq<Order>)

  /** The queue of a ladder read from the lowest price up. */
  function Asc(levels: seq<Level>): seq<Order>
    decreases |levels|
  {
    if levels == [] then [] else levels[0].orders + Asc(levels[1..])
  }

  /** The queue of a ladder read from the highest price down. */
  function Desc(levels: seq<Level>): seq<Order>
    decreases |levels|
  {
    if levels == [] then [] else levels[|levels| - 1].orders + Desc(levels[..|levels| - 1])
  }

  lemma {:induction false} AscSplit(a: seq<Level>, b: seq<Level>)
    ensures Asc(a + b) == Asc(a) + Asc(b)
    decreases |a|
  {
    if a == [] {
      assert a + b == b;
    } else {
      assert (a + b)[1..] == a[1..] + b;
      AscSplit(a[1..], b);
    }
  }

  lemma {:induction false} DescSplit(a: seq<Level>, b: seq<Level>)
    ensures Desc(a + b) == Desc(b) + Desc(a)
    decreases |b|
  {
    if b == [] {
      assert a + b == a;
    } else {
      assert (a + b)[..|a + b| - 1] == a + b[..|b| - 1];
      DescSplit(a, b[..|b| - 1]);
    }
  }

  /** A level holds live orders of its side at its price. */
  ghost predicate LevelOk(l: Level, s: Side) {
    forall i :: 0 <= i < |l.orders| ==>
      l.orders[i].price == l.price && l.orders[i].qty > 0 && l.orders[i].side == s
  }

  /** Ascending prices, and no empty level. */
  ghost predicate LadderOk(levels: seq<Level>, s: Side) {
    && (forall i, j :: 0 <= i < j < |levels| ==> levels[i].price < levels[j].price)
    && (forall i :: 0 <= i < |levels| ==> levels[i].orders != [] && LevelOk(levels[i], s))
  }

  /** Every queued order is priced like one of the levels. */
  lemma {:induction false} PricesWithin(levels: seq<Level>, s: Side, lo: int, hi: int)
    requires forall i :: 0 <= i < |levels| ==> LevelOk(levels[i], s) && lo <= levels[i].price <= hi
    ensures forall j :: 0 <= j < |Asc(levels)| ==>
      var o := Asc(levels)[j]; lo <= o.price <= hi && o.qty > 0 && o.side == s
    ensures forall j :: 0 <= j < |Desc(levels)| ==>
      var o := Desc(levels)[j]; lo <= o.price <= hi && o.qty > 0 && o.side == s
    decreases |levels|
  {
    if levels == [] {
    } else {
      PricesWithin(levels[1..], s, lo, hi);
      PricesWithin(levels[..|levels| - 1], s, lo, hi);
    }
  }

  lemma {:induction false} AscOk(levels: seq<Level>)
    requires LadderOk(levels, Sell)
    ensures SideOk(Sell, Asc(levels))
    ensures levels != [] ==> Asc(levels) != [] && Asc(levels)[0].price == levels[0].price
    ensures levels == [] ==> Asc(levels) == []
    decreases |levels|
  {
    if levels == [] {
    } else {
      AscOk(levels[1..]);
      PricesWithin(levels[1..], Sell, levels[0].price, levels[|levels| - 1].price);
    }
  }

  lemma {:induction false} DescOk(levels: seq<Level>)
    requires LadderOk(levels, Buy)
    ensures SideOk(Buy, Desc(levels))
    ensures levels != [] ==> Desc(levels) != [] && Desc(levels)[0].price == levels[|levels| - 1].price
    ensures levels == [] ==> Desc(levels) == []
    decreases |levels|
  {
    if levels == [] {
    } else {
      var rest := levels[..|levels| - 1];
      DescOk(rest);
      PricesWithin(rest, Buy, levels[0].price, levels[|levels| - 1].price);
    }
  }

  lemma {:induction false} InsertBetween(pre: seq<Order>, post: seq<Order>, o: Order)
    requires forall i :: 0 <= i < |pre| ==> NotWorse(o.side, pre[i].price, o.price)
    requires post != [] ==> !NotWorse(o.side, post[0].price, o.price)
    ensures Insert(pre + post, o) == pre + [o] + post
    decreases |pre|
  {
    if pre == [] {
      assert pre + post == post;
    } else {
      assert (pre + post)[1..] == pre[1..] + post;
      InsertBetween(pre[1..], post, o);
    }
  }

  /** The queue of a ladder, best price first for its side. */
  function Queue(levels: seq<Level>, s: Side): seq<Order> {
    if s == Buy then Desc(levels) else Asc(levels)
  }

  /** Splitting a ladder around a price splits its queue there. */
  lemma QueueAround(low: seq<Level>, mid: seq<Level>, high: seq<Level>, s: Side)
    ensures Queue(low + mid + high, s)
            == if s == Buy then Desc(high) + Desc(mid) + Desc(low) else Asc(low) + Asc(mid) + Asc(high)
  {
    AscSplit(low + mid, high);
    AscSplit(low, mid);
    DescSplit(low + mid, high);
    DescSplit(low, mid);
  }

  lemma SingleLevel(l: Level)
    ensures Asc([l]) == l.orders && Desc([l]) == l.orders
  {
    assert [l][1..] == [] && [l][..0] == [];
  }

  /** Appending an order to the level of its price, whose orders are `level`, inserts it into the queue. */
  lemma RestInPlace(low: seq<Level>, level: seq<Order>, high: seq<Level>, o: Order)
    requires LevelOk(Level(o.price, level), o.side)
    requires forall i :: 0 <= i < |low| ==> LevelOk(low[i], o.side) && low[i].price < o.price
    requires forall i :: 0 <= i < |high| ==> LevelOk(high[i], o.side) && high[i].price > o.price
    ensures Queue(low + [Level(o.price, level + [o])] + high, o.side)
            == Insert(Queue(low + [Level(o.price, level)] + high, o.side), o)
  {
    var l, l' := Level(o.price, level), Level(o.price, level + [o]);
    QueueAround(low, [l], high, o.side);
    QueueAround(low, [l'], high, o.side);
    SingleLevel(l);
    SingleLevel(l');
    Bounded(low, o.side, o.price);
    Bounded(high, o.side, o.price);
    if o.side == Buy {
      RestBetween(Desc(high), level, Desc(low), o);
    } else {
      RestBetween(Asc(low), level, Asc(high), o);
    }
  }

  lemma RestBetween(ahead: seq<Order>, level: seq<Order>, behind: seq<Order>, o: Order)
    requires forall i :: 0 <= i < |ahead| ==> NotWorse(o.side, ahead[i].price, o.price)
    requires forall i :: 0 <= i < |level| ==> level[i].price == o.price
    requires forall i :: 0 <= i < |behind| ==> !NotWorse(o.side, behind[i].price, o.price)
    ensures Insert(ahead + level + behind, o) == ahead + (level + [o]) + behind
  {
    var front := ahead + level;
    forall i | 0 <= i < |front| ensures NotWorse(o.side, front[i].price, o.price) {
      if i >= |ahead| { assert front[i] == level[i - |ahead|]; }
    }
    InsertBetween(front, behind, o);
    assert front + [o] == ahead + (level + [o]);
  }

  lemma {:induction false} Bounded(levels: seq<Level>, s: Side, p: int)
    requires forall i :: 0 <= i < |levels| ==> LevelOk(levels[i], s)
    ensures (forall i :: 0 <= i < |levels| ==> levels[i].price < p) ==>
      (forall j :: 0 <= j < |Asc(levels)| ==> Asc(levels)[j].price < p) &&
      (forall j :: 0 <= j < |Desc(levels)| ==> Desc(levels)[j].price < p)
    ensures (forall i :: 0 <= i < |levels| ==> levels[i].price > p) ==>
      (forall j :: 0 <= j < |Asc(levels)| ==> Asc(levels)[j].price > p) &&
      (forall j :: 0 <= j < |Desc(levels)| ==> Desc(levels)[j].price > p)
    decreases |levels|
  {
    if levels == [] {
    } else {
      Bounded(levels[1..], s, p);
      Bounded(levels[..|levels| - 1], s, p);
    }
  }

  /** One round of the inner loop is one step of matching the queue. */
  lemma MatchStep(s: Side, id: nat, limit: int, qty: int, level: seq<Order>, tail: seq<Order>)
    requires qty > 0 && level != [] && Crosses(s, limit, level[0].price)
    ensures var f := Min(qty, level[0].qty);
      var level' := if level[0].qty - f == 0 then level[1..] else level[0 := level[0].(qty := level[0].qty - f)];
      var m := Consume(s, id, limit, qty - f, level' + tail);
      Consume(s, id, limit, qty, level + tail)
      == Match([Fill(id, level[0].id, level[0].price, f)] + m.fills, m.rest, m.left)
  {
    assert (level + tail)[1..] == level[1..] + tail;
    var f := Min(qty, level[0].qty);
    if level[0].qty - f != 0 {
      var level' := level[0 := level[0].(qty := level[0].qty - f)];
      assert level' + tail == [level'[0]] + (level[1..] + tail);
    }
  }

  /** The matching so far and the matching still to come make up the whole. */
  ghost predicate Pending(whole: Match, s: Side, id: nat, limit: int, fills: seq<Fill>, qty: int, queue: seq<Order>) {
    forall z {:trigger Peek(z)} :: Peek(z) ==>
      var m := Consume(s, id, limit, qty, queue);
      whole == Match(fills + m.fills, m.rest, m.left)
  }

  lemma PendingStep(whole: Match, s: Side, id: nat, limit: int, fills: seq<Fill>, qty: int, level: seq<Order>,
                    tail: seq<Order>)
    requires qty > 0 && level != [] && Crosses(s, limit, level[0].price)
    requires Pending(whole, s, id, limit, fills, qty, level + tail)
    ensures var f := Min(qty, level[0].qty);
      var level' := if level[0].qty - f == 0 then level[1..] else level[0 := level[0].(qty := level[0].qty - f)];
      Pending(whole, s, id, limit, fills + [Fill(id, level[0].id, level[0].price, f)], qty - f, level' + tail)
  {
    assert Peek(0);
    MatchStep(s, id, limit, qty, level, tail);
  }

  lemma PendingStart(s: Side, id: nat, limit: int, qty: int, queue: seq<Order>)
    ensures Pending(Consume(s, id, limit, qty, queue), s, id, limit, [], qty, queue)
  {
  }

  lemma PendingEnd(whole: Match, s: Side, id: nat, limit: int, fills: seq<Fill>, qty: int, queue: seq<Order>)
    requires Pending(whole, s, id, limit, fills, qty, queue)
    requires qty <= 0 || queue == [] || !Crosses(s, limit, queue[0].price)
    ensures whole == Match(fills, queue, qty)
  {
    assert Peek(0);
  }

  /** The inner loop (lines 60-67 and 75-82): fills the order from one level, whose orders it removes or reduces. */
  method FillFromLevel(order: Order, p: int, level: seq<Order>, fills: seq<Fill>, s: Side, ghost tail: seq<Order>,
                       ghost whole: Match)
      returns (order': Order, level': seq<Order>, fills': seq<Fill>)
    requires LevelOk(Level(p, level), Opposite(s)) && Crosses(s, order.price, p)
    requires Pending(whole, s, order.id, order.price, fills, order.qty, level + tail)
    ensures LevelOk(Level(p, level'), Opposite(s))
    ensures order' == order.(qty := order'.qty) && (level' == [] || order'.qty <= 0)
    ensures order'.qty <= order.qty && (level' == level ==> order.qty <= 0 || level == [] || order'.qty < order.qty)
    ensures Pending(whole, s, order.id, order.price, fills', order'.qty, level' + tail)
  {
    order', level', fills' := order, level, fills;
    while order'.qty > 0 && level' != []
      invariant LevelOk(Level(p, level'), Opposite(s))
      invariant order' == order.(qty := order'.qty) && order'.qty <= order.qty
      invariant order'.qty < order.qty || level' == level
      invariant Pending(whole, s, order.id, order.price, fills', order'.qty, level' + tail)
      decreases order'.qty
    {
      var resting := level'[0];
      var fillQty := Min(order'.qty, resting.qty);
      PendingStep(whole, s, order.id, order.price, fills', order'.qty, level', tail);
      fills' := fills' + [Fill(order'.id, resting.id, resting.price, fillQty)];
      order' := order'.(qty := order'.qty - fillQty);
      level' := level'[0 := resting.(qty := resting.qty - fillQty)];
      if level'[0].qty == 0 {
        level' := level'[1..];
      }
    }
  }

  class OrderBook {
    var bids: seq<Level>
    var asks: seq<Level>

    ghost predicate Valid()
      reads this
    {
      LadderOk(bids, Buy) && LadderOk(asks, Sell)
    }

    ghost function View(): Book
      reads this
    {
      Book(Desc(bids), Asc(asks))
    }

    constructor ()
      ensures Valid() && View() == EMPTY_BOOK
    {
      bids, asks := [], [];
    }

    method BestBid() returns (p: int)
      requires Valid()
      ensures p == if View().bids == [] then 0 else View().bids[0].price
      ensures forall i :: 0 <= i < |View().bids| ==> View().bids[i].price <= p
    {
      DescOk(bids);
      p := if bids == [] then 0 else bids[|bids| - 1].price;
    }

    method BestAsk() returns (p: int)
      requires Valid()
      ensures p == if View().asks == [] then 0 else View().asks[0].price
      ensures forall i :: 0 <= i < |View().asks| ==> View().asks[i].price >= p
    {
      AscOk(asks);
      p := if asks == [] then 0 else asks[0].price;
    }

    method MatchBuy(order: Order) returns (left: Order, fills: seq<Fill>)
      requires Valid()
      modifies this`asks
      ensures Valid()
      ensures var m := Consume(Buy, order.id, order.price, order.qty, old(Asc(asks)));
        fills == m.fills && Asc(asks) == m.rest && left == order.(qty := m.left)
    {
      left, fills := order, [];
      ghost var whole := Consume(Buy, order.id, order.price, order.qty, Asc(asks));
      PendingStart(Buy, order.id, order.price, order.qty, Asc(asks));
      while left.qty > 0 && asks != [] && asks[0].price <= left.price
        invariant LadderOk(asks, Sell) && left == order.(qty := left.qty)
        invariant Pending(whole, Buy, order.id, order.price, fills, left.qty, Asc(asks))
        decreases |asks|, left.qty
      {
        var best := asks[0];
        ghost var rest := asks[1..];
        var level;
        left, level, fills := FillFromLevel(left, best.price, best.orders, fills, Buy, Asc(rest), whole);
        asks := asks[0 := best.(orders := level)];
        assert asks[1..] == rest && Asc(asks) == level + Asc(rest);
        if level == [] {
          asks := asks[1..];
          assert [] + Asc(rest) == Asc(rest);
        }
      }
      AscOk(asks);
      PendingEnd(whole, Buy, order.id, order.price, fills, left.qty, Asc(asks));
    }

    method MatchSell(order: Order) returns (left: Order, fills: seq<Fill>)
      requires Valid()
      modifies this`bids
      ensures Valid()
      ensures var m := Consume(Sell, order.id, order.price, order.qty, old(Desc(bids)));
        fills == m.fills && Desc(bids) == m.rest && left == order.(qty := m.left)
    {
      left, fills := order, [];
      ghost var whole := Consume(Sell, order.id, order.price, order.qty, Desc(bids));
      PendingStart(Sell, order.id, order.price, order.qty, Desc(bids));
      while left.qty > 0 && bids != [] && bids[|bids| - 1].price >= left.price
        invariant LadderOk(bids, Buy) && left == order.(qty := left.qty)
        invariant Pending(whole, Sell, order.id, order.price, fills, left.qty, Desc(bids))
        decreases |bids|, left.qty
      {
        var top := |bids| - 1;
        var best := bids[top];
        ghost var rest := bids[..top];
        var level;
        left, level, fills := FillFromLevel(left, best.price, best.orders, fills, Sell, Desc(rest), whole);
        bids := bids[top := best.(orders := level)];
        assert bids[..top] == rest && Desc(bids) == level + Desc(rest);
        if level == [] {
          bids := bids[..top];
          assert [] + Desc(rest) == Desc(rest);
        }
      }
      DescOk(bids);
      PendingEnd(whole, Sell, order.id, order.price, fills, left.qty, Desc(bids));
    }

    method AddOrder(order: Order) returns (fills: seq<Fill>)
      requires Valid()
      modifies this
      ensures Valid()
      ensures fills == MatchOf(old(View()), order).fills
      ensures View() == OrderBookSpec.AddOrder(old(View()), order)
    {
      var left;
      if order.side == Buy {
        left, fills := MatchBuy(order);
      } else {
        left, fills := MatchSell(order);
      }
      if left.qty > 0 {
        if left.side == Buy {
          bids := PushBack(bids, left);
        } else {
          asks := PushBack(asks, left);
        }
      }
    }
  }

  /** ladder[order.price].push_back(order): the level is created when the price is new. */
  method PushBack(levels: seq<Level>, o: Order) returns (levels': seq<Level>)
    requires LadderOk(levels, o.side) && o.qty > 0
    ensures LadderOk(levels', o.side)
    ensures Queue(levels', o.side) == Insert(Queue(levels, o.side), o)
  {
    var i := 0;
    while i < |levels| && levels[i].price < o.price
      invariant 0 <= i <= |levels|
      invariant forall j :: 0 <= j < i ==> levels[j].price < o.price
    {
      i := i + 1;
    }
    if i < |levels| && levels[i].price == o.price {
      PushOld(levels, i, o);
      levels' := levels[i := Level(o.price, levels[i].orders + [o])];
      assert LevelOk(levels'[i], o.side);
      SpliceLevel(levels, i, levels'[i]);
    } else {
      NewLadder(levels, i, o);
      PushNew(levels, i, o);
      levels' := levels[..i] + [Level(o.price, [o])] + levels[i..];
    }
  }

  lemma SpliceLevel(levels: seq<Level>, i: nat, l: Level)
    requires i < |levels|
    ensures levels[i := l] == levels[..i] + [l] + levels[i + 1..]
    ensures l == levels[i] ==> levels == levels[i := l]
  {
  }

  lemma PushOld(levels: seq<Level>, i: nat, o: Order)
    requires LadderOk(levels, o.side) && o.qty > 0 && i < |levels| && levels[i].price == o.price
    ensures Queue(levels[..i] + [Level(o.price, levels[i].orders + [o])] + levels[i + 1..], o.side)
            == Insert(Queue(levels, o.side), o)
  {
    RestInPlace(levels[..i], levels[i].orders, levels[i + 1..], o);
    assert levels == levels[..i] + [levels[i]] + levels[i + 1..];
  }

  lemma PushNew(levels: seq<Level>, i: nat, o: Order)
    requires LadderOk(levels, o.side) && i <= |levels|
    requires forall j :: 0 <= j < i ==> levels[j].price < o.price
    requires i < |levels| ==> levels[i].price > o.price
    ensures Queue(levels[..i] + [Level(o.price, [o])] + levels[i..], o.side) == Insert(Queue(levels, o.side), o)
  {
    RestInPlace(levels[..i], [], levels[i..], o);
    EmptyLevel(levels[..i], o.price, levels[i..], o.side);
    assert levels == levels[..i] + levels[i..];
    assert [] + [o] == [o];
  }

  lemma NewLadder(levels: seq<Level>, i: nat, o: Order)
    requires LadderOk(levels, o.side) && o.qty > 0 && i <= |levels|
    requires forall j :: 0 <= j < i ==> levels[j].price < o.price
    requires i < |levels| ==> levels[i].price > o.price
    ensures LadderOk(levels[..i] + [Level(o.price, [o])] + levels[i..], o.side)
  {
    var grown := levels[..i] + [Level(o.price, [o])] + levels[i..];
    assert forall j :: 0 <= j < |grown| && j != i ==> grown[j] == levels[if j < i then j else j - 1];
    assert LevelOk(grown[i], o.side);
  }

  lemma EmptyLevel(low: seq<Level>, p: int, high: seq<Level>, s: Side)
    ensures Queue(low + [Level(p, [])] + high, s) == Queue(low + high, s)
  {
    QueueAround(low, [Level(p, [])], high, s);
    SingleLevel(Level(p, []));
    AscSplit(low, high);
    DescSplit(low, high);
  }

  lemma BottomLevel(levels: seq<Level>)
    requires LadderOk(levels, Sell) && levels != []
    ensures var bottom, rest := levels[0], levels[1..];
      && LadderOk(rest, Sell) && Asc(levels) == bottom.orders + Asc(rest)
      && Asc(levels) != [] && Asc(levels)[0].price == bottom.price
      && (Asc(rest) != [] ==> Asc(rest)[0].price != bottom.price)
      && forall i :: 0 <= i < |bottom.orders| ==> bottom.orders[i].price == bottom.price
  {
    AscOk(levels);
    AscOk(levels[1..]);
  }

  /** The levels of a ladder are determined by its queue: same queue, same ladder. */
  lemma {:induction false} AscDetermines(a: seq<Level>, b: seq<Level>)
    requires LadderOk(a, Sell) && LadderOk(b, Sell) && Asc(a) == Asc(b)
    ensures a == b
    decreases |a|
  {
    if a != [] && b != [] {
      BottomLevel(a);
      BottomLevel(b);
      SameHead(a[0].orders, Asc(a[1..]), b[0].orders, Asc(b[1..]), a[0].price);
      AscDetermines(a[1..], b[1..]);
      assert a == [a[0]] + a[1..] && b == [b[0]] + b[1..];
    } else {
      AscOk(a);
      AscOk(b);
    }
  }

  lemma TopLevel(levels: seq<Level>)
    requires LadderOk(levels, Buy) && levels != []
    ensures var top, rest := levels[|levels| - 1], levels[..|levels| - 1];
      && LadderOk(rest, Buy) && Desc(levels) == top.orders + Desc(rest)
      && Desc(levels) != [] && Desc(levels)[0].price == top.price
      && (Desc(rest) != [] ==> Desc(rest)[0].price != top.price)
      && forall i :: 0 <= i < |top.orders| ==> top.orders[i].price == top.price
  {
    DescOk(levels);
    DescOk(levels[..|levels| - 1]);
  }

  lemma SameTop(a: seq<Level>, b: seq<Level>)
    requires LadderOk(a, Buy) && LadderOk(b, Buy) && Desc(a) == Desc(b) && a != [] && b != []
    ensures a[|a| - 1] == b[|b| - 1] && Desc(a[..|a| - 1]) == Desc(b[..|b| - 1])
    ensures LadderOk(a[..|a| - 1], Buy) && LadderOk(b[..|b| - 1], Buy)
  {
    TopLevel(a);
    TopLevel(b);
    SameHead(a[|a| - 1].orders, Desc(a[..|a| - 1]), b[|b| - 1].orders, Desc(b[..|b| - 1]), a[|a| - 1].price);
  }

  lemma {:induction false} DescDetermines(a: seq<Level>, b: seq<Level>)
    requires LadderOk(a, Buy) && LadderOk(b, Buy) && Desc(a) == Desc(b)
    ensures a == b
    decreases |a|
  {
    if a != [] && b != [] {
      SameTop(a, b);
      DescDetermines(a[..|a| - 1], b[..|b| - 1]);
      assert a == a[..|a| - 1] + [a[|a| - 1]] && b == b[..|b| - 1] + [b[|b| - 1]];
    } else {
      DescOk(a);
      DescOk(b);
    }
  }

  lemma SameHead(x: seq<Order>, x': seq<Order>, y: seq<Order>, y': seq<Order>, p: int)
    requires x + x' == y + y'
    requires forall i :: 0 <= i < |x| ==> x[i].price == p
    requires forall i :: 0 <= i < |y| ==> y[i].price == p
    requires x' != [] ==> x'[0].price != p
    requires y' != [] ==> y'[0].price != p
    ensures x == y && x' == y'
  {
    var q := x + x';
    assert forall i :: 0 <= i < |x| ==> q[i] == x[i];
    assert forall i :: 0 <= i < |y| ==> q[i] == y[i];
    assert |x| < |q| ==> q[|x|] == x'[0];
    assert |y| < |q| ==> q[|y|] == y'[0];
    assert q[..|x|] == x && q[|x|..] == x' && q[..|y|] == y && q[|y|..] == y';
  }
}
