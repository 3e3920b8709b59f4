/** The order book as it is stored, and its matching loop, proved to do what the greedy walk says. */
module OrderBooks {
  import opened Orders
  import opened Matching
  import opened MatchingLaws
  import opened PriceQueues
  import opened BookSides
  import opened LevelWalk
  import opened BookRuns

  /** Where an indexed order rests: its side and its level; the list element is the order's own id. */
  datatype OrderRef = OrderRef(isBuy: bool, price: Decimal)

  /** The id index and the resting orders are in bijection. */
  ghost predicate Indexed(orders: map<Id, OrderRef>, b: Book) {
    && (forall o :: o in b.bids ==> o.id in orders && orders[o.id] == OrderRef(true, o.price))
    && (forall o :: o in b.asks ==> o.id in orders && orders[o.id] == OrderRef(false, o.price))
    && (forall id :: id in orders ==> HasId(b.bids, id) || HasId(b.asks, id))
  }

  /** An indexed order rests on the side and at the level its entry names, and nowhere else. */
  lemma CancelOneSide(orders: map<Id, OrderRef>, b: Book, id: Id)
    requires Indexed(orders, b) && id in orders && id != NONE
    ensures var ref := orders[id]; var side := if ref.isBuy then b.bids else b.asks;
            && (exists o :: o in side && o.price == ref.price)
            && (forall o :: o in side && o.id == id ==> o.price == ref.price)
            && Cancel(b, id) == if ref.isBuy then b.(bids := Without(b.bids, id)) else b.(asks := Without(b.asks, id))
  {
    if orders[id].isBuy {
      WithoutAbsent(b.asks, id);
    } else {
      WithoutAbsent(b.bids, id);
    }
  }

  lemma CancelIndexed(orders: map<Id, OrderRef>, b: Book, id: Id)
    requires Indexed(orders, b) && id != NONE
    ensures Indexed(orders - {id}, Cancel(b, id))
  {
    WithoutMembers(b.bids, id);
    WithoutMembers(b.asks, id);
    var b' := Cancel(b, id);
    forall i | i in orders && i != id ensures HasId(b'.bids, i) || HasId(b'.asks, i) {
      var o :| (o in b.bids || o in b.asks) && o.id == i;
      assert o in b'.bids || o in b'.asks;
    }
  }

  lemma CancelAbsent(orders: map<Id, OrderRef>, b: Book, id: Id)
    requires Indexed(orders, b) && id !in orders
    ensures Cancel(b, id) == b
  {
    WithoutAbsent(b.bids, id);
    WithoutAbsent(b.asks, id);
  }

  lemma RestIndexed(orders: map<Id, OrderRef>, b: Book, o: Order)
    requires Indexed(orders, b) && Rest(b, o) != b
    ensures Indexed(orders[o.id := OrderRef(o.side.Buy?, o.price)], Rest(b, o))
  {
    InsertMembers(true, b.bids, o);
    InsertMembers(false, b.asks, o);
    var b' := Rest(b, o);
    assert o in b'.bids || o in b'.asks;
    forall i | i in orders ensures HasId(b'.bids, i) || HasId(b'.asks, i) {
      var x :| (x in b.bids || x in b.asks) && x.id == i;
      assert x in b'.bids || x in b'.asks;
    }
  }

  function WithSide(b: Book, isBuy: bool, s: seq<Order>): Book {
    if isBuy then b.(bids := s) else b.(asks := s)
  }

  /** Filling an order in place disturbs neither the shape of the book nor the index. */
  lemma FillKeepsShape(b: Book, isBuy: bool, k: nat, m: Order)
    requires Shaped(b) && k < |SideOf(b, isBuy)|
    requires var o := SideOf(b, isBuy)[k]; m == o.(filled := m.filled)
    ensures Shaped(WithSide(b, isBuy, SideOf(b, isBuy)[k := m]))
  {
    UpdateMembers(SideOf(b, isBuy), k, m);
  }

  lemma FillKeepsIndex(orders: map<Id, OrderRef>, b: Book, isBuy: bool, k: nat, m: Order)
    requires Indexed(orders, b) && k < |SideOf(b, isBuy)|
    requires var o := SideOf(b, isBuy)[k]; m == o.(filled := m.filled)
    ensures Indexed(orders, WithSide(b, isBuy, SideOf(b, isBuy)[k := m]))
  {
    UpdateMembers(SideOf(b, isBuy), k, m);
    var b' := WithSide(b, isBuy, SideOf(b, isBuy)[k := m]);
    forall id | id in orders ensures HasId(b'.bids, id) || HasId(b'.asks, id) {
      var o :| (o in b.bids || o in b.asks) && o.id == id;
      assert m in SideOf(b', isBuy);
    }
  }

  lemma CancelAt(b: Book, isBuy: bool, k: nat)
    requires Shaped(b) && k < |SideOf(b, isBuy)|
    ensures var s := SideOf(b, isBuy); Cancel(b, s[k].id) == WithSide(b, isBuy, s[..k] + s[k + 1..])
  {
    var s := SideOf(b, isBuy);
    assert s[k] in s;
    WithoutAt(s, k);
    WithoutAbsent(SideOf(b, !isBuy), s[k].id);
  }

  /** After a trade a filled order is dropped and any other stays: every order left still wants to trade. */
  lemma AfterTake(orders: map<Id, OrderRef>, b: Book, isBuy: bool, done: seq<Order>, todo: seq<Order>, m: Order)
    requires WellFormed(b) && Indexed(orders, b) && todo != [] && SideOf(b, isBuy) == done + todo
    requires m == todo[0].(filled := m.filled)
    ensures DistinctIds(done + todo)
    ensures var b' := WithSide(b, isBuy, SideOf(b, isBuy)[|done| := m]);
            && m.id in orders && orders[m.id] == OrderRef(isBuy, m.price)
            && if m.Remaining() > 0.0
               then b' == WithSide(b, isBuy, done + [m] + todo[1..]) && Live(b'.bids) && Live(b'.asks)
               else Cancel(b', m.id) == WithSide(b, isBuy, done + todo[1..])
                    && Live(Cancel(b', m.id).bids) && Live(Cancel(b', m.id).asks)
  {
    var s, k := done + todo, |done|;
    AtSeam(done, todo, m);
    assert s[k] in s;
    if m.Remaining() > 0.0 {
      UpdateMembers(s, k, m);
    } else {
      FillKeepsShape(b, isBuy, k, m);
      CancelAt(WithSide(b, isBuy, s[k := m]), isBuy, k);
      assert s[k := m][..k] == s[..k] && s[k := m][k + 1..] == s[k + 1..];
    }
  }

  /** Removing an order by its id closes the gap it leaves in its queue. */
  lemma QueueAfterTake(s: seq<Order>, p: Decimal, place: nat, k: nat, m: Order)
    requires DistinctIds(s) && k < |s| && place < |AtPrice(s, p)| && AtPrice(s, p)[place] == s[k] && m.id == s[k].id
    ensures var queue := AtPrice(s, p);
            && |Without(queue[place := m], m.id)| == |queue| - 1
            && Without(queue[place := m], m.id)[place..] == queue[place..][1..]
            && queue[place := m][place + 1..] == queue[place..][1..]
  {
    var queue := AtPrice(s, p);
    AtPriceKeepsIds(s, p);
    var queue' := queue[place := m];
    WithoutAt(queue', place);
    assert queue'[..place] == queue[..place] && queue'[place + 1..] == queue[place + 1..];
    PastPlace(queue, place, m);
  }

  lemma NoneNotIndexed(orders: map<Id, OrderRef>, b: Book)
    requires Shaped(b) && Indexed(orders, b)
    ensures NONE !in orders
  {
  }

  lemma CancelKeepsLive(b: Book, id: Id)
    ensures Live(b.bids) && Live(b.asks) ==> Live(Cancel(b, id).bids) && Live(Cancel(b, id).asks)
  {
    CancelMembers(b, id);
  }

  /** The index decides whether an order is new. */
  lemma RestOnlyNew(orders: map<Id, OrderRef>, b: Book, o: Order)
    requires Indexed(orders, b)
    ensures o.id in orders <==> HasId(b.bids, o.id) || HasId(b.asks, o.id)
    ensures o.id !in orders && o.id != NONE && !o.kind.Market? && o.Remaining() > 0.0 && !o.side.UnknownSide? ==>
              Rest(b, o) != b
  {
    InsertMembers(true, b.bids, o);
    InsertMembers(false, b.asks, o);
  }

  /** Dropping the order under the cursor. */
  lemma AfterDrop(orders: map<Id, OrderRef>, b: Book, isBuy: bool, done: seq<Order>, todo: seq<Order>)
    requires Shaped(b) && Indexed(orders, b) && todo != [] && SideOf(b, isBuy) == done + todo
    ensures var m := todo[0];
            && DistinctIds(done + todo) && m.id in orders && orders[m.id] == OrderRef(isBuy, m.price)
            && Cancel(b, m.id) == WithSide(b, isBuy, done + todo[1..])
  {
    AtSeam(done, todo, todo[0]);
    assert todo[0] in done + todo;
    CancelAt(b, isBuy, |done|);
  }

  /** Draw down the wanted quantity by what a queue offers, until it is covered. */
  method DrainQueue(t: Order, queue: seq<Order>, wanted: Decimal) returns (remaining: Decimal)
    requires forall m :: m in queue ==> Crosses(t, m.price)
    ensures remaining > 0.0 ==> remaining == wanted - Available(t, queue)
    ensures remaining <= 0.0 ==> wanted <= Available(t, queue)
  {
    remaining := wanted;
    var i := 0;
    assert queue[..0] == [];
    AvailableNonNegative(t, queue);
    while i < |queue| && remaining > 0.0
      invariant i <= |queue|
      invariant i == 0 || remaining > 0.0 ==> remaining == wanted - Available(t, queue[..i])
      invariant remaining <= 0.0 ==> wanted <= Available(t, queue)
    {
      var maker := queue[i];
      AvailableStep(t, queue, i);
      PrefixOffersLess(t, queue, i + 1);
      i := i + 1;
      if SelfTrade(t, maker) {
        continue;
      }
      if maker.Remaining() <= 0.0 {
        continue;
      }
      remaining := remaining - maker.Remaining();
    }
    assert queue[..|queue|] == queue;
  }

  lemma PrefixOffersLess(t: Order, s: seq<Order>, i: nat)
    requires i <= |s|
    ensures Available(t, s[..i]) <= Available(t, s)
  {
    assert s == s[..i] + s[i..];
    AvailableConcat(t, s[..i], s[i..]);
    AvailableNonNegative(t, s[i..]);
  }

  /** Does a queue hold live orders of the taker's, and live orders of anybody else's? */
  method Owners(t: Order, queue: seq<Order>) returns (hasSelf: bool, hasOther: bool)
    ensures hasOther <==> exists m :: m in queue && m.Remaining() > 0.0 && !SelfTrade(t, m)
    ensures !hasOther ==> (hasSelf <==> exists m :: m in queue && m.Remaining() > 0.0 && SelfTrade(t, m))
  {
    hasSelf, hasOther := false, false;
    for i := 0 to |queue|
      invariant !hasOther && forall m :: m in queue[..i] && m.Remaining() > 0.0 ==> SelfTrade(t, m)
      invariant hasSelf <==> exists m :: m in queue[..i] && m.Remaining() > 0.0 && SelfTrade(t, m)
    {
      var maker := queue[i];
      assert queue[..i + 1] == queue[..i] + [maker];
      if maker.Remaining() <= 0.0 {
        continue;
      }
      if SelfTrade(t, maker) {
        hasSelf := true;
        continue;
      }
      hasOther := true;
      return;
    }
    assert queue[..|queue|] == queue;
  }

  class OrderBook {
    const buys: BookSide
    const sells: BookSide
    var orders: map<Id, OrderRef>

    ghost function View(): Book
      reads buys, sells
    {
      Book(buys.flat, sells.flat)
    }

    /** The four views agree: levels, heaps, queues and the id index describe one book. */
    ghost predicate Consistent()
      reads this, buys, sells
    {
      && buys != sells && buys.isBuy && !sells.isBuy && buys.Valid() && sells.Valid()
      && Shaped(View()) && Indexed(orders, View())
    }

    ghost predicate Valid()
      reads this, buys, sells
    {
      Consistent() && WellFormed(View())
    }

    function Side(isBuy: bool): BookSide { if isBuy then buys else sells }

    constructor ()
      ensures Valid() && View() == EMPTY && fresh(buys) && fresh(sells)
    {
      buys := new BookSide(true);
      sells := new BookSide(false);
      orders := map[];
    }

    method AddOrder(o: Order) returns (error: Option<string>)
      requires Valid()
      modifies this, buys, sells
      ensures Valid() && View() == Rest(old(View()), o)
      ensures error.Some? ==> View() == old(View())
      ensures error ==
              if o.id == NONE then Some("order id required")
              else if o.id in old(orders) || o.kind.Market? || o.Remaining() <= 0.0 then None
              else if o.side.UnknownSide? then Some("invalid side")
              else None
    {
      hide BookSide.Valid, Shaped, Indexed, Live, HasId, Insert;
      RestOnlyNew(orders, View(), o);
      if o.id == NONE {
        return Some("order id required");
      }
      if o.id in orders || o.kind.Market? || o.Remaining() <= 0.0 {
        return None;
      }
      if o.side.UnknownSide? {
        return Some("invalid side");
      }
      RestKeepsWellFormed(View(), o);
      RestIndexed(orders, View(), o);
      Side(o.side.Buy?).Add(o);
      orders := orders[o.id := OrderRef(o.side.Buy?, o.price)];
      return None;
    }

    method RemoveOrder(id: Id) returns (removed: bool)
      requires Consistent()
      modifies this, buys, sells
      ensures Consistent() && View() == Cancel(old(View()), id)
      ensures old(Valid()) ==> Valid()
      ensures removed <==> id in old(orders)
      ensures removed ==>
                var ref := old(orders[id]);
                Side(ref.isBuy).Queue(ref.price) == Without(old(Side(ref.isBuy).Queue(ref.price)), id)
    {
      hide Linked, IsHeap, Shaped, Indexed, Live, InPriority, AtPrice, Without;
      NoneNotIndexed(orders, View());
      if id == NONE {
        return false;
      }
      if id !in orders {
        CancelAbsent(orders, View(), id);
        return false;
      }
      CancelOneSide(orders, View(), id);
      CancelIndexed(orders, View(), id);
      CancelKeepsShape(View(), id);
      CancelKeepsLive(View(), id);
      var ref := orders[id];
      Side(ref.isBuy).Remove(ref.price, id);
      orders := orders - {id};
      return true;
    }

    /** Add to the filled quantity of a resting order. */
    method FillMaker(isBuy: bool, p: Decimal, place: nat, q: Decimal, ghost k: nat) returns (maker: Order)
      requires Consistent() && k < |Side(isBuy).flat| && Side(isBuy).flat[k].price == p
      requires place < |Side(isBuy).Queue(p)| && Side(isBuy).Queue(p)[place] == Side(isBuy).flat[k]
      modifies this, buys, sells
      ensures Consistent() && orders == old(orders)
      ensures var s := old(Side(isBuy).flat);
              maker == s[k].(filled := s[k].filled + q) && View() == WithSide(old(View()), isBuy, s[k := maker])
      ensures Side(isBuy).Queue(p) == old(Side(isBuy).Queue(p))[place := maker]
    {
      hide BookSide.Valid, Indexed, InPriority, OnSide, DistinctIds;
      ghost var b, s := View(), Side(isBuy).flat;
      maker := Side(isBuy).AddFill(p, place, q, k);
      assert View() == WithSide(b, isBuy, s[k := maker]);
      FillKeepsShape(b, isBuy, k, maker);
      FillKeepsIndex(orders, b, isBuy, k, maker);
    }

    /** Trade q with the order under the cursor: it is dropped when nothing of it remains, and the cursor moves on. */
    method Take(isBuy: bool, p: Decimal, place: nat, q: Decimal, ghost done: seq<Order>, ghost todo: seq<Order>)
      returns (place': nat, ghost done': seq<Order>)
      requires Valid() && todo != [] && todo[0].price == p && Side(isBuy).flat == done + todo
      requires place < |Side(isBuy).Queue(p)| && Side(isBuy).Queue(p)[place] == todo[0]
      modifies this, buys, sells
      ensures Valid() && Side(!isBuy).flat == old(Side(!isBuy).flat)
      ensures Side(isBuy).flat == done' + todo[1..]
      ensures var m := todo[0]; done' == if m.Remaining() <= q then done else done + [m.(filled := m.filled + q)]
      ensures place' <= |Side(isBuy).Queue(p)|
      ensures Side(isBuy).Queue(p)[place'..] == old(Side(isBuy).Queue(p))[place..][1..]
    {
      hide BookSide.Valid, Shaped, Indexed, Live, DistinctIds, AtPrice, Without;
      ghost var b, queue := View(), Side(isBuy).Queue(p);
      assert (done + todo)[|done|] == todo[0];
      assert queue == AtPrice(done + todo, p) by { Side(isBuy).QueueIsAtPrice(p); }
      var maker := FillMaker(isBuy, p, place, q, |done|);
      AfterTake(orders, b, isBuy, done, todo, maker);
      QueueAfterTake(done + todo, p, place, |done|, maker);
      place', done' := place + 1, done + [maker];
      if maker.Remaining() <= 0.0 {
        var _ := RemoveOrder(maker.id);
        place', done' := place, done;
      }
    }

    /** Visit one level, filling every order on it that is not the taker's own until the taker is satisfied. */
    method MatchLevel(t: Order, isBuy: bool, p: Decimal, taker0: Order, trades0: seq<Trade>,
                      ghost s: seq<Order>, ghost total: Fill, ghost done0: seq<Order>, ghost j: nat, ghost e: nat)
      returns (taker: Order, trades: seq<Trade>, ghost done: seq<Order>, ghost i: nat)
      requires Valid() && j <= e <= |s| && Side(isBuy).flat == done0 + s[j..]
      requires Side(isBuy).Queue(p) == s[j..e] && forall x :: j <= x < e ==> s[x].price == p
      requires Crosses(t, p) && !SelfOnly(t, s, p)
      requires taker0 == t.(filled := taker0.filled) && Progress(t, s, total, done0, j, trades0, taker0.Remaining())
      modifies this, buys, sells
      ensures Valid() && j <= i <= e && Side(isBuy).flat == done + s[i..] && Side(!isBuy).flat == old(Side(!isBuy).flat)
      ensures taker == t.(filled := taker.filled) && Progress(t, s, total, done, i, trades, taker.Remaining())
      ensures forall o :: o in done ==> o in done0 || o.price == p
      ensures i == e || taker.Remaining() <= 0.0
    {
      hide Consistent, Valid, BookSide.Queue, SelfOnly, SelfTrade, Crosses, TradeOf, Progress;
      taker, trades, done, i := taker0, trades0, done0, j;
      var place: nat := 0;
      while place < |Side(isBuy).Queue(p)| && taker.Remaining() > 0.0
        invariant Valid() && j <= i <= e
        invariant Side(isBuy).flat == done + s[i..] && Side(!isBuy).flat == old(Side(!isBuy).flat)
        invariant place <= |Side(isBuy).Queue(p)| && Side(isBuy).Queue(p)[place..] == s[i..e]
        invariant taker == t.(filled := taker.filled) && Progress(t, s, total, done, i, trades, taker.Remaining())
        invariant forall o :: o in done ==> o in done0 || o.price == p
        decreases e - i
      {
        var maker := Side(isBuy).Queue(p)[place];
        assert maker == Side(isBuy).Queue(p)[place..][0] == s[i] == s[i..][0];
        assert s[i..e][1..] == s[i + 1..e] && s[i..][1..] == s[i + 1..];
        if SelfTrade(t, maker) {
          ProgressOwn(t, s, total, done, i, trades, taker.Remaining());
          AtSeam(done, s[i..], maker);
          done := done + [maker];
          place := place + 1;
        } else {
          ProgressFill(t, s, total, done, i, trades, taker.Remaining());
          var q := Min(taker.Remaining(), maker.Remaining());
          place, done := Take(isBuy, p, place, q, done, s[i..]);
          taker := taker.(filled := taker.filled + q);
          trades := trades + [TradeOf(t, maker, q)];
        }
        i := i + 1;
      }
    }

    /** Remove the order under the cursor. */
    method Drop(isBuy: bool, p: Decimal, ghost done: seq<Order>, ghost todo: seq<Order>)
      requires Valid() && todo != [] && todo[0].price == p && Side(isBuy).flat == done + todo
      requires Side(isBuy).Queue(p) != [] && Side(isBuy).Queue(p)[0] == todo[0]
      modifies this, buys, sells
      ensures Valid() && Side(!isBuy).flat == old(Side(!isBuy).flat)
      ensures Side(isBuy).flat == done + todo[1..] && Side(isBuy).Queue(p) == old(Side(isBuy).Queue(p))[1..]
    {
      hide BookSide.Valid, Shaped, Indexed, Live, DistinctIds, AtPrice, Without;
      ghost var queue := Side(isBuy).Queue(p);
      assert queue == AtPrice(done + todo, p) by { Side(isBuy).QueueIsAtPrice(p); }
      AfterDrop(orders, View(), isBuy, done, todo);
      assert Without(queue, queue[0].id) == queue[1..] by {
        AtPriceKeepsIds(done + todo, p);
        WithoutAt(queue, 0);
      }
      var maker := Side(isBuy).Queue(p)[0];
      var _ := RemoveOrder(maker.id);
    }

    /** A level holding nothing but the taker's own orders is cancelled. */
    method ClearOwnLevel(t: Order, isBuy: bool, p: Decimal, ghost r: Decimal, ghost trades: seq<Trade>,
                         ghost s: seq<Order>, ghost total: Fill, ghost done: seq<Order>, ghost j: nat, ghost e: nat)
      requires Valid() && j <= e <= |s| && Side(isBuy).flat == done + s[j..]
      requires Side(isBuy).Queue(p) == s[j..e] && forall x :: j <= x < e ==> s[x].price == p && SelfTrade(t, s[x])
      requires r > 0.0 && Crosses(t, p) && SelfOnly(t, s, p) && Progress(t, s, total, done, j, trades, r)
      modifies this, buys, sells
      ensures Valid() && Side(isBuy).flat == done + s[e..] && Side(!isBuy).flat == old(Side(!isBuy).flat)
      ensures Progress(t, s, total, done, e, trades, r)
    {
      hide Consistent, WellFormed, SelfOnly, Progress;
      ghost var i := j;
      while |Side(isBuy).Queue(p)| > 0
        invariant Valid() && j <= i <= e
        invariant Side(isBuy).flat == done + s[i..] && Side(!isBuy).flat == old(Side(!isBuy).flat)
        invariant Side(isBuy).Queue(p) == s[i..e] && Progress(t, s, total, done, i, trades, r)
        decreases e - i
      {
        assert s[i..e][0] == s[i] == s[i..][0];
        assert s[i..e][1..] == s[i + 1..e] && s[i..][1..] == s[i + 1..];
        ProgressOwn(t, s, total, done, i, trades, r);
        Drop(isBuy, p, done, s[i..]);
        i := i + 1;
      }
    }

    lemma SideInPriority(isBuy: bool)
      requires Valid()
      ensures InPriority(isBuy, Side(isBuy).flat) && Side(isBuy).isBuy == isBuy
    {
    }

    lemma SidesValid()
      requires Valid()
      ensures buys.Valid() && sells.Valid() && buys != sells
    {
    }

    /** Visit one level, whichever way it is owned. */
    method VisitLevel(t: Order, isBuy: bool, p: Decimal, taker0: Order, trades0: seq<Trade>,
                      ghost s: seq<Order>, ghost total: Fill, ghost done0: seq<Order>, ghost j: nat, ghost e: nat)
      returns (taker: Order, trades: seq<Trade>, ghost done: seq<Order>, ghost i: nat)
      requires Valid() && j < e <= |s| && Side(isBuy).flat == done0 + s[j..] && s[j..e] == AtPrice(s, p)
      requires Side(isBuy).Queue(p) == s[j..e] && forall x :: j <= x < e ==> s[x].price == p
      requires Crosses(t, p) && taker0.Remaining() > 0.0
      requires taker0 == t.(filled := taker0.filled) && Progress(t, s, total, done0, j, trades0, taker0.Remaining())
      modifies this, buys, sells
      ensures Valid() && j <= i <= e && Side(isBuy).flat == done + s[i..] && Side(!isBuy).flat == old(Side(!isBuy).flat)
      ensures taker == t.(filled := taker.filled) && Progress(t, s, total, done, i, trades, taker.Remaining())
      ensures forall o :: o in done ==> o in done0 || o.price == p
      ensures i == e || taker.Remaining() <= 0.0
    {
      hide Consistent, Shaped, SelfOnly, Progress, AtPrice;
      SelfOnlyByQueue(t, s, j, e, p);
      assert forall m :: m in s[j..e] ==> m in Side(isBuy).flat && m.Remaining() > 0.0;
      assert s[j..e][0] in s[j..e];
      var hasSelf, hasOther := Owners(t, Side(isBuy).Queue(p));
      if hasSelf && !hasOther {
        ClearOwnLevel(t, isBuy, p, taker0.Remaining(), trades0, s, total, done0, j, e);
        taker, trades, done, i := taker0, trades0, done0, e;
      } else {
        taker, trades, done, i := MatchLevel(t, isBuy, p, taker0, trades0, s, total, done0, j, e);
      }
    }

    /** Visit the levels of the opposite side, best first, while the taker wants more and the price crosses. */
    method MatchSide(t: Order, isBuy: bool) returns (taker: Order, trades: seq<Trade>)
      requires Valid() && isBuy == t.side.Sell?
      modifies this, buys, sells
      ensures Valid() && Side(!isBuy).flat == old(Side(!isBuy).flat)
      ensures var s := old(Side(isBuy).flat); var w := Walk(t, s, s, t.Remaining());
              Side(isBuy).flat == w.rest && trades == w.trades && taker == t.(filled := t.quantity - w.remaining)
    {
      hide BookSide.Valid, Shaped, Indexed, WellFormed, InPriority, SelfOnly, Progress, CutAt, Apart, Covers, Ranked;
      hide AtPrice, Walk, Crosses, Consistent, Valid;
      SideInPriority(isBuy);
      SidesValid();
      ghost var s := Side(isBuy).flat;
      ghost var total := Walk(t, s, s, t.Remaining());
      ghost var done, j := [], 0;
      var ps := Side(isBuy).SortedPrices();
      taker, trades := t, [];
      ProgressStarts(t, s, t.Remaining());
      CutStarts(s, ps);
      var k := 0;
      while k < |ps| && taker.Remaining() > 0.0 && Crosses(t, ps[k])
        invariant Valid() && Side(!isBuy).flat == old(Side(!isBuy).flat) && k <= |ps| && j <= |s|
        invariant Side(isBuy).flat == done + s[j..]
        invariant taker == t.(filled := taker.filled) && Progress(t, s, total, done, j, trades, taker.Remaining())
        invariant taker.Remaining() > 0.0 ==> CutAt(s, j, ps, k) && Apart(done, ps, k)
      {
        ghost var e := LevelSlice(isBuy, s, j, ps, k);
        FreshLevel(done, s, j, e, ps, k);
        SidesValid();
        Side(isBuy).QueueIsAtPrice(ps[k]);
        ghost var before := done;
        taker, trades, done, j := VisitLevel(t, isBuy, ps[k], taker, trades, s, total, done, j, e);
        StaysApart(isBuy, before, done, ps, k);
        k := k + 1;
      }
      if taker.Remaining() > 0.0 {
        if k < |ps| {
          FirstOfLevel(isBuy, s, j, ps, k);
        } else {
          UnvisitedHasLevel(s, j, ps, k);
        }
      }
      ProgressEnds(t, s, total, done, j, trades, taker.Remaining());
    }

    /** The dry run of a fill-or-kill order. */
    method CanFillOrder(t: Order) returns (can: bool)
      requires Valid() && !t.side.UnknownSide?
      ensures can == CanFill(View(), t)
    {
      hide BookSide.Valid, Shaped, Indexed, InPriority, CutAt, Apart, Covers, Ranked, AtPrice, Available;
      AvailableNonNegative(t, []);
      var isBuy := t.side.Sell?;
      SideInPriority(isBuy);
      ghost var s, j := Side(isBuy).flat, 0;
      var ps := Side(isBuy).SortedPrices();
      CutStarts(s, ps);
      var remaining := t.Remaining();
      var k := 0;
      while k < |ps| && Crosses(t, ps[k])
        invariant k <= |ps| && j <= |s| && CutAt(s, j, ps, k)
        invariant remaining > 0.0 || k == 0
        invariant remaining == t.Remaining() - Available(t, s[..j])
      {
        ghost var e := LevelSlice(isBuy, s, j, ps, k);
        Side(isBuy).QueueIsAtPrice(ps[k]);
        assert s[..e] == s[..j] + s[j..e];
        AvailableConcat(t, s[..j], s[j..e]);
        PrefixOffersLess(t, s, e);
        remaining := DrainQueue(t, Side(isBuy).Queue(ps[k]), remaining);
        if remaining <= 0.0 {
          return true;
        }
        j := e;
        k := k + 1;
      }
      if k < |ps| {
        FirstOfLevel(isBuy, s, j, ps, k);
      } else {
        UnvisitedHasLevel(s, j, ps, k);
      }
      NothingBehind(t, s, j);
      AvailableNonNegative(t, s);
      return remaining <= 0.0;
    }

    /** Match an incoming order against the opposite side and rest what remains of it. */
    method MatchOrder(t: Order) returns (taker: Order, trades: seq<Trade>, error: Option<string>)
      requires Valid()
      modifies this, buys, sells
      ensures Valid()
      ensures var r := Match(old(View()), t);
              View() == r.book && taker == r.taker && trades == r.trades && error == r.error
    {
      hide BookSide.Valid, Shaped, Indexed, Live, Walk, CanFill, Rest;
      taker, trades, error := t, [], Refusal(t);
      if error.Some? {
        return;
      }
      if t.tif.FOK? {
        var can := CanFillOrder(t);
        if !can {
          return;
        }
      }
      taker, trades := MatchSide(t, t.side.Sell?);
      if taker.Remaining() > 0.0 && !taker.tif.IOC? && !taker.tif.FOK? && taker.kind.Limit? {
        error := AddOrder(taker);
      }
    }
  }
}
