/** A failed publish and what follows from it: the order is matched again when it is redelivered, and ends up trading
    more than its quantity. */
module PublishExamples {
  import opened Orders
  import opened Matching
  import opened BookRuns
  import opened Tally
  import opened Dedupers
  import opened Consumers
  import Engine = EngineRuns

  const COIN := Name(1)
  const BUYER := Name(2)
  const SELLER := Name(3)

  const FIRST_ASK := Order(Name(10), SELLER, COIN, Sell, Limit, 10.0, 1.0, 0.0, GTC)
  const SECOND_ASK := Order(Name(11), SELLER, COIN, Sell, Limit, 10.0, 1.0, 0.0, GTC)
  const BID := Order(Name(12), BUYER, COIN, Buy, Limit, 10.0, 2.0, 0.0, GTC)
  const LAST_ASK := Order(Name(13), SELLER, COIN, Sell, Limit, 10.0, 2.0, 0.0, GTC)

  function Delivery(event: nat, o: Order, publishes: nat): Message { Accepted(Name(event), o, true, true, publishes) }

  /** Two asks of one, a bid of two whose second trade cannot be published, its redelivery, and an ask of two. */
  const MESSAGES := [Delivery(20, FIRST_ASK, 0), Delivery(21, SECOND_ASK, 0), Delivery(22, BID, 1),
                     Delivery(22, BID, 0), Delivery(23, LAST_ASK, 1)]

  // ---------- the engine ----------

  /** The engine with one book. */
  function At(book: Book, placed: map<Id, Order>, log: seq<TradeEvent>): Engine.Engine {
    Engine.Engine(map[COIN := book], placed, log)
  }

  ghost predicate Plain(o: Order) {
    Engine.Acceptable(o) && o.filled == 0.0 && o.symbol == COIN && o.kind.Limit? && o.tif.GTC?
  }

  lemma RestsAlone(e: Engine.Engine, o: Order, k: nat)
    requires Plain(o) && e.books.Keys <= {COIN} && Opposite(Engine.BookOf(e, COIN), o) == []
    ensures Engine.Attempt(e, o, k) == (At(Rest(Engine.BookOf(e, COIN), o), e.placed[o.id := o], e.log), true)
  {
    hide Rest;
    var b := Engine.BookOf(e, COIN);
    assert o.(filled := o.quantity - o.Remaining()) == o;
    assert Match(b, o) == Outcome(Rest(b, o), o, [], None);
    assert e.books[COIN := Rest(b, o)] == map[COIN := Rest(b, o)];
    assert e.log + [] == e.log;
  }

  /** A taker that uses up the first order of a side and wants more. */
  lemma WalkPast(t: Order, side: seq<Order>, m: Order, s: seq<Order>, r: Decimal)
    requires Crosses(t, m.price) && !SelfTrade(t, m) && 0.0 < m.Remaining() <= r
    ensures var w := Walk(t, side, s, r - m.Remaining());
            Walk(t, side, [m] + s, r) == Fill([TradeOf(t, m, m.Remaining())] + w.trades, w.rest, w.remaining)
  {
    assert ([m] + s)[1..] == s;
  }

  lemma WalkDone(t: Order, side: seq<Order>, r: Decimal)
    ensures Walk(t, side, [], r) == Fill([], [], r)
  {
  }

  /** A plain order that the other side fills completely, and empties doing so. */
  lemma MatchClears(b: Book, t: Order, trades: seq<Trade>)
    requires Plain(t) && Walk(t, Opposite(b, t), Opposite(b, t), t.quantity) == Fill(trades, [], 0.0)
    ensures Match(b, t) == Outcome(WithOpposite(b, t, []), t.(filled := t.quantity), trades, None)
  {
    hide Walk;
    assert t.Remaining() == t.quantity;
  }

  lemma BidTakesBoth()
    ensures Match(Book([], [FIRST_ASK, SECOND_ASK]), BID) ==
            Outcome(EMPTY, BID.(filled := 2.0), [TradeOf(BID, FIRST_ASK, 1.0), TradeOf(BID, SECOND_ASK, 1.0)], None)
  {
    hide Walk, Match, SelfOnly;
    var side := [FIRST_ASK, SECOND_ASK];
    assert side == [FIRST_ASK] + [SECOND_ASK] && [SECOND_ASK] == [SECOND_ASK] + [];
    WalkPast(BID, side, FIRST_ASK, [SECOND_ASK], 2.0);
    WalkPast(BID, side, SECOND_ASK, [], 1.0);
    WalkDone(BID, side, 0.0);
    MatchClears(Book([], side), BID, [TradeOf(BID, FIRST_ASK, 1.0), TradeOf(BID, SECOND_ASK, 1.0)]);
  }

  lemma AskTakesBid()
    ensures Match(Book([BID], []), LAST_ASK) ==
            Outcome(EMPTY, LAST_ASK.(filled := 2.0), [TradeOf(LAST_ASK, BID, 2.0)], None)
  {
    hide Walk, Match, SelfOnly;
    assert [BID] == [BID] + [];
    WalkPast(LAST_ASK, [BID], BID, [], 2.0);
    WalkDone(LAST_ASK, [BID], 0.0);
    MatchClears(Book([BID], []), LAST_ASK, [TradeOf(LAST_ASK, BID, 2.0)]);
  }

  lemma NumberedOne(x: Trade)
    ensures Numbered([x], 0) == [TradeEvent(0, x)]
  {
    assert [x][1..] == [];
  }

  // ---------- the consumer ----------

  /** A message neither deduper remembers goes to the engine. */
  lemma HandleFresh(c: Consumer, m: Message)
    requires m.Accepted? && m.valid && m.parses && m.event != NONE && Plain(m.order)
    requires m.event !in c.events && m.order.id !in c.orders
    ensures var (engine, ok) := Engine.Attempt(c.engine, m.order, m.publishes);
            Handle(c, m) ==
            if ok then
              (Consumer(c.events + [m.event], c.orders + [m.order.id], c.processed + [m.order.id], engine), Handled)
            else (c.(engine := engine), EngineFailed)
  {
    hide Engine.Attempt;
    assert Engine.Unfilled(m.order) == m.order;
    assert forall x :: x in Window(c.events, EVENT_WINDOW) ==> x in c.events;
    assert forall x :: x in Window(c.orders, ORDER_WINDOW) ==> x in c.orders;
  }

  lemma AsksRest()
    ensures var c := Handle(Handle(IDLE, MESSAGES[0]).0, MESSAGES[1]).0;
            && c.events == [Name(20), Name(21)] && c.orders == [Name(10), Name(11)]
            && c.engine.books == map[COIN := Book([], [FIRST_ASK, SECOND_ASK])] && c.engine.log == []
            && Name(12) !in c.engine.placed
  {
    hide Engine.Attempt, Handle, Insert;
    HandleFresh(IDLE, MESSAGES[0]);
    RestsAlone(Engine.START, FIRST_ASK, 0);
    InsertBehind(FIRST_ASK, SECOND_ASK);
    var c1 := Handle(IDLE, MESSAGES[0]).0;
    assert c1.engine == At(Book([], [FIRST_ASK]), map[Name(10) := FIRST_ASK], []);
    HandleFresh(c1, MESSAGES[1]);
    RestsAlone(c1.engine, SECOND_ASK, 0);
  }

  /** The bid fills both asks, one trade is published, and the message counts as failed. */
  lemma BidFails(c: Consumer)
    requires c.events == [Name(20), Name(21)] && c.orders == [Name(10), Name(11)] && c.engine.log == []
    requires c.engine.books == map[COIN := Book([], [FIRST_ASK, SECOND_ASK])]
    ensures Handle(c, MESSAGES[2]) ==
            (c.(engine := At(EMPTY, c.engine.placed[BID.id := BID], [TradeEvent(0, TradeOf(BID, FIRST_ASK, 1.0))])),
             EngineFailed)
  {
    hide Handle, Match, Engine.Attempt;
    HandleFresh(c, MESSAGES[2]);
    BidPublishesOne(c.engine);
  }

  lemma BidPublishesOne(e: Engine.Engine)
    requires e.books == map[COIN := Book([], [FIRST_ASK, SECOND_ASK])] && e.log == []
    ensures Engine.Attempt(e, BID, 1) ==
            (At(EMPTY, e.placed[BID.id := BID], [TradeEvent(0, TradeOf(BID, FIRST_ASK, 1.0))]), false)
  {
    hide Match, Numbered;
    BidTakesBoth();
    var trades := [TradeOf(BID, FIRST_ASK, 1.0), TradeOf(BID, SECOND_ASK, 1.0)];
    NumberedAt(trades, 0);
    assert Engine.First(Numbered(trades, 0), 1) == [TradeEvent(0, trades[0])];
    assert e.log + [TradeEvent(0, trades[0])] == [TradeEvent(0, trades[0])];
    assert e.books[COIN := EMPTY] == map[COIN := EMPTY];
  }

  /** Redelivered, the bid rests with its whole quantity, and the last ask takes all of it. */
  lemma BidTradesAgain(c: Consumer, placed: map<Id, Order>, log: seq<TradeEvent>)
    requires c.events == [Name(20), Name(21)] && c.orders == [Name(10), Name(11)] && c.engine == At(EMPTY, placed, log)
    ensures var e := Handle(Handle(c, MESSAGES[3]).0, MESSAGES[4]).0.engine;
            && e.log == log + [TradeEvent(0, TradeOf(LAST_ASK, BID, 2.0))]
            && BID.id in e.placed && e.placed[BID.id] == BID
  {
    hide Handle, Match, Engine.Attempt, Insert, Numbered;
    HandleFresh(c, MESSAGES[3]);
    RestsAlone(c.engine, BID, 0);
    InsertFirst(BID);
    var c1 := Handle(c, MESSAGES[3]).0;
    assert c1.engine == At(Book([BID], []), placed[BID.id := BID], log);
    HandleFresh(c1, MESSAGES[4]);
    LastAsk(c1.engine);
  }

  lemma LastAsk(e: Engine.Engine)
    requires e.books == map[COIN := Book([BID], [])]
    ensures Engine.Attempt(e, LAST_ASK, 1) ==
            (Engine.Engine(e.books[COIN := EMPTY], e.placed[LAST_ASK.id := LAST_ASK],
                           e.log + [TradeEvent(0, TradeOf(LAST_ASK, BID, 2.0))]), true)
  {
    hide Match, Numbered;
    AskTakesBid();
    NumberedOne(TradeOf(LAST_ASK, BID, 2.0));
  }

  /** After these messages the bid, an order of two, has published trades of three. */
  lemma FailedPublishOverfills()
    ensures var e := HandleAll(IDLE, MESSAGES).engine;
            && BID.id in e.placed && e.placed[BID.id] == BID
            && Total(e.log, Engine.QtyFor(BID.id)) == 3.0 > BID.quantity
            && Total(e.log, Engine.UseFor(BID)) == 30.0 > Engine.Required(BID)
  {
    hide Handle, HandleAll, Total;
    HandleFive(IDLE, MESSAGES[0], MESSAGES[1], MESSAGES[2], MESSAGES[3], MESSAGES[4]);
    assert MESSAGES == [MESSAGES[0], MESSAGES[1], MESSAGES[2], MESSAGES[3], MESSAGES[4]];
    AsksRest();
    var c := Handle(Handle(IDLE, MESSAGES[0]).0, MESSAGES[1]).0;
    BidFails(c);
    var first := TradeEvent(0, TradeOf(BID, FIRST_ASK, 1.0));
    BidTradesAgain(Handle(c, MESSAGES[2]).0, c.engine.placed[BID.id := BID], [first]);
    TotalTwo(first, TradeEvent(0, TradeOf(LAST_ASK, BID, 2.0)), Engine.QtyFor(BID.id));
    TotalTwo(first, TradeEvent(0, TradeOf(LAST_ASK, BID, 2.0)), Engine.UseFor(BID));
  }

  lemma TotalTwo(a: TradeEvent, b: TradeEvent, f: Trade -> Decimal)
    ensures Total([a] + [b], f) == f(a.trade) + f(b.trade)
  {
    TotalConcat([a], [b], f);
    assert [a][1..] == [] && [b][1..] == [];
  }

  lemma HandleFive(c: Consumer, m1: Message, m2: Message, m3: Message, m4: Message, m5: Message)
    ensures HandleAll(c, [m1, m2, m3, m4, m5]) ==
            Handle(Handle(Handle(Handle(Handle(c, m1).0, m2).0, m3).0, m4).0, m5).0
  {
    hide Handle;
    assert [m1, m2, m3, m4, m5][1..] == [m2, m3, m4, m5] && [m2, m3, m4, m5][1..] == [m3, m4, m5];
    assert [m3, m4, m5][1..] == [m4, m5] && [m4, m5][1..] == [m5] && [m5][1..] == [];
    var c2 := Handle(Handle(c, m1).0, m2).0;
    assert HandleAll(c, [m1, m2, m3, m4, m5]) == HandleAll(c2, [m3, m4, m5]);
    var c4 := Handle(Handle(c2, m3).0, m4).0;
    assert HandleAll(c2, [m3, m4, m5]) == HandleAll(c4, [m5]);
  }
}
