/** Runs of the whole engine, one book per symbol, every order id processed once: what all the trades
    of one order add up to. */
module EngineRuns {
  import opened Orders
  import opened Matching
  import opened MatchingLaws
  import opened BookRuns
  import opened PriceQueues
  import opened Tally

  /** The books, every order as it was accepted, and the published trades in order. */
  datatype Engine = Engine(books: map<Id, Book>, placed: map<Id, Order>, log: seq<TradeEvent>)

  datatype Command = Accept(order: Order) | Recall(symbol: Id, id: Id)

  const START := Engine(map[], map[], [])

  /** Where orders without a symbol are looked for; it may be the name of a market. */
  const UNKNOWN := Name(0)

  function BookName(symbol: Id): Id { if symbol == NONE then UNKNOWN else symbol }

  function BookOf(e: Engine, symbol: Id): Book {
    if symbol in e.books then e.books[symbol] else EMPTY
  }

  /** Why the engine refuses an order outright. */
  predicate Acceptable(o: Order) {
    o.id != NONE && o.symbol != NONE && Refusal(o).None?
  }

  /** An accepted order starts unfilled. */
  function Unfilled(o: Order): Order { o.(filled := 0.0) }

  ghost function Process(e: Engine, o: Order): Engine {
    if !Acceptable(o) then e
    else
      var r := Match(BookOf(e, o.symbol), Unfilled(o));
      Engine(e.books[o.symbol := r.book], e.placed[o.id := Unfilled(o)], e.log + Numbered(r.trades, 0))
  }

  /** The same for an order as it comes, when only the first `k` publishes succeed: a failing publish ends the call with
      an error, but the match stays done and the trades before it are out. */
  ghost function Attempt(e: Engine, o: Order, k: nat): (Engine, bool) {
    if !Acceptable(o) then (e, false)
    else
      var r := Match(BookOf(e, o.symbol), o);
      var events := Numbered(r.trades, 0);
      var ok := |r.trades| <= k;
      (Engine(e.books[o.symbol := r.book], e.placed[o.id := o], e.log + if ok then events else First(events, k)), ok)
  }

  function First(events: seq<TradeEvent>, k: nat): seq<TradeEvent> { if k < |events| then events[..k] else events }

  /** With every publish succeeding, an order without fills is processed. */
  lemma AttemptIsProcess(e: Engine, o: Order, k: nat)
    requires o.filled == 0.0 && |Match(BookOf(e, o.symbol), o).trades| <= k
    ensures Attempt(e, o, k) == (Process(e, o), Acceptable(o))
  {
    hide Match;
    assert Unfilled(o) == o;
  }

  ghost function Step(e: Engine, c: Command): Engine {
    match c
    case Accept(o) => Process(e, o)
    case Recall(symbol, id) =>
      e.(books := e.books[BookName(symbol) := Cancel(BookOf(e, BookName(symbol)), id)])
  }

  ghost function Run(e: Engine, cs: seq<Command>): Engine
    decreases |cs|
  {
    if cs == [] then e else Run(Step(e, cs[0]), cs[1..])
  }

  /** No order id is accepted twice. */
  ghost predicate Once(cs: seq<Command>, seen: set<Id>)
    decreases |cs|
  {
    cs == [] ||
    match cs[0]
    case Accept(o) => o.id !in seen && Once(cs[1..], seen + {o.id})
    case Recall(_, _) => Once(cs[1..], seen)
  }

  // ---------- what a trade means to an order ----------

  function QtyFor(id: Id): Trade -> Decimal {
    (x: Trade) => if x.maker == id || x.taker == id then x.quantity else 0.0
  }

  /** How much of the asset an order pays with a trade uses up: quote for a buy, base for a sell. */
  function UseFor(o: Order): Trade -> Decimal {
    (x: Trade) =>
      if x.maker == o.id || x.taker == o.id then (if o.side.Buy? then x.price * x.quantity else x.quantity) else 0.0
  }

  /** A trade is between two placed, opposite orders, not of one named account, at a price both accept: the maker's. */
  ghost predicate Sound(placed: map<Id, Order>, x: Trade) {
    && x.maker in placed && x.taker in placed && x.maker != x.taker
    && var m, t := placed[x.maker], placed[x.taker];
       && x.quantity > 0.0 && x.price == m.price && Crosses(t, x.price) && !SelfTrade(t, m)
       && x.makerSide == m.side && x.symbol == m.symbol == t.symbol
       && ((m.side.Buy? && t.side.Sell?) || (m.side.Sell? && t.side.Buy?)) && m.kind.Limit?
  }

  // ---------- one walk ----------

  lemma {:induction false} TradeOrigin(t: Order, side: seq<Order>, s: seq<Order>, r: Decimal, x: Trade)
    returns (m: Order)
    requires Live(s) && x in Walk(t, side, s, r).trades
    ensures m in s && x == TradeOf(t, m, x.quantity) && x.quantity > 0.0 && Crosses(t, m.price) && !SelfTrade(t, m)
  {
    var q := if SelfTrade(t, s[0]) then 0.0 else Min(r, s[0].Remaining());
    if x in Walk(t, side, s[1..], r - q).trades {
      m := TradeOrigin(t, side, s[1..], r - q, x);
    } else {
      m := s[0];
    }
  }

  /** The taker's trades add up to what it was filled by. */
  lemma {:induction false} TakerTally(t: Order, side: seq<Order>, s: seq<Order>, r: Decimal, k: nat)
    ensures var w := Walk(t, side, s, r); Total(Numbered(w.trades, k), QtyFor(t.id)) == r - w.remaining
  {
    if s == [] || r <= 0.0 || !Crosses(t, s[0].price) {
    } else if SelfTrade(t, s[0]) {
      TakerTally(t, side, s[1..], r, k);
    } else {
      var x := TradeOf(t, s[0], Min(r, s[0].Remaining()));
      var later := Walk(t, side, s[1..], r - x.quantity).trades;
      TakerTally(t, side, s[1..], r - x.quantity, k + 1);
      TotalNumbered(x, later, k, QtyFor(t.id));
    }
  }

  lemma NumberedTrades(trades: seq<Trade>, k: nat, e: TradeEvent)
    requires e in Numbered(trades, k)
    ensures e.trade in trades
  {
    NumberedAt(trades, k);
  }

  lemma MakerAbsent(t: Order, side: seq<Order>, s: seq<Order>, r: Decimal, k: nat, id: Id)
    requires Live(s) && id != t.id && forall m :: m in s ==> m.id != id
    ensures Total(Numbered(Walk(t, side, s, r).trades, k), QtyFor(id)) == 0.0
  {
    hide Walk;
    var events := Numbered(Walk(t, side, s, r).trades, k);
    forall e | e in events ensures QtyFor(id)(e.trade) == 0.0 {
      NumberedTrades(Walk(t, side, s, r).trades, k, e);
      var m := TradeOrigin(t, side, s, r, e.trade);
    }
    TotalZero(events, QtyFor(id));
  }

  /** A maker's trades stay within what it had left, and are added to its fill. */
  lemma {:induction false} MakerTally(t: Order, side: seq<Order>, s: seq<Order>, r: Decimal, k: nat, j: nat)
    requires DistinctIds(s) && Live(s) && j < |s| && s[j].id != t.id
    ensures var m := s[j]; var w := Walk(t, side, s, r); var q := Total(Numbered(w.trades, k), QtyFor(m.id));
            && 0.0 <= q <= m.Remaining()
            && forall m' :: m' in w.rest && m'.id == m.id ==> m'.filled == m.filled + q
  {
    hide Numbered, Total, SelfOnly;
    var m := s[j];
    assert m in s;
    TotalNumbered(TradeOf(t, m, r), [], k, QtyFor(m.id));
    if r <= 0.0 || !Crosses(t, s[0].price) {
    } else {
      var own := SelfTrade(t, s[0]);
      var x := TradeOf(t, s[0], Min(r, s[0].Remaining()));
      var r', k' := if own then r else r - x.quantity, if own then k else k + 1;
      var w := Walk(t, side, s[1..], r');
      assert forall o :: o in s[1..] ==> o in s;
      TotalNumbered(x, w.trades, k, QtyFor(m.id));
      if j == 0 {
        MakerAbsent(t, side, s[1..], r', k', m.id);
        forall m' | m' in w.rest ensures m'.id != m.id {
          var o := RestOrigin(t, side, s[1..], r', m');
        }
      } else {
        assert s[1..][j - 1] == m && s[0].id != m.id;
        MakerTally(t, side, s[1..], r', k', j - 1);
      }
    }
  }

  // ---------- the invariant ----------

  /** A resting order is a placed one whose fill is the sum of its trades. */
  ghost predicate Tracks(e: Engine, symbol: Id, o: Order) {
    && o.id in e.placed && o == e.placed[o.id].(filled := o.filled)
    && o.symbol == symbol && o.kind.Limit? && o.filled == Total(e.log, QtyFor(o.id))
  }

  ghost predicate TracksBook(e: Engine, symbol: Id, b: Book) {
    WellFormed(b) && forall o :: o in b.bids || o in b.asks ==> Tracks(e, symbol, o)
  }

  /** An order's trades never add up to more than its quantity. */
  ghost predicate Within(e: Engine, id: Id) {
    && id in e.placed && e.placed[id].id == id && Acceptable(e.placed[id]) && e.placed[id].filled == 0.0
    && 0.0 <= Total(e.log, QtyFor(id)) <= e.placed[id].quantity
  }

  ghost predicate Inv(e: Engine) {
    && (forall s :: s in e.books ==> TracksBook(e, s, e.books[s]))
    && (forall id :: id in e.placed ==> Within(e, id))
    && (forall v :: v in e.log ==> Sound(e.placed, v.trade))
    && DistinctTradeIds(e.log)
  }

  // ---------- accepting an order ----------

  /** The trades of one match, numbered; none if a fill-or-kill order was turned away. */
  ghost function NewEvents(e: Engine, o: Order): seq<TradeEvent> {
    Numbered(Match(BookOf(e, o.symbol), Unfilled(o)).trades, 0)
  }

  lemma BookTracks(e: Engine, symbol: Id)
    requires Inv(e)
    ensures TracksBook(e, symbol, BookOf(e, symbol))
  {
  }

  lemma UnplacedTotal(e: Engine, id: Id)
    requires Inv(e) && id !in e.placed
    ensures Total(e.log, QtyFor(id)) == 0.0
  {
    TotalZero(e.log, QtyFor(id));
  }

  lemma NewTradeOrigin(e: Engine, o: Order, v: TradeEvent) returns (m: Order)
    requires Inv(e) && Acceptable(o) && v in NewEvents(e, o)
    ensures m in Opposite(BookOf(e, o.symbol), o) && Tracks(e, o.symbol, m)
    ensures v.trade == TradeOf(o, m, v.trade.quantity) && v.trade.quantity > 0.0
    ensures Crosses(o, m.price) && !SelfTrade(o, m) && m.side == (if o.side.Sell? then Buy else Sell)
  {
    var b, t := BookOf(e, o.symbol), Unfilled(o);
    BookTracks(e, o.symbol);
    var s := Opposite(b, t);
    NumberedTrades(Match(b, t).trades, 0, v);
    m := TradeOrigin(t, s, s, t.Remaining(), v.trade);
  }

  lemma NewTradesSound(e: Engine, o: Order, v: TradeEvent)
    requires Inv(e) && Acceptable(o) && o.id !in e.placed && v in NewEvents(e, o)
    ensures Sound(e.placed[o.id := Unfilled(o)], v.trade)
  {
    hide Inv, NewEvents, Total;
    var m := NewTradeOrigin(e, o, v);
  }

  lemma NewKeysDistinct(e: Engine, o: Order)
    requires Inv(e) && Acceptable(o) && o.id !in e.placed
    ensures DistinctTradeIds(e.log + NewEvents(e, o))
  {
    hide Total, Match, Within, TracksBook;
    var trades := Match(BookOf(e, o.symbol), Unfilled(o)).trades;
    NumberedAt(trades, 0);
    var log := e.log + NewEvents(e, o);
    forall i, j | 0 <= i < j < |log| ensures log[i].Key() != log[j].Key() {
      if j >= |e.log| {
        var m := NewTradeOrigin(e, o, log[j]);
        if i < |e.log| {
          assert log[i] in e.log;
        }
      }
    }
  }

  /** What one match adds to the totals of any order. */
  lemma NewTotals(e: Engine, o: Order, id: Id)
    requires Inv(e) && Acceptable(o) && o.id !in e.placed
    ensures var q := Total(NewEvents(e, o), QtyFor(id)); var r := Match(BookOf(e, o.symbol), Unfilled(o));
            && (id == o.id ==> q == r.taker.filled && 0.0 <= q <= o.quantity)
            && (id != o.id && !HasId(Opposite(BookOf(e, o.symbol), o), id) ==> q == 0.0)
  {
    hide Inv, Total, Numbered, Walk, InPriority, DistinctIds, OnSide;
    var b, t := BookOf(e, o.symbol), Unfilled(o);
    BookTracks(e, o.symbol);
    var s := Opposite(b, t);
    TotalNumbered(TradeOf(t, t, 0.0), [], 0, QtyFor(id));
    if id == o.id {
      TakerTally(t, s, s, t.Remaining(), 0);
      WalkRemaining(t, s, s, t.Remaining());
      AvailableNonNegative(t, s);
    } else if !HasId(s, id) {
      MakerAbsent(t, s, s, t.Remaining(), 0, id);
    }
  }

  lemma NewMakerTotals(e: Engine, o: Order, m: Order)
    requires Inv(e) && Acceptable(o) && o.id !in e.placed && m in Opposite(BookOf(e, o.symbol), o)
    ensures var q := Total(NewEvents(e, o), QtyFor(m.id)); 0.0 <= q <= m.Remaining()
    ensures var b := BookOf(e, o.symbol); var q := Total(NewEvents(e, o), QtyFor(m.id));
            var side := SideOf(Match(b, Unfilled(o)).book, o.side.Sell?);
            forall m' :: m' in side && m'.id == m.id ==> m'.filled == m.filled + q
  {
    hide Inv, Total, Numbered, Walk, InPriority, OnSide, Rest;
    var b, t := BookOf(e, o.symbol), Unfilled(o);
    BookTracks(e, o.symbol);
    var s := Opposite(b, t);
    var j :| 0 <= j < |s| && s[j] == m;
    TotalNumbered(TradeOf(t, t, 0.0), [], 0, QtyFor(m.id));
    MakerTally(t, s, s, t.Remaining(), 0, j);
    RestOtherSide(WithOpposite(b, t, Walk(t, s, s, t.Remaining()).rest), Match(b, t).taker);
  }

  lemma RestOtherSide(b: Book, o: Order)
    ensures SideOf(Rest(b, o), o.side.Sell?) == SideOf(b, o.side.Sell?) || o.side.UnknownSide?
  {
  }

  lemma AcceptKeepsWithin(e: Engine, o: Order, id: Id)
    requires Inv(e) && Acceptable(o) && o.id !in e.placed && (id in e.placed || id == o.id)
    ensures Within(Process(e, o), id)
  {
    hide Total, Match, TracksBook, DistinctTradeIds, NewEvents;
    var s := Opposite(BookOf(e, o.symbol), o);
    TotalConcat(e.log, NewEvents(e, o), QtyFor(id));
    NewTotals(e, o, id);
    assert Process(e, o).log == e.log + NewEvents(e, o) by { EventsOf(e, o); }
    if id == o.id {
      UnplacedTotal(e, id);
    } else if HasId(s, id) {
      var m :| m in s && m.id == id;
      OppositeTracked(e, o, m);
      NewMakerTotals(e, o, m);
    }
  }

  lemma EventsOf(e: Engine, o: Order)
    requires Acceptable(o)
    ensures Process(e, o).log == e.log + NewEvents(e, o)
  {
  }

  lemma OppositeTracked(e: Engine, o: Order, m: Order)
    requires Inv(e) && m in Opposite(BookOf(e, o.symbol), o)
    ensures Tracks(e, o.symbol, m)
  {
    BookTracks(e, o.symbol);
  }

  /** An order that rests elsewhere, or on the taker's own side, is not affected. */
  lemma AcceptKeepsOthers(e: Engine, o: Order, symbol: Id, x: Order)
    requires Inv(e) && Acceptable(o) && o.id !in e.placed && Tracks(e, symbol, x)
    requires !HasId(Opposite(BookOf(e, o.symbol), o), x.id)
    ensures Tracks(Process(e, o), symbol, x)
  {
    hide Total, Match, Inv, NewEvents;
    EventsOf(e, o);
    TotalConcat(e.log, NewEvents(e, o), QtyFor(x.id));
    NewTotals(e, o, x.id);
  }

  /** Orders of other symbols are not on this book. */
  lemma OtherSymbol(e: Engine, o: Order, symbol: Id, x: Order)
    requires Inv(e) && symbol != o.symbol && Tracks(e, symbol, x)
    ensures !HasId(Opposite(BookOf(e, o.symbol), o), x.id)
  {
    hide Total;
    var s := Opposite(BookOf(e, o.symbol), o);
    if HasId(s, x.id) {
      var m :| m in s && m.id == x.id;
      OppositeTracked(e, o, m);
    }
  }

  /** The orders on the matched book after the match. */
  lemma AcceptTracks(e: Engine, o: Order, x: Order, isBuy: bool)
    requires Inv(e) && Acceptable(o) && o.id !in e.placed
    requires x in SideOf(Process(e, o).books[o.symbol], isBuy)
    ensures Tracks(Process(e, o), o.symbol, x)
  {
    hide Total, Inv, NewEvents, Walk, CanFill, InPriority, DistinctIds, OnSide;
    var b, t := BookOf(e, o.symbol), Unfilled(o);
    var r := Match(b, t);
    BookTracks(e, o.symbol);
    EventsOf(e, o);
    TotalConcat(e.log, NewEvents(e, o), QtyFor(x.id));
    NewTotals(e, o, x.id);
    RestMembers(Walked(b, t), r.taker);
    if x == r.taker && x !in SideOf(Walked(b, t), isBuy) && x !in SideOf(b, isBuy) {
      UnplacedTotal(e, o.id);
    } else {
      var y := MatchOrigin(b, t, isBuy, x);
      if isBuy == o.side.Sell? {
        NewMakerTotals(e, o, y);
      } else {
        OwnSide(b, o, y);
      }
    }
  }

  lemma OwnSide(b: Book, o: Order, y: Order)
    requires WellFormed(b) && y in SideOf(b, !o.side.Sell?)
    ensures !HasId(Opposite(b, o), y.id)
  {
  }

  /** An order on the book after a match is the taker's remainder or an order of before. */
  lemma MatchOrigin(b: Book, t: Order, isBuy: bool, x: Order) returns (y: Order)
    requires WellFormed(b) && x in SideOf(Match(b, t).book, isBuy)
    requires x in SideOf(Walked(b, t), isBuy) || x in SideOf(b, isBuy)
    ensures y in SideOf(b, isBuy) && FilledMore(y, x)
    ensures isBuy != t.side.Sell? ==> y == x
  {
    if x in SideOf(b, isBuy) {
      y := x;
    } else {
      y := WalkedOrigin(b, t, isBuy, x);
    }
  }

  lemma AcceptKeepsBook(e: Engine, o: Order, symbol: Id)
    requires Inv(e) && Acceptable(o) && o.id !in e.placed && symbol in Process(e, o).books
    ensures TracksBook(Process(e, o), symbol, Process(e, o).books[symbol])
  {
    hide Inv, Tracks, Match, WellFormed;
    var e' := Process(e, o);
    var b' := e'.books[symbol];
    BookTracks(e, symbol);
    if symbol == o.symbol {
      MatchKeepsWellFormed(BookOf(e, symbol), Unfilled(o));
      forall x | x in b'.bids || x in b'.asks ensures Tracks(e', symbol, x) {
        AcceptTracks(e, o, x, x in b'.bids);
      }
    } else {
      forall x | x in b'.bids || x in b'.asks ensures Tracks(e', symbol, x) {
        OtherSymbol(e, o, symbol, x);
        AcceptKeepsOthers(e, o, symbol, x);
      }
    }
  }

  lemma AcceptKeepsInv(e: Engine, o: Order)
    requires Inv(e) && o.id !in e.placed
    ensures Inv(Process(e, o))
  {
    hide TracksBook, Within, Match, Total, DistinctTradeIds, NewEvents;
    if Acceptable(o) {
      var e' := Process(e, o);
      EventsOf(e, o);
      NewKeysDistinct(e, o);
      forall symbol | symbol in e'.books ensures TracksBook(e', symbol, e'.books[symbol]) {
        AcceptKeepsBook(e, o, symbol);
      }
      forall id | id in e'.placed ensures Within(e', id) {
        AcceptKeepsWithin(e, o, id);
      }
      forall v | v in e'.log ensures Sound(e'.placed, v.trade) {
        if v in NewEvents(e, o) {
          NewTradesSound(e, o, v);
        }
      }
    }
  }

  lemma RecallKeepsInv(e: Engine, symbol: Id, id: Id)
    requires Inv(e)
    ensures Inv(Step(e, Recall(symbol, id)))
  {
    hide Total, DistinctTradeIds, Shaped;
    var e', book := Step(e, Recall(symbol, id)), BookOf(e, BookName(symbol));
    BookTracks(e, BookName(symbol));
    CancelKeepsShape(book, id);
    CancelMembers(book, id);
    forall s | s in e'.books ensures TracksBook(e', s, e'.books[s]) {
      BookTracks(e, s);
    }
    forall i | i in e'.placed ensures Within(e', i) {
      assert Within(e, i);
    }
  }

  lemma {:induction false} RunKeepsInv(e: Engine, cs: seq<Command>)
    requires Inv(e) && Once(cs, e.placed.Keys)
    ensures Inv(Run(e, cs))
    decreases |cs|
  {
    hide Inv, Process;
    if cs != [] {
      match cs[0] {
        case Accept(o) =>
          AcceptKeepsInv(e, o);
          AcceptPlaces(e, o);
          OnceFewer(cs[1..], Process(e, o).placed.Keys, e.placed.Keys + {o.id});
        case Recall(symbol, id) =>
          RecallKeepsInv(e, symbol, id);
      }
      RunKeepsInv(Step(e, cs[0]), cs[1..]);
    }
  }

  lemma AcceptPlaces(e: Engine, o: Order)
    ensures Process(e, o).placed.Keys <= e.placed.Keys + {o.id}
  {
  }

  lemma {:induction false} OnceFewer(cs: seq<Command>, seen: set<Id>, more: set<Id>)
    requires Once(cs, more) && seen <= more
    ensures Once(cs, seen)
    decreases |cs|
  {
    if cs != [] {
      match cs[0] {
        case Accept(o) => OnceFewer(cs[1..], seen + {o.id}, more + {o.id});
        case Recall(_, _) => OnceFewer(cs[1..], seen, more);
      }
    }
  }

  lemma ReachableInv(cs: seq<Command>)
    requires Once(cs, {})
    ensures Inv(Run(START, cs))
  {
    assert START.placed.Keys == {};
    RunKeepsInv(START, cs);
  }

  // ---------- the theorems ----------

  /** The trades of every order add up to at most its quantity, and to exactly the fill of a resting one. */
  lemma FillsAddUp(cs: seq<Command>)
    requires Once(cs, {})
    ensures var e := Run(START, cs);
            && (forall id :: id in e.placed ==> 0.0 <= Total(e.log, QtyFor(id)) <= e.placed[id].quantity)
            && (forall s, o :: s in e.books && (o in e.books[s].bids || o in e.books[s].asks) ==>
                  o.filled == Total(e.log, QtyFor(o.id)))
            && (forall v :: v in e.log ==> Sound(e.placed, v.trade))
            && DistinctTradeIds(e.log)
  {
    ReachableInv(cs);
    var e := Run(START, cs);
    forall id | id in e.placed ensures Within(e, id) { }
    forall s, o | s in e.books && (o in e.books[s].bids || o in e.books[s].asks) ensures Tracks(e, s, o) {
      assert TracksBook(e, s, e.books[s]);
    }
  }

  /** What is reserved for an order when it is submitted; a market buy is priced by a reference instead. */
  function Required(o: Order): Decimal {
    if o.side.Buy? then o.quantity * o.price else o.quantity
  }

  lemma BuyPays(placed: map<Id, Order>, o: Order, x: Trade)
    requires Sound(placed, x) && o.id in placed && placed[o.id] == o && o.side.Buy? && o.kind.Limit?
    ensures UseFor(o)(x) <= o.price * QtyFor(o.id)(x)
  {
    if x.maker == o.id || x.taker == o.id {
      assert x.price <= o.price;
      assert x.price * x.quantity <= o.price * x.quantity;
    }
  }

  lemma UseNonNegative(e: Engine, v: TradeEvent, id: Id)
    requires Inv(e) && v in e.log && id in e.placed
    ensures UseFor(e.placed[id])(v.trade) >= 0.0
  {
    hide Total, TracksBook;
    assert Sound(e.placed, v.trade) && Within(e, v.trade.maker);
    assert v.trade.price > 0.0 && v.trade.quantity > 0.0;
    assert v.trade.price * v.trade.quantity >= 0.0;
  }

  lemma UseWithinRequired(e: Engine, id: Id)
    requires Inv(e) && id in e.placed && (e.placed[id].side.Sell? || e.placed[id].kind.Limit?)
    ensures Total(e.log, UseFor(e.placed[id])) <= Required(e.placed[id])
  {
    hide Total, Sound, TracksBook, DistinctTradeIds;
    assert Within(e, id);
    var o := e.placed[id];
    var use, qty := UseFor(o), QtyFor(id);
    assert o.id == id;
    if o.side.Buy? {
      forall v | v in e.log ensures use(v.trade) <= o.price * qty(v.trade) {
        BuyPays(e.placed, o, v.trade);
      }
      TotalBound(e.log, use, qty, o.price);
      AtLimit(Total(e.log, use), Total(e.log, qty), o.quantity, o.price);
    } else {
      forall v | v in e.log ensures use(v.trade) <= 1.0 * qty(v.trade) { }
      TotalBound(e.log, use, qty, 1.0);
    }
  }

  lemma AtLimit(use: Decimal, filled: Decimal, quantity: Decimal, price: Decimal)
    requires price > 0.0 && filled <= quantity && use <= price * filled
    ensures use <= quantity * price
  {
    assert price * filled <= price * quantity;
  }

  /** In every run, everything an order's trades use up fits in what was reserved for it. */
  lemma ReservationsSuffice(cs: seq<Command>, id: Id)
    requires Once(cs, {}) && id in Run(START, cs).placed
    requires var o := Run(START, cs).placed[id]; o.side.Sell? || o.kind.Limit?
    ensures var e := Run(START, cs); Total(e.log, UseFor(e.placed[id])) <= Required(e.placed[id])
  {
    hide Inv, Total;
    ReachableInv(cs);
    UseWithinRequired(Run(START, cs), id);
  }
}
