/** Price-time matching on a book whose two sides are sequences of resting orders,
    best price first and oldest first within a price. */
module Matching {
  import opened Orders

  datatype Book = Book(bids: seq<Order>, asks: seq<Order>)

  // ---------- well-formed sides and books ----------

  ghost predicate InPriority(isBuy: bool, s: seq<Order>) {
    forall i, j :: 0 <= i < j < |s| ==> !Better(isBuy, s[j].price, s[i].price)
  }

  ghost predicate DistinctIds(s: seq<Order>) {
    forall i, j :: 0 <= i < j < |s| ==> s[i].id != s[j].id
  }

  /** Every order still wants to trade. */
  ghost predicate Live(s: seq<Order>) {
    forall o :: o in s ==> o.Remaining() > 0.0
  }

  ghost predicate OnSide(isBuy: bool, s: seq<Order>) {
    forall o :: o in s ==> o.id != NONE && o.side == (if isBuy then Buy else Sell)
  }

  ghost predicate Shaped(b: Book) {
    && InPriority(true, b.bids) && InPriority(false, b.asks)
    && OnSide(true, b.bids) && OnSide(false, b.asks)
    && DistinctIds(b.bids) && DistinctIds(b.asks)
    && forall x, y :: x in b.bids && y in b.asks ==> x.id != y.id
  }

  ghost predicate WellFormed(b: Book) {
    Shaped(b) && Live(b.bids) && Live(b.asks)
  }

  predicate HasId(s: seq<Order>, id: Id) {
    exists o :: o in s && o.id == id
  }

  // ---------- elementary edits ----------

  /** A new order queues behind every order that is not strictly worse. */
  function Insert(isBuy: bool, s: seq<Order>, o: Order): seq<Order> {
    if s == [] then [o]
    else if Better(isBuy, o.price, s[0].price) then [o] + s
    else [s[0]] + Insert(isBuy, s[1..], o)
  }

  function Without(s: seq<Order>, id: Id): seq<Order> {
    if s == [] then []
    else if s[0].id == id then Without(s[1..], id)
    else [s[0]] + Without(s[1..], id)
  }

  // ---------- the greedy walk ----------

  /** Every order resting at this price belongs to the taker. */
  ghost predicate SelfOnly(t: Order, side: seq<Order>, price: Decimal) {
    forall m :: m in side && m.price == price ==> SelfTrade(t, m)
  }

  datatype Fill = Fill(trades: seq<Trade>, rest: seq<Order>, remaining: Decimal)

  /** Visit the opposite side in priority order, filling what crosses and is not the taker's own;
      own orders stay, except on a level that holds nothing else. */
  ghost function Walk(t: Order, side: seq<Order>, s: seq<Order>, remaining: Decimal): Fill {
    if s == [] || remaining <= 0.0 || !Crosses(t, s[0].price) then Fill([], s, remaining)
    else if SelfTrade(t, s[0]) then
      var w := Walk(t, side, s[1..], remaining);
      if SelfOnly(t, side, s[0].price) then w else w.(rest := [s[0]] + w.rest)
    else
      var m := s[0];
      var q := Min(remaining, m.Remaining());
      var w := Walk(t, side, s[1..], remaining - q);
      Fill([TradeOf(t, m, q)] + w.trades,
           if q == m.Remaining() then w.rest else [m.(filled := m.filled + q)] + w.rest,
           w.remaining)
  }

  // ---------- one order against a book ----------

  datatype Outcome = Outcome(book: Book, taker: Order, trades: seq<Trade>, error: Option<string>)

  function Opposite(b: Book, t: Order): seq<Order> {
    if t.side.Sell? then b.bids else b.asks
  }

  function WithOpposite(b: Book, t: Order, s: seq<Order>): Book {
    if t.side.Sell? then b.(bids := s) else b.(asks := s)
  }

  /** What one resting order offers the taker. */
  function Offer(t: Order, m: Order): Decimal {
    if Crosses(t, m.price) && !SelfTrade(t, m) && m.Remaining() > 0.0 then m.Remaining() else 0.0
  }

  /** Everything the taker could trade with, whatever its own size. */
  function Available(t: Order, s: seq<Order>): Decimal {
    if s == [] then 0.0 else Offer(t, s[0]) + Available(t, s[1..])
  }

  predicate CanFill(b: Book, t: Order) {
    t.Remaining() <= 0.0 || Available(t, Opposite(b, t)) >= t.Remaining()
  }

  predicate MayRest(t: Order) {
    t.Remaining() > 0.0 && !t.tif.IOC? && !t.tif.FOK? && t.kind.Limit?
  }

  /** Put an order on the book: an id that already rests is left alone. */
  function Rest(b: Book, o: Order): Book {
    if o.id == NONE || HasId(b.bids, o.id) || HasId(b.asks, o.id) || o.kind.Market? || o.Remaining() <= 0.0 then b
    else if o.side.Buy? then b.(bids := Insert(true, b.bids, o))
    else if o.side.Sell? then b.(asks := Insert(false, b.asks, o))
    else b
  }

  ghost function Match(b: Book, t: Order): Outcome {
    if Refusal(t).Some? then Outcome(b, t, [], Refusal(t))
    else if t.tif.FOK? && !CanFill(b, t) then Outcome(b, t, [], None)
    else
      var w := Walk(t, Opposite(b, t), Opposite(b, t), t.Remaining());
      var t' := t.(filled := t.quantity - w.remaining);
      var b' := WithOpposite(b, t, w.rest);
      if !MayRest(t') then Outcome(b', t', w.trades, None)
      else if t'.id == NONE then Outcome(b', t', w.trades, Some("order id required"))
      else Outcome(Rest(b', t'), t', w.trades, None)
  }

  function Cancel(b: Book, id: Id): Book {
    if id == NONE then b else Book(Without(b.bids, id), Without(b.asks, id))
  }

  // ---------- the declarative reading ----------

  /** What the taker takes from the i-th order: whatever is left once every order ahead of it has been used up. */
  function Share(t: Order, s: seq<Order>, quantity: Decimal, i: nat): Decimal
    requires i < |s|
  {
    var left := quantity - Available(t, s[..i]);
    if left <= 0.0 then 0.0 else Min(left, Offer(t, s[i]))
  }

  /** An own order is cancelled when the taker reaches, still hungry, a level holding only its own orders. */
  ghost predicate Cancelled(t: Order, s: seq<Order>, quantity: Decimal, i: nat)
    requires i < |s|
  {
    && quantity > 0.0 && Crosses(t, s[i].price) && SelfOnly(t, s, s[i].price)
    && Available(t, s[..i]) < quantity
  }

  function SharedTrades(t: Order, s: seq<Order>, quantity: Decimal, i: nat): seq<Trade>
    requires i <= |s|
    decreases |s| - i
  {
    if i == |s| then []
    else
      var q := Share(t, s, quantity, i);
      var later := SharedTrades(t, s, quantity, i + 1);
      if q > 0.0 then [TradeOf(t, s[i], q)] + later else later
  }

  ghost function Survivors(t: Order, s: seq<Order>, quantity: Decimal, i: nat): seq<Order>
    requires i <= |s|
    decreases |s| - i
  {
    if i == |s| then []
    else
      var m := s[i].(filled := s[i].filled + Share(t, s, quantity, i));
      var later := Survivors(t, s, quantity, i + 1);
      if m.Remaining() <= 0.0 || Cancelled(t, s, quantity, i) then later else [m] + later
  }
}
