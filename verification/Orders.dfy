/** The values the matching engine exchanges: orders, trades and the tests on them.
    Names are opaque: order ids, accounts, symbols and assets are numbered, and NONE stands for a blank one. */
module Orders {
  type Decimal = real

  datatype Id = NONE | Name(number: nat)

  /** A trade, and the event that reports it: the taker's id and the trade's position among the taker's trades. */
  type TradeId = (Id, nat)

  datatype Side = Buy | Sell | UnknownSide
  datatype OrderType = Limit | Market | UnknownType
  datatype TimeInForce = GTC | IOC | FOK | OtherTIF

  datatype Option<+T> = None | Some(value: T)

  datatype Order = Order(
    id: Id, account: Id, symbol: Id, side: Side, kind: OrderType,
    price: Decimal, quantity: Decimal, filled: Decimal, tif: TimeInForce)
  {
    function Remaining(): Decimal { quantity - filled }
  }

  datatype Trade = Trade(
    symbol: Id, maker: Id, taker: Id, price: Decimal, quantity: Decimal, makerSide: Side)

  function Min(a: Decimal, b: Decimal): Decimal { if a <= b then a else b }

  /** Does a taker accept the price of a resting order? */
  predicate Crosses(t: Order, price: Decimal) {
    t.kind.Market? || (t.side.Buy? && price <= t.price) || (t.side.Sell? && price >= t.price)
  }

  /** A taker never trades with a resting order of its own, named account. */
  predicate SelfTrade(t: Order, m: Order) {
    m.account != NONE && m.account == t.account
  }

  /** Is p a strictly better resting price than q on this side? */
  predicate Better(isBuy: bool, p: Decimal, q: Decimal) {
    if isBuy then p > q else p < q
  }

  function TradeOf(t: Order, m: Order, quantity: Decimal): Trade {
    Trade(t.symbol, m.id, t.id, m.price, quantity, m.side)
  }

  /** Why an order cannot be matched at all. */
  function Refusal(t: Order): Option<string> {
    if t.side.UnknownSide? then Some("invalid side")
    else if t.kind.UnknownType? then Some("invalid order type")
    else if t.quantity <= 0.0 then Some("quantity must be positive")
    else if t.kind.Limit? && t.price <= 0.0 then Some("price must be positive for limit orders")
    else None
  }
}
