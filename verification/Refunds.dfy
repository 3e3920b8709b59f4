/** From the first reservation to the release: what a completely filled order gets back. */
module Refunds {
  import opened Orders
  import opened Tally
  import opened LedgerSteps
  import opened Compose
  import opened Clearing
  import Engine = EngineRuns

  /** The price improvement of a trade of the order's: the difference to its limit on every unit traded. */
  function SavedFor(o: Order): Trade -> Decimal {
    (x: Trade) => if x.maker == o.id || x.taker == o.id then (o.price - x.price) * x.quantity else 0.0
  }

  /** What a fully filled order did not use: for a buy the price improvement of its trades, for a sell nothing. */
  lemma UnusedOf(log: seq<TradeEvent>, o: Order)
    requires Total(log, Engine.QtyFor(o.id)) == o.quantity
    ensures o.side.Buy? ==> Engine.Required(o) - Total(log, Engine.UseFor(o)) == Total(log, SavedFor(o))
    ensures !o.side.Buy? ==> Engine.Required(o) - Total(log, Engine.UseFor(o)) == 0.0
  {
    hide Total;
    if o.side.Buy? {
      forall v | v in log
        ensures SavedFor(o)(v.trade) == o.price * Engine.QtyFor(o.id)(v.trade) - Engine.UseFor(o)(v.trade)
      {
        var x := v.trade;
        assert (o.price - x.price) * x.quantity == o.price * x.quantity - x.price * x.quantity;
      }
      TotalLinear(log, SavedFor(o), Engine.QtyFor(o.id), Engine.UseFor(o), o.price);
    } else {
      var nothing := (x: Trade) => 0.0;
      TotalZero(log, nothing);
      TotalLinear(log, Engine.UseFor(o), Engine.QtyFor(o.id), nothing, 1.0);
    }
  }

  /** From the first reservation to the release, for every engine run: a limit buy that was filled completely gets
      back exactly the sum of (limit - price) * quantity over its trades, and a filled sell gets nothing back. */
  lemma FilledOrdersGetImprovement(
    cs: seq<Engine.Command>, markets: map<Id, Pair>, s: Ledger, qs: seq<Request>, order: seq<nat>, id: Id)
    requires Engine.Once(cs, {}) && Clearable(Engine.Run(Engine.START, cs))
    requires Ready(Engine.Run(Engine.START, cs), markets, s)
    requires FreeRequests(Engine.Run(Engine.START, cs), markets, qs, order)
    requires Complete(order, Engine.Run(Engine.START, cs).log)
    requires var e := Engine.Run(Engine.START, cs);
             id in e.placed && Total(e.log, Engine.QtyFor(id)) == e.placed[id].quantity
    ensures var e := Engine.Run(Engine.START, cs); var o := e.placed[id];
            Release(SettleAll(s, qs), id).1 == ReleasedAmount(if o.side.Buy? then Total(e.log, SavedFor(o)) else 0.0)
  {
    hide Engine.Run, Engine.Inv, Total, SettleAll, Clearable, Ready, FreeRequests, Complete, Engine.Required, Release;
    var e := Engine.Run(Engine.START, cs);
    Engine.ReachableInv(cs);
    PlacedIds(e, id);
    EveryTradeSettles(cs, markets, s, qs, order, id);
    UnusedOf(e.log, e.placed[id]);
  }
}
