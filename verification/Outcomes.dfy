/** What the engine does with an order, said on the order's own fields: which orders it accepts, what they cross, and
    everything that a match, an addition and a cancellation leave behind. */
module Outcomes {
  import opened Orders
  import opened Matching
  import opened MatchingLaws
  import opened PriceQueues
  import opened BookRuns
  import opened Tally
  import Engine = EngineRuns

  // ---------- acceptance and prices ----------

  /** An order can be matched exactly when its side and type are known, its quantity is positive, and so is its price
      if it is a limit order; the first of these to fail names the error. */
  lemma AcceptedIff(t: Order)
    ensures Refusal(t).None? <==>
            && (t.side == Buy || t.side == Sell) && (t.kind == Limit || t.kind == Market)
            && t.quantity > 0.0 && (t.kind == Limit ==> t.price > 0.0)
    ensures Refusal(t) == Some("invalid side") <==> t.side != Buy && t.side != Sell
    ensures Refusal(t) == Some("invalid order type") <==>
            (t.side == Buy || t.side == Sell) && t.kind != Limit && t.kind != Market
    ensures Refusal(t) == Some("quantity must be positive") <==>
            (t.side == Buy || t.side == Sell) && (t.kind == Limit || t.kind == Market) && t.quantity <= 0.0
  {
    var side, kind, quantity := "invalid side", "invalid order type", "quantity must be positive";
    var price := "price must be positive for limit orders";
    assert |side| == 12 && |kind| == 18 && |quantity| == 25 && |price| == 39;
  }

  /** A market order accepts every price, a limit buy those at most its own, a limit sell those at least its own. */
  lemma CrossesIff(t: Order, price: Decimal)
    ensures t.kind == Market ==> Crosses(t, price)
    ensures t.kind == Limit && t.side == Buy ==> (Crosses(t, price) <==> price <= t.price)
    ensures t.kind == Limit && t.side == Sell ==> (Crosses(t, price) <==> price >= t.price)
  {
  }

  // ---------- one match ----------

  /** What the taker takes in all. */
  function Taken(b: Book, t: Order): Decimal {
    if t.Remaining() <= 0.0 then 0.0 else Min(t.Remaining(), Available(t, Opposite(b, t)))
  }

  /** A fill-or-kill order that cannot be filled. */
  predicate Killed(b: Book, t: Order) {
    t.tif == FOK && 0.0 < t.Remaining() && Available(t, Opposite(b, t)) < t.Remaining()
  }

  /** What is left of the order is to stay on the book. */
  predicate WantsToRest(b: Book, t: Order) {
    t.kind == Limit && t.tif != IOC && t.tif != FOK && t.Remaining() - Taken(b, t) > 0.0
  }

  lemma MatchedOrder(b: Book, t: Order)
    requires WellFormed(b) && Refusal(t).None? && !Killed(b, t)
    ensures var r, s := Match(b, t), Opposite(b, t); var q := t.Remaining();
            && r.trades == SharedTrades(t, s, q, 0)
            && r.taker == t.(filled := t.filled + Taken(b, t))
            && Walked(b, t) == WithOpposite(b, t, Survivors(t, s, q, 0))
            && (if !WantsToRest(b, t) then r.book == Walked(b, t) && r.error == None
                else if t.id == NONE then r.book == Walked(b, t) && r.error == Some("order id required")
                else r.book == Rest(Walked(b, t), r.taker) && r.error == None)
  {
    hide SharedTrades, Survivors, Available, Walk, Rest, WellFormed;
    WellFormedOpposite(b, t);
    WalkIsWaterfall(t, Opposite(b, t), t.Remaining());
    AvailableNonNegative(t, Opposite(b, t));
  }

  lemma WellFormedOpposite(b: Book, t: Order)
    requires WellFormed(b)
    ensures InPriority(t.side.Sell?, Opposite(b, t)) && Live(Opposite(b, t))
  {
  }

  /** An order comes to rest behind every order of its price, if its id is new to the book; nothing else moves. */
  lemma RestIs(b: Book, o: Order, isBuy: bool, p: Decimal)
    requires InPriority(isBuy, SideOf(b, isBuy))
    ensures var rests := o.id != NONE && !HasId(b.bids, o.id) && !HasId(b.asks, o.id) && o.kind != Market
                         && o.quantity > o.filled && o.side == (if isBuy then Buy else Sell);
            AtPrice(SideOf(Rest(b, o), isBuy), p) ==
            AtPrice(SideOf(b, isBuy), p) + if rests && p == o.price then [o] else []
    ensures InPriority(isBuy, SideOf(Rest(b, o), isBuy))
  {
    hide AtPrice, HasId, InPriority, Insert;
    AtPriceInsert(isBuy, SideOf(b, isBuy), o, p);
    InsertKeepsOrder(isBuy, SideOf(b, isBuy), o);
    assert AtPrice(SideOf(b, isBuy), p) + [] == AtPrice(SideOf(b, isBuy), p);
  }

  /** Every match, whatever the order. A refused or killed order leaves no trace. Any other trades with each crossing
      maker for its share and takes all it can; the other side keeps exactly the survivors; and its own side gains, at
      the end of one queue, what is left of a limit order that is neither IOC nor FOK and has an id new to the book. */
  lemma MatchIs(b: Book, t: Order, p: Decimal)
    requires WellFormed(b)
    ensures var r, s := Match(b, t), Opposite(b, t); var own, other := t.side != Sell, t.side == Sell;
            if Refusal(t).Some? || Killed(b, t) then
              r.book == b && r.taker == t && r.trades == [] && r.error == Refusal(t)
            else
              && r.trades == SharedTrades(t, s, t.Remaining(), 0)
              && r.taker == t.(filled := t.filled + Taken(b, t))
              && SideOf(r.book, other) == Survivors(t, s, t.Remaining(), 0)
              && r.error == (if WantsToRest(b, t) && t.id == NONE then Some("order id required") else None)
              && AtPrice(SideOf(r.book, own), p) ==
                 AtPrice(SideOf(b, own), p) + if p == t.price && Joins(b, t) then [r.taker] else []
  {
    hide SharedTrades, Survivors, Available, Walk, Rest, AtPrice, HasId, Refusal;
    AcceptedIff(t);
    var own := t.side != Sell;
    assert AtPrice(SideOf(b, own), p) + [] == AtPrice(SideOf(b, own), p);
    if Refusal(t).None? && !Killed(b, t) {
      MatchedOrder(b, t);
      OwnSideInPriority(b, t);
      RestIs(Walked(b, t), Match(b, t).taker, own, p);
      RestLeavesOther(Walked(b, t), Match(b, t).taker);
    } else {
      NothingMatched(b, t);
    }
  }

  /** The remainder is to rest, under an id that is not on the book once the makers are filled. */
  ghost predicate Joins(b: Book, t: Order) {
    && WantsToRest(b, t) && t.id != NONE && !HasId(SideOf(b, t.side != Sell), t.id)
    && !HasId(Survivors(t, Opposite(b, t), t.Remaining(), 0), t.id)
  }

  lemma OwnSideInPriority(b: Book, t: Order)
    requires WellFormed(b)
    ensures var own := t.side != Sell; SideOf(Walked(b, t), own) == SideOf(b, own) && InPriority(own, SideOf(b, own))
  {
  }

  lemma RestLeavesOther(b: Book, o: Order)
    requires o.side == Buy || o.side == Sell
    ensures SideOf(Rest(b, o), o.side == Sell) == SideOf(b, o.side == Sell)
  {
  }

  lemma NothingMatched(b: Book, t: Order)
    requires Refusal(t).Some? || Killed(b, t)
    ensures Match(b, t) == Outcome(b, t, [], Refusal(t))
  {
  }

  // ---------- cancel ----------

  /** A cancellation takes the named order out of its queue and touches nothing else. */
  lemma CancelIs(b: Book, id: Id, isBuy: bool, p: Decimal, o: Order)
    ensures o in SideOf(Cancel(b, id), isBuy) <==> o in SideOf(b, isBuy) && (id == NONE || o.id != id)
    ensures id != NONE ==> AtPrice(SideOf(Cancel(b, id), isBuy), p) == Without(AtPrice(SideOf(b, isBuy), p), id)
    ensures id == NONE ==> Cancel(b, id) == b
  {
    WithoutMembers(SideOf(b, isBuy), id);
    AtPriceWithout(SideOf(b, isBuy), id, p);
  }

  // ---------- the engine ----------

  /** What the engine takes from the consumer: an order with an id, a symbol, and fields that can be matched. */
  predicate Takes(o: Order) {
    && o.id != NONE && o.symbol != NONE && (o.side == Buy || o.side == Sell) && (o.kind == Limit || o.kind == Market)
    && o.quantity > 0.0 && (o.kind == Limit ==> o.price > 0.0)
  }

  /** An order the engine does not take is an error without effect. Any other is matched on its symbol's book alone, an
      empty one if there is none yet; its trades are published in order, numbered from zero, until a publish fails. */
  lemma AttemptIs(e: Engine.Engine, o: Order, k: nat, symbol: Id)
    ensures var (e', ok) := Engine.Attempt(e, o, k);
            if !Takes(o) then e' == e && !ok
            else
              var book := if o.symbol in e.books then e.books[o.symbol] else Book([], []);
              var r := Match(book, o); var n := if k < |r.trades| then k else |r.trades|;
              && o.symbol in e'.books && e'.books[o.symbol] == r.book
              && (symbol != o.symbol ==> (symbol in e'.books <==> symbol in e.books))
              && (symbol != o.symbol && symbol in e.books ==> e'.books[symbol] == e.books[symbol])
              && (ok <==> |r.trades| <= k)
              && |e'.log| == |e.log| + n && e'.log[..|e.log|] == e.log
              && (forall i :: 0 <= i < n ==> e'.log[|e.log| + i] == TradeEvent(i, r.trades[i]))
              && e'.placed == e.placed[o.id := o]
  {
    hide Match, Numbered;
    AcceptedIff(o);
    var r := Match(Engine.BookOf(e, o.symbol), o);
    NumberedAt(r.trades, 0);
  }

  /** A cancellation goes to its symbol's book, or without a symbol to the unknown one, and to no other. */
  lemma RecallIs(e: Engine.Engine, symbol: Id, id: Id, other: Id)
    ensures var name := if symbol == NONE then Engine.UNKNOWN else symbol;
            var e' := Engine.Step(e, Engine.Recall(symbol, id));
            && name in e'.books
            && e'.books[name] == Cancel(if name in e.books then e.books[name] else Book([], []), id)
            && (other != name ==> (other in e'.books <==> other in e.books))
            && (other != name && other in e.books ==> e'.books[other] == e.books[other])
            && e'.log == e.log && e'.placed == e.placed
  {
  }
}
