/** From the engine's trades to the ledger: with every order reserved and no fees, all trades of a run settle, in any
    order and whatever the repetitions, and each order ends up having paid exactly for its trades. */
module Clearing {
  import opened Orders
  import opened Tally
  import opened Entries
  import opened LedgerSteps
  import opened LedgerLaws
  import opened LedgerExact
  import opened Compose
  import Engine = EngineRuns
  import Progress = LedgerProgress
  import LedgerRuns

  /** Orders of named accounts, none of them a market buy. */
  ghost predicate Clearable(e: Engine.Engine) {
    forall id :: id in e.placed ==> Accountable(e.placed[id]) && e.placed[id].account != NONE
  }

  /** The order's reservation is its own, and used for exactly the trades booked so far. */
  ghost predicate PaidUp(e: Engine.Engine, markets: map<Id, Pair>, s: Ledger, id: Id)
    requires id in e.placed
  {
    id in s.reservations &&
    var o, r := e.placed[id], s.reservations[id];
    && r.account == o.account && r.asset == PayAsset(markets, o) && r.amount == Engine.Required(o) && InUse(r)
    && r.consumed == TotalOf(e.log, Engine.UseFor(o), BookedTrades(s))
  }

  ghost predicate InOrder(e: Engine.Engine, markets: map<Id, Pair>, s: Ledger) {
    && Sound(s) && Tight(s) && s.events <= BookedTrades(s)
    && forall id :: id in e.placed ==> PaidUp(e, markets, s, id)
  }

  /** A settlement of an event of the run, without fees; the event's id is the trade's. */
  ghost predicate FreeRequest(e: Engine.Engine, markets: map<Id, Pair>, q: Request, i: nat) {
    && i < |e.log| && SettlesEvent(e, markets, e.log[i], q) && q.event == Some(q.trade)
    && q.makerFee.amount <= 0.0 && q.makerFee.asset == q.quote
    && q.takerFee.amount <= 0.0 && q.takerFee.asset == q.quote
    && q.feeAccount != q.maker && q.feeAccount != q.taker
  }

  // ---------- one settlement ----------

  /** What is left of a reservation covers the next trade. */
  lemma ReservationCovers(e: Engine.Engine, markets: map<Id, Pair>, s: Ledger, i: nat, id: Id)
    requires Engine.Inv(e) && Clearable(e) && ReservationsOk(s.reservations)
    requires i < |e.log| && e.log[i].Key() !in BookedTrades(s) && id in e.placed && PaidUp(e, markets, s, id)
    requires e.log[i].trade.maker == id || e.log[i].trade.taker == id
    ensures var desired := Engine.UseFor(e.placed[id])(e.log[i].trade);
            desired > 0.0 && Cover(s.reservations, id, PayAsset(markets, e.placed[id]), desired) == Some(desired)
  {
    hide TotalOf, Engine.Inv;
    PlacedIds(e, id);
    UsePositive(e, i, id);
    RoomInReservation(e, i, id, BookedTrades(s));
  }

  lemma CoveredRequest(e: Engine.Engine, markets: map<Id, Pair>, s: Ledger, i: nat, q: Request)
    requires Engine.Inv(e) && Clearable(e) && InOrder(e, markets, s)
    requires FreeRequest(e, markets, q, i) && q.trade !in BookedTrades(s)
    ensures CoveredWithFees(s, q) && FullyCovered(s, q) && q.makerOrder != q.takerOrder
  {
    hide TotalOf, Engine.Inv, Tight, Cover, Engine.Required;
    TradeSound(e, i);
    PlacedIds(e, q.makerOrder);
    PlacedIds(e, q.takerOrder);
    LegIsUse(e, markets, e.log[i], q);
    ReservationCovers(e, markets, s, i, q.makerOrder);
    ReservationCovers(e, markets, s, i, q.takerOrder);
    assert PaidUp(e, markets, s, q.makerOrder) && PaidUp(e, markets, s, q.takerOrder);
    PricePositive(e, i);
  }

  lemma PricePositive(e: Engine.Engine, i: nat)
    requires Engine.Inv(e) && i < |e.log|
    ensures e.log[i].trade.price > 0.0
  {
    hide Total, Engine.TracksBook;
    assert Engine.Sound(e.placed, e.log[i].trade) && Engine.Within(e, e.log[i].trade.maker);
  }

  lemma BookedIff(s: Ledger, trade: TradeId)
    ensures TradeBooked(s.journal, trade) <==> trade in BookedTrades(s)
  {
  }

  lemma FirstSettles(e: Engine.Engine, markets: map<Id, Pair>, s: Ledger, i: nat, q: Request)
    requires Engine.Inv(e) && Clearable(e) && InOrder(e, markets, s)
    requires FreeRequest(e, markets, q, i) && q.trade !in BookedTrades(s)
    ensures Settle(s, q).1.Settled?
  {
    hide Engine.Inv, PaidUp, Tight, Sound, CoveredWithFees, Settle, SettlesEvent;
    CoveredRequest(e, markets, s, i, q);
    BookedIff(s, q.trade);
    Progress.FreeOfFeesSettles(s, q);
  }

  /** The order's leg is what the trade uses, and the totals move together. */
  lemma PaymentTracked(e: Engine.Engine, markets: map<Id, Pair>, s: Ledger, i: nat, q: Request, id: Id)
    requires Engine.Inv(e) && Clearable(e) && InOrder(e, markets, s) && id in e.placed
    requires FreeRequest(e, markets, q, i) && q.trade !in BookedTrades(s)
    ensures PaidUp(e, markets, Settle(s, q).0, id)
  {
    hide Engine.Inv, TotalOf, Tight, Settle, Cover, Engine.Required;
    FirstSettles(e, markets, s, i, q);
    CoveredRequest(e, markets, s, i, q);
    assert PaidUp(e, markets, s, id);
    SettleConsumes(s, q, id);
    JournalGrows(s, q);
    LegMatches(e, markets, i, q, id);
    RoomInReservation(e, i, id, BookedTrades(s));
  }

  lemma LegMatches(e: Engine.Engine, markets: map<Id, Pair>, i: nat, q: Request, id: Id)
    requires Engine.Inv(e) && i < |e.log| && SettlesEvent(e, markets, e.log[i], q) && id in e.placed
    ensures Leg(q, id) == Engine.UseFor(e.placed[id])(e.log[i].trade) >= 0.0
  {
    hide Engine.Inv;
    TradeSound(e, i);
    PlacedIds(e, id);
    PlacedIds(e, q.makerOrder);
    PlacedIds(e, q.takerOrder);
    LegIsUse(e, markets, e.log[i], q);
    Engine.UseNonNegative(e, e.log[i], id);
  }

  lemma MarkKeepsOrder(e: Engine.Engine, markets: map<Id, Pair>, s: Ledger, trade: TradeId)
    requires InOrder(e, markets, s) && trade in BookedTrades(s)
    ensures InOrder(e, markets, Mark(s, Some(trade))) && BookedTrades(Mark(s, Some(trade))) == BookedTrades(s)
  {
    hide TotalOf, ActiveSum;
    var s' := Mark(s, Some(trade));
    forall k ensures TightAt(s', k) { assert TightAt(s, k); }
    forall id | id in e.placed ensures PaidUp(e, markets, s', id) { assert PaidUp(e, markets, s, id); }
  }

  /** The first settlement of a trade settles it, any later one finds it booked, and everything stays in order. */
  lemma SettlesOnce(e: Engine.Engine, markets: map<Id, Pair>, s: Ledger, i: nat, q: Request)
    requires Engine.Inv(e) && Clearable(e) && InOrder(e, markets, s) && FreeRequest(e, markets, q, i)
    ensures Settle(s, q).1 == if q.trade in BookedTrades(s) then AlreadyProcessed else Settled
    ensures InOrder(e, markets, Settle(s, q).0) && BookedTrades(Settle(s, q).0) == BookedTrades(s) + {q.trade}
  {
    hide Engine.Inv, Book, TotalOf, ActiveSum, Cover, HeldInAll, Sound;
    BookedIff(s, q.trade);
    if q.trade in BookedTrades(s) {
      TradeSound(e, i);
      PricePositive(e, i);
      MarkKeepsOrder(e, markets, s, q.trade);
    } else {
      FirstSettles(e, markets, s, i, q);
      CoveredRequest(e, markets, s, i, q);
      JournalGrows(s, q);
      BookParts(s, q);
      LedgerRuns.SettleKeeps(s, q, NONE);
      forall k ensures TightAt(Settle(s, q).0, k) { SettleKeepsTight(s, q, k); }
      forall id | id in e.placed ensures PaidUp(e, markets, Settle(s, q).0, id) {
        PaymentTracked(e, markets, s, i, q, id);
      }
    }
  }

  // ---------- all of them ----------

  function SettleAll(s: Ledger, qs: seq<Request>): Ledger
    decreases |qs|
  {
    if qs == [] then s else SettleAll(Settle(s, qs[0]).0, qs[1..])
  }

  /** Each request settles its trade, or finds it booked already. */
  ghost predicate AllGoThrough(s: Ledger, qs: seq<Request>)
    decreases |qs|
  {
    qs == [] ||
    (&& Settle(s, qs[0]).1 == (if qs[0].trade in BookedTrades(s) then AlreadyProcessed else Settled)
     && AllGoThrough(Settle(s, qs[0]).0, qs[1..]))
  }

  /** Request by request, which event of the log it is for. */
  ghost predicate FreeRequests(e: Engine.Engine, markets: map<Id, Pair>, qs: seq<Request>, order: seq<nat>) {
    |order| == |qs| && forall k :: 0 <= k < |qs| ==> FreeRequest(e, markets, qs[k], order[k])
  }

  lemma {:induction false} SettleAllKeeps(
    e: Engine.Engine, markets: map<Id, Pair>, s: Ledger, qs: seq<Request>, order: seq<nat>)
    requires Engine.Inv(e) && Clearable(e) && InOrder(e, markets, s) && FreeRequests(e, markets, qs, order)
    ensures AllGoThrough(s, qs) && InOrder(e, markets, SettleAll(s, qs))
    ensures BookedTrades(s) <= BookedTrades(SettleAll(s, qs))
    ensures forall k :: 0 <= k < |qs| ==> qs[k].trade in BookedTrades(SettleAll(s, qs))
    decreases |qs|
  {
    hide Engine.Inv, InOrder, Settle, FreeRequest, BookedTrades;
    if qs != [] {
      SettlesOnce(e, markets, s, order[0], qs[0]);
      SettleAllKeeps(e, markets, Settle(s, qs[0]).0, qs[1..], order[1..]);
    }
  }

  /** A ledger on which every order of the run has just reserved what it requires, and no trade of it is booked. */
  ghost predicate Ready(e: Engine.Engine, markets: map<Id, Pair>, s: Ledger) {
    && Sound(s) && Tight(s) && s.events <= BookedTrades(s)
    && (forall v :: v in e.log ==> v.Key() !in BookedTrades(s))
    && forall id :: id in e.placed ==>
         id in s.reservations &&
         var o := e.placed[id];
         s.reservations[id] == Reservation(o.account, PayAsset(markets, o), Engine.Required(o), 0.0, Active)
  }

  /** Whoever of the run's orders has reserved, has just reserved what it requires. */
  ghost predicate JustReserved(e: Engine.Engine, markets: map<Id, Pair>, s: Ledger) {
    forall id :: id in e.placed && id in s.reservations ==>
      var o := e.placed[id];
      s.reservations[id] == Reservation(o.account, PayAsset(markets, o), Engine.Required(o), 0.0, Active)
  }

  lemma ReserveStep(e: Engine.Engine, markets: map<Id, Pair>, s: Ledger, op: LedgerRuns.Op)
    requires Clearable(e) && op.DoReserve? && Legal(e, markets, op)
    requires Sound(s) && Tight(s) && JustReserved(e, markets, s)
    ensures var s' := LedgerRuns.Step(s, op);
            && Sound(s') && Tight(s') && JustReserved(e, markets, s')
            && s'.journal == s.journal && s'.events == s.events
  {
    hide Sound, Tight, Engine.Required;
    LedgerRuns.StepKeepsMoney(s, op, NONE);
    StepKeepsTight(s, op);
  }

  /** Reserving, in any order, for all orders of a run makes an exact ledger ready for its trades. */
  lemma {:induction false} ReservesMakeReady(
    e: Engine.Engine, markets: map<Id, Pair>, s: Ledger, ops: seq<LedgerRuns.Op>)
    requires Clearable(e) && LegalRun(e, markets, ops) && forall i :: 0 <= i < |ops| ==> ops[i].DoReserve?
    requires Sound(s) && Tight(s) && JustReserved(e, markets, s) && s.events <= BookedTrades(s)
    requires forall v :: v in e.log ==> v.Key() !in BookedTrades(s)
    requires forall id :: id in e.placed ==> id in LedgerRuns.Run(s, ops).reservations
    ensures Ready(e, markets, LedgerRuns.Run(s, ops))
    decreases |ops|
  {
    hide Sound, Tight, Engine.Required, Legal, LedgerRuns.Step;
    if ops != [] {
      assert Legal(e, markets, ops[0]) && LegalRun(e, markets, ops[1..]);
      ReserveStep(e, markets, s, ops[0]);
      assert BookedTrades(LedgerRuns.Step(s, ops[0])) == BookedTrades(s);
      ReservesMakeReady(e, markets, LedgerRuns.Step(s, ops[0]), ops[1..]);
    }
  }

  /** For every engine run: once all orders have reserved, all its trades settle, in any order and with any
      repetition, and locked funds stay exact. When all are settled, an order has paid exactly for its trades,
      and releasing it returns exactly the rest. */
  lemma EveryTradeSettles(
    cs: seq<Engine.Command>, markets: map<Id, Pair>, s: Ledger, qs: seq<Request>, order: seq<nat>, id: Id)
    requires Engine.Once(cs, {}) && Clearable(Engine.Run(Engine.START, cs))
    requires Ready(Engine.Run(Engine.START, cs), markets, s)
    requires FreeRequests(Engine.Run(Engine.START, cs), markets, qs, order) && id in Engine.Run(Engine.START, cs).placed
    ensures AllGoThrough(s, qs) && Tight(SettleAll(s, qs))
    ensures Complete(order, Engine.Run(Engine.START, cs).log) ==>
              var e := Engine.Run(Engine.START, cs); var o := e.placed[id]; var paid := Total(e.log, Engine.UseFor(o));
              && id in SettleAll(s, qs).reservations && SettleAll(s, qs).reservations[id].consumed == paid
              && Release(SettleAll(s, qs), id).1 == ReleasedAmount(Engine.Required(o) - paid)
  {
    hide Engine.Run, Engine.Inv, TotalOf, Total, SettleAll, AllGoThrough, FreeRequest, Engine.Required;
    hide BookedTrades, TightAt, Sound, Release;
    var e := Engine.Run(Engine.START, cs);
    Engine.ReachableInv(cs);
    forall i | i in e.placed ensures PaidUp(e, markets, s, i) {
      TotalOfNone(e.log, Engine.UseFor(e.placed[i]), BookedTrades(s));
    }
    SettleAllKeeps(e, markets, s, qs, order);
    var s' := SettleAll(s, qs);
    assert PaidUp(e, markets, s', id);
    PlacedIds(e, id);
    ReleaseReturnsRest(s', id);
    if Complete(order, e.log) {
      AllBooked(e, markets, qs, order, BookedTrades(s'));
      TotalOfAll(e.log, Engine.UseFor(e.placed[id]), BookedTrades(s'));
    }
  }

  lemma AllBooked(e: Engine.Engine, markets: map<Id, Pair>, qs: seq<Request>, order: seq<nat>, booked: set<TradeId>)
    requires FreeRequests(e, markets, qs, order) && Complete(order, e.log)
    requires forall k :: 0 <= k < |qs| ==> qs[k].trade in booked
    ensures forall v :: v in e.log ==> v.Key() in booked
  {
    forall v | v in e.log ensures v.Key() in booked {
      var i :| 0 <= i < |e.log| && e.log[i] == v;
      assert Delivered(order, i);
      var k :| 0 <= k < |order| && order[k] == i;
      assert FreeRequest(e, markets, qs[k], order[k]);
    }
  }
}
