/** The contract between the services: what the engine trades, the order table can apply without clamping
    and the ledger can settle out of what was reserved. */
module Compose {
  import opened Orders
  import opened Tally
  import opened Entries
  import opened LedgerSteps
  import Engine = EngineRuns
  import Table = OrderTable
  import Runs = LedgerRuns
  import Laws = LedgerLaws
  import Exact = LedgerExact

  // ---------- fills ----------

  /** A trade event as the intake service applies it: the same quantity for both orders. */
  function FillsOf(v: TradeEvent): seq<Table.OrderFill> {
    [Table.OrderFill(v.trade.maker, v.trade.quantity), Table.OrderFill(v.trade.taker, v.trade.quantity)]
  }

  function Deliver(s: Table.Table, v: TradeEvent): (Table.Table, Table.TradeOutcome) {
    Table.ApplyTrade(s, Some(v.Key()), FillsOf(v))
  }

  predicate InLog(order: seq<nat>, log: seq<TradeEvent>) {
    forall k :: 0 <= k < |order| ==> order[k] < |log|
  }

  /** Every event of the log is delivered at least once. */
  ghost predicate Complete(order: seq<nat>, log: seq<TradeEvent>) {
    forall i :: 0 <= i < |log| ==> Delivered(order, i)
  }

  ghost predicate Delivered(order: seq<nat>, i: nat) {
    exists k :: 0 <= k < |order| && order[k] == i
  }

  /** Deliver trade events by their position in the log, in any order and any number of times. */
  function DeliverAll(s: Table.Table, log: seq<TradeEvent>, order: seq<nat>): Table.Table
    requires InLog(order, log)
    decreases |order|
  {
    if order == [] then s else DeliverAll(Deliver(s, log[order[0]]).0, log, order[1..])
  }

  /** No delivery along the way fails. */
  predicate NoneFails(s: Table.Table, log: seq<TradeEvent>, order: seq<nat>)
    requires InLog(order, log)
    decreases |order|
  {
    order == [] ||
    (!Deliver(s, log[order[0]]).1.Failed? && NoneFails(Deliver(s, log[order[0]]).0, log, order[1..]))
  }

  function KeysOf(log: seq<TradeEvent>, order: seq<nat>): set<TradeId>
    requires InLog(order, log)
  {
    set k | 0 <= k < |order| :: log[order[k]].Key()
  }

  /** The table's row of a placed order carries exactly the trades delivered so far. */
  ghost predicate RowTracks(e: Engine.Engine, s: Table.Table, id: Id) {
    && id in e.placed && id in s.orders && !Table.Closed(s.orders[id].status)
    && s.orders[id].quantity == e.placed[id].quantity
    && s.orders[id].filled == TotalOf(e.log, Engine.QtyFor(id), s.events)
  }

  ghost predicate TableTracks(e: Engine.Engine, s: Table.Table) {
    forall id :: id in e.placed ==> RowTracks(e, s, id)
  }

  /** One more trade still fits the order. */
  lemma RoomForTrade(e: Engine.Engine, i: nat, id: Id, handled: set<TradeId>)
    requires Engine.Inv(e) && i < |e.log| && e.log[i].Key() !in handled && id in e.placed
    ensures TotalOf(e.log, Engine.QtyFor(id), handled + {e.log[i].Key()}) ==
            TotalOf(e.log, Engine.QtyFor(id), handled) + Engine.QtyFor(id)(e.log[i].trade)
    ensures TotalOf(e.log, Engine.QtyFor(id), handled) + Engine.QtyFor(id)(e.log[i].trade) <= e.placed[id].quantity
  {
    hide TotalOf, Total, Engine.TracksBook;
    assert Engine.Within(e, id);
    forall v | v in e.log ensures Engine.QtyFor(id)(v.trade) >= 0.0 { assert Engine.Sound(e.placed, v.trade); }
    TotalOfInsert(e.log, Engine.QtyFor(id), handled, i);
    TotalOfBound(e.log, Engine.QtyFor(id), handled + {e.log[i].Key()});
  }

  lemma DeliverTwo(s: Table.Table, v: TradeEvent)
    requires v.Key() !in s.events && v.trade.maker != v.trade.taker
    requires v.trade.maker in s.orders && v.trade.taker in s.orders
    requires !Table.Closed(s.orders[v.trade.maker].status) && !Table.Closed(s.orders[v.trade.taker].status)
    ensures var m, t := v.trade.maker, v.trade.taker;
            var m', t' := Table.Fill(s.orders[m], v.trade.quantity), Table.Fill(s.orders[t], v.trade.quantity);
            && Deliver(s, v).0 == Table.Table(s.orders[m := m'][t := t'], s.events + {v.Key()})
            && Deliver(s, v).1.Applied?
  {
    var fills := FillsOf(v);
    var orders1 := s.orders[v.trade.maker := Table.Fill(s.orders[v.trade.maker], v.trade.quantity)];
    assert fills[1..] == [fills[1]] && [fills[1]][1..] == [];
    assert Table.ApplyFills(orders1, [fills[1]]).Some?;
  }

  lemma DeliverKeepsRow(e: Engine.Engine, s: Table.Table, i: nat, id: Id)
    requires Engine.Inv(e) && TableTracks(e, s) && i < |e.log| && id in e.placed
    ensures RowTracks(e, Deliver(s, e.log[i]).0, id) && !Deliver(s, e.log[i]).1.Failed?
  {
    hide TotalOf, Engine.Inv;
    var v := e.log[i];
    TradeSound(e, i);
    assert RowTracks(e, s, id) && RowTracks(e, s, v.trade.maker) && RowTracks(e, s, v.trade.taker);
    if v.Key() !in s.events {
      DeliverTwo(s, v);
      RoomForTrade(e, i, id, s.events);
    }
  }

  lemma TradeSound(e: Engine.Engine, i: nat)
    requires Engine.Inv(e) && i < |e.log|
    ensures Engine.Sound(e.placed, e.log[i].trade)
  {
  }

  lemma DeliverKeeps(e: Engine.Engine, s: Table.Table, i: nat)
    requires Engine.Inv(e) && TableTracks(e, s) && i < |e.log|
    ensures TableTracks(e, Deliver(s, e.log[i]).0) && !Deliver(s, e.log[i]).1.Failed?
    ensures Deliver(s, e.log[i]).0.events == s.events + {e.log[i].Key()}
  {
    hide Engine.Inv, RowTracks;
    forall id | id in e.placed ensures RowTracks(e, Deliver(s, e.log[i]).0, id) {
      DeliverKeepsRow(e, s, i, id);
    }
    TradeSound(e, i);
    DeliverKeepsRow(e, s, i, e.log[i].trade.maker);
  }

  lemma {:induction false} DeliverAllKeeps(e: Engine.Engine, s: Table.Table, order: seq<nat>)
    requires Engine.Inv(e) && TableTracks(e, s) && InLog(order, e.log)
    ensures TableTracks(e, DeliverAll(s, e.log, order)) && NoneFails(s, e.log, order)
    ensures DeliverAll(s, e.log, order).events == s.events + KeysOf(e.log, order)
    decreases |order|
  {
    hide Engine.Inv, TableTracks, Deliver;
    if order != [] {
      DeliverKeeps(e, s, order[0]);
      DeliverAllKeeps(e, Deliver(s, e.log[order[0]]).0, order[1..]);
      KeysOfTail(e.log, order);
    }
  }

  lemma KeysOfTail(log: seq<TradeEvent>, order: seq<nat>)
    requires InLog(order, log) && order != []
    ensures KeysOf(log, order) == {log[order[0]].Key()} + KeysOf(log, order[1..])
  {
    forall x | x in KeysOf(log, order) ensures x in {log[order[0]].Key()} + KeysOf(log, order[1..]) {
      var k :| 0 <= k < |order| && log[order[k]].Key() == x;
      if k > 0 {
        assert order[1..][k - 1] == order[k];
      }
    }
    forall x | x in KeysOf(log, order[1..]) ensures x in KeysOf(log, order) {
      var k :| 0 <= k < |order[1..]| && log[order[1..][k]].Key() == x;
      assert order[k + 1] == order[1..][k];
    }
  }

  /** The orders of an engine run as the intake service stored them, no trade applied yet. */
  ghost predicate Stored(e: Engine.Engine, s: Table.Table) {
    && (forall id :: id in e.placed ==>
          && id in s.orders && !Table.Closed(s.orders[id].status)
          && s.orders[id].quantity == e.placed[id].quantity && s.orders[id].filled == 0.0)
    && (forall v :: v in e.log ==> v.Key() !in s.events)
  }

  /** Delivered in any order and any number of times, no trade of an engine run fails and none hits the clamp. The
      table remembers exactly the delivered events; every order ends with the sum of the trades delivered for it, and
      with all its trades once all are delivered. */
  lemma FillsCompose(cs: seq<Engine.Command>, s: Table.Table, order: seq<nat>, id: Id)
    requires Engine.Once(cs, {}) && Stored(Engine.Run(Engine.START, cs), s)
    requires id in Engine.Run(Engine.START, cs).placed && InLog(order, Engine.Run(Engine.START, cs).log)
    ensures var e := Engine.Run(Engine.START, cs); var s' := DeliverAll(s, e.log, order);
            && NoneFails(s, e.log, order) && s'.events == s.events + KeysOf(e.log, order)
            && id in s'.orders
            && s'.orders[id].filled == TotalOf(e.log, Engine.QtyFor(id), KeysOf(e.log, order)) <= s'.orders[id].quantity
            && (Complete(order, e.log) ==> s'.orders[id].filled == Total(e.log, Engine.QtyFor(id)))
  {
    hide TotalOf, Total, Engine.Inv, Engine.Run, DeliverAll, NoneFails, KeysOf;
    var e := Engine.Run(Engine.START, cs);
    Engine.ReachableInv(cs);
    forall i | i in e.placed ensures RowTracks(e, s, i) {
      TotalOfNone(e.log, Engine.QtyFor(i), s.events);
    }
    DeliverAllKeeps(e, s, order);
    var s', keys := DeliverAll(s, e.log, order), KeysOf(e.log, order);
    assert RowTracks(e, s', id);
    TotalOfUnion(e.log, Engine.QtyFor(id), s.events, keys);
    DeliveredWithin(e, s'.events, id);
    if Complete(order, e.log) {
      CompleteKeys(order, e.log);
      TotalOfAll(e.log, Engine.QtyFor(id), keys);
    }
  }

  lemma CompleteKeys(order: seq<nat>, log: seq<TradeEvent>)
    requires InLog(order, log) && Complete(order, log)
    ensures forall v :: v in log ==> v.Key() in KeysOf(log, order)
  {
    forall v | v in log ensures v.Key() in KeysOf(log, order) {
      var i :| 0 <= i < |log| && log[i] == v;
      assert Delivered(order, i);
    }
  }

  lemma DeliveredWithin(e: Engine.Engine, handled: set<TradeId>, id: Id)
    requires Engine.Inv(e) && id in e.placed
    ensures TotalOf(e.log, Engine.QtyFor(id), handled) <= e.placed[id].quantity
  {
    hide TotalOf, Total, Engine.TracksBook;
    assert Engine.Within(e, id);
    forall v | v in e.log ensures Engine.QtyFor(id)(v.trade) >= 0.0 { assert Engine.Sound(e.placed, v.trade); }
    TotalOfBound(e.log, Engine.QtyFor(id), handled);
  }

  // ---------- reservations ----------

  /** The assets a symbol trades. */
  datatype Pair = Pair(base: Id, quote: Id)

  function PairOf(markets: map<Id, Pair>, symbol: Id): Pair {
    if symbol in markets then markets[symbol] else Pair(NONE, NONE)
  }

  function PayAsset(markets: map<Id, Pair>, o: Order): Id {
    if o.side.Buy? then PairOf(markets, o.symbol).quote else PairOf(markets, o.symbol).base
  }

  /** The orders whose reservation is computed from their own terms: all but market buys. */
  predicate Accountable(o: Order) { o.side.Sell? || o.kind.Limit? }

  /** A settlement of this event: the fees are whatever the fee service said. */
  ghost predicate SettlesEvent(e: Engine.Engine, markets: map<Id, Pair>, v: TradeEvent, q: Request) {
    && q.trade == v.Key() && q.makerOrder == v.trade.maker && q.takerOrder == v.trade.taker
    && v.trade.maker in e.placed && v.trade.taker in e.placed
    && q.maker == e.placed[v.trade.maker].account && q.taker == e.placed[v.trade.taker].account
    && Pair(q.base, q.quote) == PairOf(markets, v.trade.symbol) && q.base != q.quote
    && q.price == v.trade.price && q.quantity == v.trade.quantity && q.makerSide == v.trade.makerSide
  }

  /** Ledger operations around an engine run: settlements are of its trades; a placed order reserves on its own
      account and, unless it is a market buy, what it requires; anything may be released at any time, any number
      of times. */
  ghost predicate Legal(e: Engine.Engine, markets: map<Id, Pair>, op: Runs.Op) {
    match op
    case DoReserve(account, order, asset, amount) =>
      order in e.placed ==>
        var o := e.placed[order];
        account == o.account && (Accountable(o) ==> asset == PayAsset(markets, o) && amount == Engine.Required(o))
    case DoRelease(_) => true
    case DoSettle(q) => exists v :: v in e.log && SettlesEvent(e, markets, v, q)
  }

  ghost predicate LegalRun(e: Engine.Engine, markets: map<Id, Pair>, ops: seq<Runs.Op>) {
    forall i :: 0 <= i < |ops| ==> Legal(e, markets, ops[i])
  }

  function BookedTrades(s: Ledger): set<TradeId> { set row | row in s.journal :: row.trade }

  /** An order's reservation is its own, is kept, and has been used for no more than the trades booked. */
  ghost predicate Funded(e: Engine.Engine, markets: map<Id, Pair>, s: Ledger, id: Id) {
    id in e.placed && id in s.reservations && Accountable(e.placed[id]) ==>
      var o, r := e.placed[id], s.reservations[id];
      && r.account == o.account && r.asset == PayAsset(markets, o) && r.amount == Engine.Required(o)
      && Exact.InUse(r) && r.consumed <= TotalOf(e.log, Engine.UseFor(o), BookedTrades(s))
  }

  /** What an order pays in a trade it takes part in. */
  lemma LegIsUse(e: Engine.Engine, markets: map<Id, Pair>, v: TradeEvent, q: Request)
    requires Engine.Sound(e.placed, v.trade) && SettlesEvent(e, markets, v, q)
    requires e.placed[v.trade.maker].id == v.trade.maker && e.placed[v.trade.taker].id == v.trade.taker
    ensures q.MakerAmount() == Engine.UseFor(e.placed[q.makerOrder])(v.trade)
    ensures q.TakerAmount() == Engine.UseFor(e.placed[q.takerOrder])(v.trade)
    ensures q.MakerRow() == Key(e.placed[q.makerOrder].account, PayAsset(markets, e.placed[q.makerOrder]))
    ensures q.TakerRow() == Key(e.placed[q.takerOrder].account, PayAsset(markets, e.placed[q.takerOrder]))
    ensures q.base != q.quote
  {
  }

  /** The trades booked and one more that is not: together still within what was reserved. */
  lemma RoomInReservation(e: Engine.Engine, i: nat, id: Id, booked: set<TradeId>)
    requires Engine.Inv(e) && i < |e.log| && e.log[i].Key() !in booked && id in e.placed && Accountable(e.placed[id])
    ensures var f := Engine.UseFor(e.placed[id]);
            && TotalOf(e.log, f, booked + {e.log[i].Key()}) == TotalOf(e.log, f, booked) + f(e.log[i].trade)
            && TotalOf(e.log, f, booked) + f(e.log[i].trade) <= Engine.Required(e.placed[id])
  {
    hide TotalOf, Total, Engine.TracksBook;
    var f := Engine.UseFor(e.placed[id]);
    forall v | v in e.log ensures f(v.trade) >= 0.0 { Engine.UseNonNegative(e, v, id); }
    TotalOfInsert(e.log, f, booked, i);
    TotalOfBound(e.log, f, booked + {e.log[i].Key()});
    Engine.UseWithinRequired(e, id);
  }

  /** Before a trade is booked, the unreleased reservations of its orders are active and cover their legs in full. */
  lemma CoverIsFull(e: Engine.Engine, markets: map<Id, Pair>, s: Ledger, i: nat, id: Id)
    requires Engine.Inv(e) && i < |e.log| && e.log[i].Key() !in BookedTrades(s)
    requires id in e.placed && Accountable(e.placed[id]) && id != NONE && Funded(e, markets, s, id)
    requires id in s.reservations && Engine.UseFor(e.placed[id])(e.log[i].trade) > 0.0
    ensures var desired := Engine.UseFor(e.placed[id])(e.log[i].trade);
            && s.reservations[id].status.Active?
            && Cover(s.reservations, id, PayAsset(markets, e.placed[id]), desired) == Some(desired)
  {
    hide TotalOf, Engine.Inv;
    RoomInReservation(e, i, id, BookedTrades(s));
  }

  // ---------- every ledger run around an engine run ----------

  lemma JournalGrows(s: Ledger, q: Request)
    requires Settle(s, q).1.Settled?
    ensures BookedTrades(Settle(s, q).0) == BookedTrades(s) + {q.trade} && q.trade !in BookedTrades(s)
  {
    hide Book, Netted, RawEntries;
    Laws.BookParts(s, q);
    var es := Netted(RawEntries(q));
    BookedAt(q.trade, es);
    var s' := Settle(s, q).0;
    assert Booked(q.trade, es)[0] in s'.journal;
    forall t | t in BookedTrades(s') ensures t in BookedTrades(s) + {q.trade} {
      var row :| row in s'.journal && row.trade == t;
    }
    forall t | t in BookedTrades(s) ensures t in BookedTrades(s') {
      var row :| row in s.journal && row.trade == t;
      assert row in s'.journal;
    }
  }

  /** How far a settlement uses an order's reservation. */
  lemma SettleUses(s: Ledger, q: Request, id: Id)
    requires Settle(s, q).1.Settled? && q.makerOrder != q.takerOrder && q.base != q.quote
    ensures id in Settle(s, q).0.reservations <==> id in s.reservations
    ensures id in s.reservations ==>
              var r, r' := s.reservations[id], Settle(s, q).0.reservations[id];
              && r'.Row() == r.Row() && r'.amount == r.amount && (Exact.InUse(r) ==> Exact.InUse(r'))
              && r'.consumed <= r.consumed + Exact.Leg(q, id)
  {
    hide Book, NetOf, RawEntries, Consume;
    Laws.BookReservations(s, q);
    UsedAtMost(s, q);
    var rs := Consume(s.reservations, q.makerOrder, Laws.MakerUsed(s, q));
    ConsumeOne(s.reservations, q.makerOrder, Laws.MakerUsed(s, q), id);
    ConsumeOne(rs, q.takerOrder, Laws.TakerUsed(s, q), id);
  }

  lemma UsedAtMost(s: Ledger, q: Request)
    requires q.price > 0.0 && q.quantity > 0.0 && q.base != q.quote
    ensures 0.0 <= Laws.MakerUsed(s, q) <= q.MakerAmount() && 0.0 <= Laws.TakerUsed(s, q) <= q.TakerAmount()
  {
    hide NetOf, RawEntries;
    assert q.price * q.quantity > 0.0;
  }

  lemma ConsumeOne(rs: map<Id, Reservation>, order: Id, amount: Decimal, id: Id)
    requires amount >= 0.0
    ensures id in Consume(rs, order, amount) <==> id in rs
    ensures id in rs ==>
              var r, r' := rs[id], Consume(rs, order, amount)[id];
              && r'.Row() == r.Row() && r'.amount == r.amount && (Exact.InUse(r) ==> Exact.InUse(r'))
              && r'.consumed <= r.consumed + (if id == order then amount else 0.0)
              && (id != order ==> r' == r)
  {
  }

  lemma SettleKeepsFunded(e: Engine.Engine, markets: map<Id, Pair>, s: Ledger, i: nat, q: Request, id: Id)
    requires Engine.Inv(e) && i < |e.log| && SettlesEvent(e, markets, e.log[i], q) && Funded(e, markets, s, id)
    ensures Funded(e, markets, Settle(s, q).0, id)
  {
    hide TotalOf, Engine.Inv, Settle, Engine.Required;
    if !Settle(s, q).1.Settled? {
      UnsettledKeeps(s, q);
      assert BookedTrades(Settle(s, q).0) == BookedTrades(s);
    } else if id in e.placed && Accountable(e.placed[id]) {
      TradeSound(e, i);
      PlacedIds(e, id);
      PlacedIds(e, q.makerOrder);
      PlacedIds(e, q.takerOrder);
      LegIsUse(e, markets, e.log[i], q);
      JournalGrows(s, q);
      SettleUses(s, q, id);
      RoomInReservation(e, i, id, BookedTrades(s));
    }
  }

  lemma PlacedIds(e: Engine.Engine, id: Id)
    requires Engine.Inv(e) && id in e.placed
    ensures e.placed[id].id == id && id != NONE
  {
    assert Engine.Within(e, id);
  }

  lemma StepKeepsFunded(e: Engine.Engine, markets: map<Id, Pair>, s: Ledger, op: Runs.Op, id: Id)
    requires Engine.Inv(e) && Legal(e, markets, op) && Funded(e, markets, s, id)
    requires op == Runs.DoRelease(id) ==> id !in s.reservations
    ensures Funded(e, markets, Runs.Step(s, op), id)
  {
    hide TotalOf, Engine.Inv, Settle, Engine.Required, SettlesEvent;
    match op {
      case DoSettle(q) =>
        var v :| v in e.log && SettlesEvent(e, markets, v, q);
        var i :| 0 <= i < |e.log| && e.log[i] == v;
        SettleKeepsFunded(e, markets, s, i, q, id);
      case DoReserve(account, order, asset, amount) =>
        assert BookedTrades(Runs.Step(s, op)) == BookedTrades(s);
        BookedNonNegative(e, s, id);
      case DoRelease(order) =>
        assert BookedTrades(Runs.Step(s, op)) == BookedTrades(s);
    }
  }

  lemma BookedNonNegative(e: Engine.Engine, s: Ledger, id: Id)
    requires Engine.Inv(e)
    ensures id in e.placed ==> TotalOf(e.log, Engine.UseFor(e.placed[id]), BookedTrades(s)) >= 0.0
  {
    hide TotalOf, Engine.Inv, Total;
    if id in e.placed {
      forall v | v in e.log ensures Engine.UseFor(e.placed[id])(v.trade) >= 0.0 { Engine.UseNonNegative(e, v, id); }
      TotalOfBound(e.log, Engine.UseFor(e.placed[id]), BookedTrades(s));
    }
  }

  /** Along a run: the order is not released once it has reserved. */
  ghost predicate NeverReleased(s: Ledger, ops: seq<Runs.Op>, id: Id)
    decreases |ops|
  {
    ops == [] ||
    ((ops[0] == Runs.DoRelease(id) ==> id !in s.reservations) && NeverReleased(Runs.Step(s, ops[0]), ops[1..], id))
  }

  /** A reservation that is not active never becomes active again. */
  lemma StaysInactive(s: Ledger, op: Runs.Op, id: Id)
    requires id in s.reservations && !s.reservations[id].status.Active?
    ensures id in Runs.Step(s, op).reservations && !Runs.Step(s, op).reservations[id].status.Active?
  {
    hide Book;
    if op.DoSettle? && Settle(s, op.request).1.Settled? {
      Laws.BookReservations(s, op.request);
    }
  }

  lemma {:induction false} RunStaysInactive(s: Ledger, ops: seq<Runs.Op>, id: Id)
    requires id in s.reservations && !s.reservations[id].status.Active?
    ensures id in Runs.Run(s, ops).reservations && !Runs.Run(s, ops).reservations[id].status.Active?
    decreases |ops|
  {
    hide Runs.Step;
    if ops != [] {
      StaysInactive(s, ops[0], id);
      RunStaysInactive(Runs.Step(s, ops[0]), ops[1..], id);
    }
  }

  /** So a reservation that is active at the end of a run was never released in it. */
  lemma {:induction false} ActiveNeverReleased(s: Ledger, ops: seq<Runs.Op>, id: Id)
    requires id != NONE && id in Runs.Run(s, ops).reservations && Runs.Run(s, ops).reservations[id].status.Active?
    ensures NeverReleased(s, ops, id)
    decreases |ops|
  {
    hide Runs.Step;
    if ops != [] {
      if ops[0] == Runs.DoRelease(id) && id in s.reservations {
        ReleasedIsInactive(s, id);
        RunStaysInactive(Runs.Step(s, ops[0]), ops[1..], id);
      }
      ActiveNeverReleased(Runs.Step(s, ops[0]), ops[1..], id);
    }
  }

  lemma ReleasedIsInactive(s: Ledger, id: Id)
    requires id != NONE && id in s.reservations
    ensures var s' := Runs.Step(s, Runs.DoRelease(id)); id in s'.reservations && !s'.reservations[id].status.Active?
  {
  }

  lemma {:induction false} RunKeepsFunded(
    e: Engine.Engine, markets: map<Id, Pair>, s: Ledger, ops: seq<Runs.Op>, id: Id)
    requires Engine.Inv(e) && LegalRun(e, markets, ops) && NeverReleased(s, ops, id) && Funded(e, markets, s, id)
    ensures Funded(e, markets, Runs.Run(s, ops), id)
    decreases |ops|
  {
    hide Engine.Inv, Funded, Legal, Runs.Step;
    if ops != [] {
      assert Legal(e, markets, ops[0]);
      StepKeepsFunded(e, markets, s, ops[0], id);
      assert LegalRun(e, markets, ops[1..]);
      RunKeepsFunded(e, markets, Runs.Step(s, ops[0]), ops[1..], id);
    }
  }

  /** In every engine run and every ledger run around it, fees or not, started before the order reserved: as long as
      an order that has reserved is not released, its reservation is still active and covers, in full, the order's leg
      of every trade still to be settled. */
  lemma ReservationsNeverRunShort(
    cs: seq<Engine.Command>, markets: map<Id, Pair>, s: Ledger, ops: seq<Runs.Op>, i: nat, id: Id)
    requires Engine.Once(cs, {}) && i < |Engine.Run(Engine.START, cs).log|
    requires var e := Engine.Run(Engine.START, cs);
             && LegalRun(e, markets, ops) && id in e.placed && Accountable(e.placed[id]) && id !in s.reservations
             && (e.log[i].trade.maker == id || e.log[i].trade.taker == id)
             && e.log[i].Key() !in BookedTrades(Runs.Run(s, ops))
    requires NeverReleased(s, ops, id) && id in Runs.Run(s, ops).reservations
    ensures var e := Engine.Run(Engine.START, cs); var o := e.placed[id]; var s' := Runs.Run(s, ops);
            var desired := Engine.UseFor(o)(e.log[i].trade);
            && s'.reservations[id].status.Active?
            && Cover(s'.reservations, id, PayAsset(markets, o), desired) == Some(desired)
  {
    hide Engine.Inv, Engine.Run, Runs.Run, Engine.Required, TotalOf, LegalRun, Cover, NeverReleased;
    var e := Engine.Run(Engine.START, cs);
    Engine.ReachableInv(cs);
    RunKeepsFunded(e, markets, s, ops, id);
    PlacedIds(e, id);
    TradeSound(e, i);
    UsePositive(e, i, id);
    CoverIsFull(e, markets, Runs.Run(s, ops), i, id);
  }

  lemma UsePositive(e: Engine.Engine, i: nat, id: Id)
    requires Engine.Inv(e) && i < |e.log| && id in e.placed
    requires e.log[i].trade.maker == id || e.log[i].trade.taker == id
    ensures Engine.UseFor(e.placed[id])(e.log[i].trade) > 0.0
  {
    hide Total, Engine.TracksBook;
    var v := e.log[i];
    assert Engine.Sound(e.placed, v.trade) && Engine.Within(e, v.trade.maker) && Engine.Within(e, id);
    assert v.trade.price * v.trade.quantity > 0.0;
  }

  // ---------- the accounts that reserved ----------

  ghost predicate OwnAccounts(e: Engine.Engine, s: Ledger) {
    forall id :: id in e.placed && id in s.reservations ==> s.reservations[id].account == e.placed[id].account
  }

  lemma StepKeepsAccounts(e: Engine.Engine, markets: map<Id, Pair>, s: Ledger, op: Runs.Op)
    requires Legal(e, markets, op) && OwnAccounts(e, s)
    ensures OwnAccounts(e, Runs.Step(s, op)) && (op.DoSettle? ==> Laws.Proper(s, op.request))
  {
    hide Book;
    if op.DoSettle? && Settle(s, op.request).1.Settled? {
      Laws.BookReservations(s, op.request);
    }
  }

  /** Every ledger run around an engine run settles on the accounts that reserved, market buys included. */
  lemma {:induction false} LegalRunIsProper(e: Engine.Engine, markets: map<Id, Pair>, s: Ledger, ops: seq<Runs.Op>)
    requires LegalRun(e, markets, ops) && OwnAccounts(e, s)
    ensures Runs.ProperRun(s, ops)
    decreases |ops|
  {
    hide Legal, OwnAccounts, Laws.Proper, Runs.Step;
    if ops != [] {
      assert Legal(e, markets, ops[0]);
      StepKeepsAccounts(e, markets, s, ops[0]);
      assert LegalRun(e, markets, ops[1..]);
      LegalRunIsProper(e, markets, Runs.Step(s, ops[0]), ops[1..]);
    }
  }

  /** So around every engine run, with market buys, fees and repeated releases, locked funds stay within the active
      reservations of their row. */
  lemma LockedWithinAroundEngine(cs: seq<Engine.Command>, markets: map<Id, Pair>, s: Ledger, ops: seq<Runs.Op>, k: Key)
    requires LegalRun(Engine.Run(Engine.START, cs), markets, ops) && OwnAccounts(Engine.Run(Engine.START, cs), s)
    requires Laws.Sound(s) && Laws.Bounded(s, k)
    ensures Laws.Bounded(Runs.Run(s, ops), k)
  {
    hide LegalRun, OwnAccounts, Laws.Sound, Laws.Bounded, Runs.ProperRun, Runs.Run, Engine.Run;
    LegalRunIsProper(Engine.Run(Engine.START, cs), markets, s, ops);
    Runs.LockedWithinReservations(s, ops, k);
  }
}
