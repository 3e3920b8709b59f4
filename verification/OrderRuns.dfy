/** The life of an order over every run of create, cancel and executed trades. */
module OrderRuns {
  import opened Orders
  import opened OrderTable

  datatype Op =
    | DoCreate(id: Id, row: Row)
    | DoCancel(id: Id, account: Id)
    | DoTrade(event: Option<TradeId>, fills: seq<OrderFill>)

  ghost function Step(s: Table, op: Op): Table {
    match op
    case DoCreate(id, row) => Create(s, id, row)
    case DoCancel(id, account) => OrderTable.Cancel(s, id, account).0
    case DoTrade(event, fills) => ApplyTrade(s, event, fills).0
  }

  /** The orders a step reports as filled. */
  function Reported(s: Table, op: Op): seq<Id> {
    if op.DoTrade? && ApplyTrade(s, op.event, op.fills).1.Applied? then ApplyTrade(s, op.event, op.fills).1.reported
    else []
  }

  ghost function Run(s: Table, ops: seq<Op>): Table
    decreases |ops|
  {
    if ops == [] then s else Run(Step(s, ops[0]), ops[1..])
  }

  function Count(ids: seq<Id>, id: Id): nat {
    if ids == [] then 0 else (if ids[0] == id then 1 else 0) + Count(ids[1..], id)
  }

  /** How often a run reports an order as filled. */
  ghost function Reports(s: Table, ops: seq<Op>, id: Id): nat
    decreases |ops|
  {
    if ops == [] then 0 else Count(Reported(s, ops[0]), id) + Reports(Step(s, ops[0]), ops[1..], id)
  }

  ghost predicate PositiveFills(ops: seq<Op>) {
    forall i, j :: 0 <= i < |ops| && ops[i].DoTrade? && 0 <= j < |ops[i].fills| ==> ops[i].fills[j].quantity > 0.0
  }

  ghost predicate AllPositive(fills: seq<OrderFill>) {
    forall j :: 0 <= j < |fills| ==> fills[j].quantity > 0.0
  }

  predicate FilledIn(s: Table, id: Id) { id in s.orders && s.orders[id].status.Filled? }

  // ---------- rows ----------

  /** A row is within its quantity, and an order that is not closed is filled exactly when its quantity is. */
  ghost predicate RowOk(row: Row) {
    && row.quantity > 0.0 && 0.0 <= row.filled <= row.quantity
    && (!Closed(row.status) ==> (row.status.Filled? <==> row.filled == row.quantity))
  }

  ghost predicate TableOk(s: Table) {
    forall id :: id in s.orders ==> RowOk(s.orders[id])
  }

  /** What can become of a row: its identity stays, its fill only grows, and closed and filled are final. */
  ghost predicate Grows(row: Row, row': Row) {
    && row'.client == row.client && row'.account == row.account && row'.quantity == row.quantity
    && row.filled <= row'.filled
    && (Closed(row.status) ==> row' == row)
    && (row.status.Filled? ==> row'.status.Filled?)
  }

  ghost predicate GrowsAt(a: map<Id, Row>, b: map<Id, Row>, id: Id) {
    id in a ==> id in b && Grows(a[id], b[id])
  }

  lemma FillGrows(row: Row, quantity: Decimal)
    requires RowOk(row) && !Closed(row.status) && quantity > 0.0
    ensures RowOk(Fill(row, quantity)) && Grows(row, Fill(row, quantity)) && !Closed(Fill(row, quantity).status)
  {
  }

  lemma {:induction false} FillsGrow(orders: map<Id, Row>, fills: seq<OrderFill>, id: Id)
    requires AllPositive(fills) && ApplyFills(orders, fills).Some? && forall i :: i in orders ==> RowOk(orders[i])
    ensures var (orders', reported) := ApplyFills(orders, fills).value;
            && orders'.Keys == orders.Keys
            && (forall i :: i in orders' ==> RowOk(orders'[i]))
            && GrowsAt(orders, orders', id)
            && Count(reported, id) ==
               if id in orders && !orders[id].status.Filled? && orders'[id].status.Filled? then 1 else 0
    decreases |fills|
  {
    hide Fill, RowOk;
    if fills != [] {
      var f := fills[0];
      var row := Fill(orders[f.order], f.quantity);
      FillGrows(orders[f.order], f.quantity);
      FillsGrow(orders[f.order := row], fills[1..], id);
      var reported := ApplyFills(orders[f.order := row], fills[1..]).value.1;
      assert ([f.order] + reported)[1..] == reported;
    }
  }

  lemma StepGrows(s: Table, op: Op, id: Id)
    requires TableOk(s) && (op.DoTrade? ==> AllPositive(op.fills))
    ensures TableOk(Step(s, op)) && GrowsAt(s.orders, Step(s, op).orders, id)
    ensures Count(Reported(s, op), id) == if FilledIn(Step(s, op), id) && !FilledIn(s, id) then 1 else 0
  {
    hide ApplyFills, Taken;
    match op {
      case DoTrade(event, fills) =>
        if ApplyTrade(s, event, fills).1.Applied? {
          FillsGrow(s.orders, fills, id);
        }
      case _ =>
    }
  }

  // ---------- runs ----------

  lemma GrowsTransitively(a: map<Id, Row>, b: map<Id, Row>, c: map<Id, Row>, id: Id)
    requires GrowsAt(a, b, id) && GrowsAt(b, c, id)
    ensures GrowsAt(a, c, id)
  {
  }

  lemma PositiveParts(ops: seq<Op>)
    requires PositiveFills(ops) && ops != []
    ensures PositiveFills(ops[1..]) && (ops[0].DoTrade? ==> AllPositive(ops[0].fills))
  {
  }

  /** Over every run closed orders stay as they are, fills only grow, `filled` means filled, and an order is reported
      as filled once if it becomes filled and never otherwise. */
  lemma {:induction false} OrdersOnlyGrow(s: Table, ops: seq<Op>, id: Id)
    requires TableOk(s) && PositiveFills(ops)
    ensures TableOk(Run(s, ops)) && GrowsAt(s.orders, Run(s, ops).orders, id)
    ensures Reports(s, ops, id) == if FilledIn(Run(s, ops), id) && !FilledIn(s, id) then 1 else 0
    decreases |ops|
  {
    hide TableOk, PositiveFills, Step, Reported, Count;
    if ops != [] {
      PositiveParts(ops);
      StepGrows(s, ops[0], id);
      OrdersOnlyGrow(Step(s, ops[0]), ops[1..], id);
      GrowsTransitively(s.orders, Step(s, ops[0]).orders, Run(s, ops).orders, id);
    }
  }

  lemma {:induction false} EventsAreRemembered(s: Table, ops: seq<Op>, event: TradeId)
    requires event in s.events
    ensures event in Run(s, ops).events
    decreases |ops|
  {
    hide ApplyFills, Taken;
    if ops != [] {
      EventsAreRemembered(Step(s, ops[0]), ops[1..], event);
    }
  }

  /** Applying a trade event again is a no-op, whatever happened since. */
  lemma ReplayIsNoOp(s: Table, event: TradeId, fills: seq<OrderFill>, ops: seq<Op>)
    requires ApplyTrade(s, Some(event), fills).1.Applied?
    ensures var later := Run(ApplyTrade(s, Some(event), fills).0, ops);
            ApplyTrade(later, Some(event), fills) == (later, AlreadyProcessed)
  {
    hide ApplyFills;
    EventsAreRemembered(ApplyTrade(s, Some(event), fills).0, ops, event);
  }

  /** No trade can be applied to a closed order, wherever among the fills it stands. */
  lemma {:induction false} ClosedTakesNoFill(orders: map<Id, Row>, fills: seq<OrderFill>, j: nat)
    requires j < |fills| && fills[j].order in orders && Closed(orders[fills[j].order].status)
    ensures ApplyFills(orders, fills).None?
    decreases |fills|
  {
    var f := fills[0];
    if j > 0 && f.order in orders && !Closed(orders[f.order].status) {
      ClosedTakesNoFill(orders[f.order := Fill(orders[f.order], f.quantity)], fills[1..], j - 1);
    }
  }

  /** A cancellation is granted to a pending or open order of the account, and is final: whatever follows, the row
      stays as it was but for its status, it cannot be cancelled again, and no trade with it is applied. */
  lemma CancelIsFinal(
    s: Table, id: Id, account: Id, ops: seq<Op>, event: Option<TradeId>, fills: seq<OrderFill>, j: nat)
    requires TableOk(s) && PositiveFills(ops) && Cancel(s, id, account).1.Done? && j < |fills| && fills[j].order == id
    ensures s.orders[id].account == account && (s.orders[id].status.Pending? || s.orders[id].status.Open?)
    ensures var later := Run(Cancel(s, id, account).0, ops);
            && id in later.orders && later.orders[id] == s.orders[id].(status := Cancelled)
            && Cancel(later, id, account) == (later, InvalidStatus)
            && ApplyTrade(later, event, fills).0 == later && !ApplyTrade(later, event, fills).1.Applied?
  {
    hide Run, ApplyFills;
    var s' := Cancel(s, id, account).0;
    OrdersOnlyGrow(s', ops, id);
    ClosedTakesNoFill(Run(s', ops).orders, fills, j);
  }

  // ---------- what each operation answers ----------

  /** A row is stored exactly when the account has not used its client id, the id is new, and the row is acceptable;
      then only that row is added. */
  lemma CreateIs(s: Table, id: Id, row: Row, other: Id)
    ensures var s' := Create(s, id, row);
            var unused := forall i :: i in s.orders ==>
                            s.orders[i].client != row.client || s.orders[i].account != row.account;
            var stored := unused && id !in s.orders && row.quantity > 0.0 && row.filled == 0.0
                          && (row.status == Pending || row.status == Rejected);
            && (stored ==> id in s'.orders && s'.orders[id] == row)
            && (!stored ==> s' == s)
            && (other != id ==> (other in s'.orders <==> other in s.orders))
            && (other != id && other in s.orders ==> s'.orders[other] == s.orders[other])
            && s'.events == s.events
  {
    assert Taken(s, row) <==>
           exists i :: i in s.orders && s.orders[i].client == row.client && s.orders[i].account == row.account by {
      if i :| i in s.orders && s.orders[i].client == row.client && s.orders[i].account == row.account {
        assert Conflict(s.orders, row, i);
      }
    }
  }

  /** The three answers to a cancellation, each exactly when; a granted one changes just the status of that row. */
  lemma CancelAnswers(s: Table, id: Id, account: Id, other: Id)
    ensures var (s', out) := OrderTable.Cancel(s, id, account);
            var own := id in s.orders && s.orders[id].account == account;
            && (out.NotFound? <==> !own)
            && (out.Done? <==> own && (s.orders[id].status == Pending || s.orders[id].status == Open))
            && (out.InvalidStatus? <==> own && s.orders[id].status != Pending && s.orders[id].status != Open)
            && (!out.Done? ==> s' == s)
            && (out.Done? ==> id in s'.orders && s'.orders[id] == s.orders[id].(status := Cancelled))
            && (other != id ==> (other in s'.orders <==> other in s.orders))
            && (other != id && other in s.orders ==> s'.orders[other] == s.orders[other])
            && s'.events == s.events
  {
  }

  /** What the fills hand to one order. */
  function FilledBy(fills: seq<OrderFill>, id: Id): Decimal {
    if fills == [] then 0.0 else (if fills[0].order == id then fills[0].quantity else 0.0) + FilledBy(fills[1..], id)
  }

  ghost predicate Touches(fills: seq<OrderFill>, id: Id) {
    exists j :: 0 <= j < |fills| && fills[j].order == id
  }

  lemma TouchesCons(fills: seq<OrderFill>, id: Id)
    requires fills != []
    ensures Touches(fills, id) <==> fills[0].order == id || Touches(fills[1..], id)
  {
    if j :| 0 <= j < |fills[1..]| && fills[1..][j].order == id {
      assert fills[j + 1].order == id;
    }
    if j :| 0 < j < |fills| && fills[j].order == id {
      assert fills[1..][j - 1].order == id;
    }
  }

  /** Fills can be applied exactly when each names a stored order that is not cancelled, rejected or expired. */
  lemma {:induction false} FillsApplyIff(orders: map<Id, Row>, fills: seq<OrderFill>)
    ensures ApplyFills(orders, fills).Some? <==>
            forall j :: 0 <= j < |fills| ==>
              fills[j].order in orders && orders[fills[j].order].status != Cancelled
              && orders[fills[j].order].status != Rejected && orders[fills[j].order].status != Expired
    decreases |fills|
  {
    if fills != [] {
      var f := fills[0];
      if f.order in orders && !Closed(orders[f.order].status) {
        var orders' := orders[f.order := Fill(orders[f.order], f.quantity)];
        FillsApplyIff(orders', fills[1..]);
        assert forall j :: 0 < j < |fills| ==> fills[j] == fills[1..][j - 1];
        assert forall j :: 0 <= j < |fills[1..]| ==> fills[1..][j] == fills[j + 1];
      }
    }
  }

  lemma {:induction false} FilledByNonNegative(fills: seq<OrderFill>, id: Id)
    requires AllPositive(fills)
    ensures FilledBy(fills, id) >= 0.0
  {
    if fills != [] { FilledByNonNegative(fills[1..], id); }
  }

  /** Each order ends with all the fills name it for, at most its quantity; it is filled when it reaches that and open
      when it does not; an order no fill names stays as it is. */
  lemma {:induction false} FillsApplied(orders: map<Id, Row>, fills: seq<OrderFill>, id: Id)
    requires AllPositive(fills) && ApplyFills(orders, fills).Some? && forall i :: i in orders ==> RowOk(orders[i])
    ensures var orders' := ApplyFills(orders, fills).value.0;
            && orders'.Keys == orders.Keys
            && (id in orders && !Touches(fills, id) ==> orders'[id] == orders[id])
            && (id in orders && Touches(fills, id) ==>
                  var row, row' := orders[id], orders'[id];
                  && row'.filled == Min(row.filled + FilledBy(fills, id), row.quantity)
                  && row'.status == (if row'.filled == row.quantity then Filled else Open)
                  && row' == row.(filled := row'.filled, status := row'.status))
    decreases |fills|
  {
    hide RowOk, Touches;
    if fills == [] {
      assert !Touches(fills, id) by { NoneTouched(id); }
    } else {
      var f := fills[0];
      FillGrows(orders[f.order], f.quantity);
      FillsApplied(orders[f.order := Fill(orders[f.order], f.quantity)], fills[1..], id);
      TouchesCons(fills, id);
      FilledByNonNegative(fills[1..], id);
      if !Touches(fills[1..], id) {
        UntouchedIsZero(fills[1..], id);
      }
    }
  }

  lemma NoneTouched(id: Id)
    ensures !Touches([], id)
  {
  }

  lemma {:induction false} UntouchedIsZero(fills: seq<OrderFill>, id: Id)
    requires !Touches(fills, id)
    ensures FilledBy(fills, id) == 0.0
  {
    hide Touches;
    if fills != [] {
      TouchesCons(fills, id);
      UntouchedIsZero(fills[1..], id);
    }
  }

  /** The three answers to an executed trade, each exactly when; only an applied one changes the table, and it records
      its event. */
  lemma TradeAnswers(s: Table, event: Option<TradeId>, fills: seq<OrderFill>)
    ensures var (s', out) := ApplyTrade(s, event, fills);
            var seen := exists e :: event == Some(e) && e in s.events;
            && (out.AlreadyProcessed? <==> seen)
            && (out.Applied? <==>
                  !seen && forall j :: 0 <= j < |fills| ==>
                    fills[j].order in s.orders && s.orders[fills[j].order].status != Cancelled
                    && s.orders[fills[j].order].status != Rejected && s.orders[fills[j].order].status != Expired)
            && (!out.Applied? ==> s' == s)
            && (out.Applied? ==> s'.orders == ApplyFills(s.orders, fills).value.0)
            && (out.Applied? ==> s'.events == if event.Some? then s.events + {event.value} else s.events)
  {
    hide ApplyFills;
    FillsApplyIff(s.orders, fills);
  }
}
