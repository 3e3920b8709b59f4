/** The orders table of the intake service: create-or-conflict, cancel, and applying executed trades. */
module OrderTable {
  import opened Orders

  datatype Status = Pending | Open | Filled | Cancelled | Rejected | Expired

  datatype Row = Row(client: Id, account: Id, quantity: Decimal, filled: Decimal, status: Status)

  datatype OrderFill = OrderFill(order: Id, quantity: Decimal)

  datatype Table = Table(orders: map<Id, Row>, events: set<TradeId>)

  predicate Closed(status: Status) { status.Cancelled? || status.Rejected? || status.Expired? }

  // ---------- create ----------

  datatype CreateOutcome = Created | Existing(id: Id) | Refused

  predicate Conflict(orders: map<Id, Row>, row: Row, id: Id) {
    id in orders && orders[id].client == row.client && orders[id].account == row.account
  }

  /** Two stored orders of one account and client id. */
  predicate Shared(orders: map<Id, Row>, a: Id, b: Id) {
    a in orders && b in orders && orders[a].client == orders[b].client && orders[a].account == orders[b].account
  }

  /** The table demands a positive quantity; the service that fills it stores orders unfilled, pending or rejected. */
  predicate Insertable(row: Row) {
    row.quantity > 0.0 && row.filled == 0.0 && (row.status.Pending? || row.status.Rejected?)
  }

  /** An order of the same account and client id wins over a new one. */
  ghost predicate Taken(s: Table, row: Row) {
    exists i :: Conflict(s.orders, row, i)
  }

  ghost function Create(s: Table, id: Id, row: Row): Table {
    if Taken(s, row) || id in s.orders || !Insertable(row) then s else s.(orders := s.orders[id := row])
  }

  // ---------- cancel ----------

  datatype CancelOutcome = Done | InvalidStatus | NotFound

  function Cancel(s: Table, id: Id, account: Id): (Table, CancelOutcome) {
    if id !in s.orders || s.orders[id].account != account then (s, NotFound)
    else if s.orders[id].status.Pending? || s.orders[id].status.Open? then
      (s.(orders := s.orders[id := s.orders[id].(status := Cancelled)]), Done)
    else (s, InvalidStatus)
  }

  // ---------- executed trades ----------

  datatype TradeOutcome = Applied(reported: seq<Id>) | AlreadyProcessed | Failed

  function Fill(row: Row, quantity: Decimal): Row {
    var filled := if row.filled + quantity > row.quantity then row.quantity else row.filled + quantity;
    row.(filled := filled, status := if filled == row.quantity then Filled else Open)
  }

  /** Apply the fills in order, reporting the orders that become filled; None when one cannot be applied. */
  function ApplyFills(orders: map<Id, Row>, fills: seq<OrderFill>): Option<(map<Id, Row>, seq<Id>)>
    decreases |fills|
  {
    if fills == [] then Some((orders, []))
    else
      var f := fills[0];
      if f.order !in orders || Closed(orders[f.order].status) then None
      else
        var row := Fill(orders[f.order], f.quantity);
        var later := ApplyFills(orders[f.order := row], fills[1..]);
        if later.None? then None
        else if row.status.Filled? && !orders[f.order].status.Filled? then
          Some((later.value.0, [f.order] + later.value.1))
        else later
  }

  function ApplyTrade(s: Table, event: Option<TradeId>, fills: seq<OrderFill>): (Table, TradeOutcome) {
    if event.Some? && event.value in s.events then (s, AlreadyProcessed)
    else
      var r := ApplyFills(s.orders, fills);
      if r.None? then (s, Failed)
      else (Table(r.value.0, if event.Some? then s.events + {event.value} else s.events), Applied(r.value.1))
  }

  // ---------- the table itself ----------

  lemma ApplyFillsCons(orders: map<Id, Row>, fills: seq<OrderFill>, i: nat)
    requires i < |fills|
    ensures ApplyFills(orders, fills[i..]) ==
            var f := fills[i];
            if f.order !in orders || Closed(orders[f.order].status) then None
            else
              var row := Fill(orders[f.order], f.quantity);
              var later := ApplyFills(orders[f.order := row], fills[i + 1..]);
              if later.None? then None
              else if row.status.Filled? && !orders[f.order].status.Filled? then
                Some((later.value.0, [f.order] + later.value.1))
              else later
  {
    assert fills[i..][0] == fills[i] && fills[i..][1..] == fills[i + 1..];
  }

  /** The whole application, given how far the loop has come. */
  function Resumed(orders: map<Id, Row>, fills: seq<OrderFill>, reported: seq<Id>): Option<(map<Id, Row>, seq<Id>)> {
    var later := ApplyFills(orders, fills);
    if later.None? then None else Some((later.value.0, reported + later.value.1))
  }

  class OrderStore {
    var orders: map<Id, Row>
    var events: set<TradeId>

    function View(): Table
      reads this
    {
      Table(orders, events)
    }

    constructor ()
      ensures View() == Table(map[], {})
    {
      orders, events := map[], {};
    }

    method CreateOrder(id: Id, row: Row) returns (outcome: CreateOutcome)
      modifies this
      ensures View() == Create(old(View()), id, row)
      ensures outcome.Existing? <==> Taken(old(View()), row)
      ensures outcome.Existing? ==> Conflict(old(orders), row, outcome.id)
      ensures outcome.Created? <==> !Taken(old(View()), row) && id !in old(orders) && Insertable(row)
    {
      if exists i :: i in orders && Conflict(orders, row, i) {
        var i :| i in orders && Conflict(orders, row, i);
        return Existing(i);
      }
      if id in orders || !Insertable(row) {
        return Refused;
      }
      orders := orders[id := row];
      return Created;
    }

    method CancelOrder(id: Id, account: Id) returns (outcome: CancelOutcome)
      modifies this
      ensures (View(), outcome) == Cancel(old(View()), id, account)
    {
      if id !in orders || orders[id].account != account {
        return NotFound;
      }
      if !orders[id].status.Pending? && !orders[id].status.Open? {
        return InvalidStatus;
      }
      orders := orders[id := orders[id].(status := Cancelled)];
      return Done;
    }

    /** Apply one executed trade in a transaction: the rows change together or not at all. */
    method ApplyTradeExecution(event: Option<TradeId>, fills: seq<OrderFill>) returns (outcome: TradeOutcome)
      modifies this
      ensures (View(), outcome) == ApplyTrade(old(View()), event, fills)
    {
      hide ApplyFills, Fill;
      if event.Some? && event.value in events {
        return AlreadyProcessed;
      }
      var rows, reported := orders, [];
      ResumedStarts(orders, fills);
      for i := 0 to |fills|
        invariant View() == old(View())
        invariant ApplyFills(orders, fills) == Resumed(rows, fills[i..], reported)
      {
        ApplyFillsCons(rows, fills, i);
        var fill := fills[i];
        if fill.order !in rows || Closed(rows[fill.order].status) {
          return Failed;
        }
        var row := Fill(rows[fill.order], fill.quantity);
        var before := reported;
        if row.status.Filled? && !rows[fill.order].status.Filled? {
          reported := reported + [fill.order];
        }
        ghost var later := ApplyFills(rows[fill.order := row], fills[i + 1..]);
        assert later.Some? ==> before + ([fill.order] + later.value.1) == before + [fill.order] + later.value.1;
        rows := rows[fill.order := row];
      }
      assert fills[|fills|..] == [];
      ResumedEnds(rows, reported);
      orders := rows;
      if event.Some? {
        events := events + {event.value};
      }
      return Applied(reported);
    }
  }

  lemma ResumedStarts(orders: map<Id, Row>, fills: seq<OrderFill>)
    ensures ApplyFills(orders, fills) == Resumed(orders, fills[0..], [])
  {
    assert fills[0..] == fills;
    var later := ApplyFills(orders, fills);
    assert later.Some? ==> [] + later.value.1 == later.value.1;
  }

  lemma ResumedEnds(orders: map<Id, Row>, reported: seq<Id>)
    ensures Resumed(orders, [], reported) == Some((orders, reported))
  {
    assert reported + [] == reported;
  }
}
