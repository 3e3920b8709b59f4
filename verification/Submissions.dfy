/** Order submissions running at the same time, interleaved at their lookup, reserve, insert and release. */
module Submissions {
  import opened Orders
  import opened Entries
  import opened LedgerSteps
  import Table = OrderTable
  import Runs = LedgerRuns

  /** What a client asks for; each submission draws its own fresh order id, and the risk check has its answer. Nothing
      is to be reserved when no ledger is configured or the symbol cannot be split into its assets. */
  datatype Input = Input(
    account: Id, client: Id, order: Id, asset: Id, amount: Decimal, quantity: Decimal, allowed: bool, reserves: bool)
  {
    function Row(status: Table.Status): Table.Row { Table.Row(client, account, quantity, 0.0, status) }
  }

  /** `Stranded` is an error of a ledger call that leaves the submission's reservation behind. */
  datatype Result = Accepted | Declined | Existing | Error | Stranded

  /** Where a submission stands: `Holding` may store its order; `Lost` and `Broken` still have to release. */
  datatype Phase = Started | Looked | Holding | Refused | Lost | Broken | Ended(result: Result)

  datatype Submission = Submission(input: Input, phase: Phase)

  datatype World = World(table: Table.Table, ledger: Ledger, subs: map<nat, Submission>)

  /** An order of this account and client id is stored. */
  ghost predicate Known(table: Table.Table, i: Input) {
    Table.Taken(table, i.Row(Table.Pending))
  }

  ghost function To(w: World, n: nat, phase: Phase): World
    requires n in w.subs
  {
    w.(subs := w.subs[n := w.subs[n].(phase := phase)])
  }

  /** Store the order with this status, or find that another one was faster, or that the row is not acceptable. */
  ghost function InsertOrder(w: World, n: nat, status: Table.Status, won: Phase, lost: Phase, failed: Phase): World
    requires n in w.subs
  {
    var i := w.subs[n].input;
    if !Table.Insertable(i.Row(status)) then To(w, n, failed)
    else if Known(w.table, i) then To(w, n, lost)
    else To(w, n, won).(table := Table.Create(w.table, i.order, i.Row(status)))
  }

  /** The next step of one submission. */
  ghost function Advance(w: World, n: nat): World {
    if n !in w.subs then w
    else
      var i := w.subs[n].input;
      match w.subs[n].phase
      case Started => To(w, n, if Known(w.table, i) then Ended(Existing) else if i.allowed then Looked else Refused)
      case Looked =>
        if !i.reserves then To(w, n, Holding)
        else
          var (ledger, out) := Reserve(w.ledger, i.account, i.order, i.asset, i.amount);
          var refused := out.Insufficient? || out.Closed?;
          To(w, n, if out.Reserved? then Holding else if refused then Refused else Ended(Error)).(ledger := ledger)
      case Holding => InsertOrder(w, n, Table.Pending, Ended(Accepted), Lost, Broken)
      case Refused => InsertOrder(w, n, Table.Rejected, Ended(Declined), Ended(Declined), Ended(Error))
      case Lost => To(w, n, Ended(Existing)).(ledger := Release(w.ledger, i.order).0)
      case Broken => To(w, n, Ended(Error)).(ledger := Release(w.ledger, i.order).0)
      case Ended(_) => w
  }

  /** The next step of a submission fails instead, before it reaches the ledger: the lookup, the risk check, the
      reference price or the insert. */
  ghost function Break(w: World, n: nat): World {
    if n !in w.subs then w
    else
      match w.subs[n].phase
      case Started => To(w, n, Ended(Error))
      case Looked => To(w, n, Ended(Error))
      case Refused => To(w, n, Ended(Error))
      case Holding => To(w, n, Broken)
      case _ => w
  }

  /** When the error of a ledger call leaves a reservation behind: a reserve took effect that had enough available, or
      a release did not take effect. */
  ghost predicate Strands(w: World, n: nat, commits: bool) {
    n in w.subs &&
    var i := w.subs[n].input;
    i.reserves &&
    match w.subs[n].phase
    case Looked =>
      commits && i.asset != NONE && 0.0 < i.amount <= BalanceAt(w.ledger.balances, Key(i.account, i.asset)).available
    case Lost => !commits
    case Broken => !commits
    case _ => false
  }

  /** A ledger call of the submission reports an error; `commits` says whether it took effect all the same. */
  ghost function BreakLedger(w: World, n: nat, commits: bool): World {
    if n !in w.subs then w
    else
      var i := w.subs[n].input;
      var ended := To(w, n, Ended(if Strands(w, n, commits) then Stranded else Error));
      match w.subs[n].phase
      case Looked =>
        if !i.reserves then w
        else if commits then ended.(ledger := Reserve(w.ledger, i.account, i.order, i.asset, i.amount).0)
        else ended
      case Lost => if commits then ended.(ledger := Release(w.ledger, i.order).0) else ended
      case Broken => if commits then ended.(ledger := Release(w.ledger, i.order).0) else ended
      case _ => w
  }

  datatype Action = Go(n: nat) | Fail(n: nat) | LedgerFails(n: nat, commits: bool) | Outside(op: Runs.Op)

  /** Ledger traffic of other orders. */
  ghost predicate Foreign(w: World, op: Runs.Op) {
    match op
    case DoReserve(_, order, _, _) => forall n :: n in w.subs ==> w.subs[n].input.order != order
    case DoRelease(order) => forall n :: n in w.subs ==> w.subs[n].input.order != order
    case DoSettle(q) =>
      forall n :: n in w.subs ==> w.subs[n].input.order != q.makerOrder && w.subs[n].input.order != q.takerOrder
  }

  ghost function Do(w: World, a: Action): World {
    match a
    case Go(n) => Advance(w, n)
    case Fail(n) => Break(w, n)
    case LedgerFails(n, commits) => BreakLedger(w, n, commits)
    case Outside(op) => if Foreign(w, op) then w.(ledger := Runs.Step(w.ledger, op)) else w
  }

  ghost function Schedule(w: World, actions: seq<Action>): World
    decreases |actions|
  {
    if actions == [] then w else Schedule(Do(w, actions[0]), actions[1..])
  }

  // ---------- the invariant ----------

  predicate Live(rs: map<Id, Reservation>, order: Id) {
    order in rs && rs[order].status.Active?
  }

  /** At most one stored order per account and client id. */
  ghost predicate OnePerClient(table: Table.Table) {
    forall a, b :: Table.Shared(table.orders, a, b) ==> a == b
  }

  predicate Stored(table: Table.Table, i: Input, status: Table.Status) {
    i.order in table.orders && table.orders[i.order] == i.Row(status)
  }

  /** What a submission's phase says about its own order and reservation. */
  ghost predicate PhaseOk(table: Table.Table, rs: map<Id, Reservation>, sub: Submission) {
    var i := sub.input;
    match sub.phase
    case Started => i.order !in table.orders && i.order !in rs
    case Looked => i.order !in table.orders && i.order !in rs
    case Refused => i.order !in table.orders && i.order !in rs
    case Holding => i.order !in table.orders && (i.reserves <==> Live(rs, i.order))
    case Broken => i.order !in table.orders && (i.reserves <==> Live(rs, i.order))
    case Lost => i.order !in table.orders && (i.reserves <==> Live(rs, i.order)) && Known(table, i)
    case Ended(result) =>
      && (result.Accepted? <==> Stored(table, i, Table.Pending))
      && (result.Accepted? || result.Declined? || i.order !in table.orders)
      && (Live(rs, i.order) <==> (result.Accepted? && i.reserves) || result.Stranded?)
      && (result.Error? || result.Stranded? || Known(table, i))
  }

  ghost predicate Distinct(subs: map<nat, Submission>) {
    && (forall n :: n in subs ==> subs[n].input.order != NONE)
    && (forall n, m :: n in subs && m in subs && n != m ==> subs[n].input.order != subs[m].input.order)
  }

  ghost predicate Inv(w: World) {
    && Distinct(w.subs) && OnePerClient(w.table)
    && forall n :: n in w.subs ==> PhaseOk(w.table, w.ledger.reservations, w.subs[n])
  }

  // ---------- frames ----------

  /** Every stored order stays as it is. */
  predicate Grows(table: Table.Table, table': Table.Table) {
    forall x :: x in table.orders ==> x in table'.orders && table'.orders[x] == table.orders[x]
  }

  lemma CreateKeeps(table: Table.Table, id: Id, row: Table.Row)
    requires OnePerClient(table)
    ensures Grows(table, Table.Create(table, id, row)) && OnePerClient(Table.Create(table, id, row))
    ensures forall i :: i in Table.Create(table, id, row).orders ==> i in table.orders || i == id
  {
    var table' := Table.Create(table, id, row);
    forall a, b | Table.Shared(table'.orders, a, b) ensures a == b {
      if a != id && b != id {
        assert Table.Shared(table.orders, a, b);
      } else if a != b && table' != table {
        var other := if a == id then b else a;
        assert Table.Conflict(table.orders, row, other);
      }
    }
  }

  lemma KnownStays(table: Table.Table, table': Table.Table, i: Input)
    requires Known(table, i) && Grows(table, table')
    ensures Known(table', i)
  {
    var x :| Table.Conflict(table.orders, i.Row(Table.Pending), x);
    assert Table.Conflict(table'.orders, i.Row(Table.Pending), x);
  }

  lemma StoredIsKnown(table: Table.Table, i: Input, status: Table.Status)
    requires Stored(table, i, status)
    ensures Known(table, i)
  {
    assert Table.Conflict(table.orders, i.Row(Table.Pending), i.order);
  }

  lemma TakenIgnoresStatus(table: Table.Table, i: Input, status: Table.Status)
    ensures Table.Taken(table, i.Row(status)) <==> Known(table, i)
  {
    forall x
      ensures Table.Conflict(table.orders, i.Row(status), x) <==> Table.Conflict(table.orders, i.Row(Table.Pending), x)
    {
    }
  }

  /** Nothing that leaves a submission's own order alone disturbs it. */
  lemma PhaseStays(
    table: Table.Table, rs: map<Id, Reservation>, table': Table.Table, rs': map<Id, Reservation>, sub: Submission)
    requires PhaseOk(table, rs, sub) && Grows(table, table') && SameAt(rs, rs', sub.input.order)
    requires sub.input.order in table'.orders ==> sub.input.order in table.orders
    ensures PhaseOk(table', rs', sub)
  {
    hide Known;
    if Known(table, sub.input) {
      KnownStays(table, table', sub.input);
    }
  }

  lemma LedgerTouchesOne(s: Ledger, i: Input, other: Id)
    requires other != i.order
    ensures SameAt(s.reservations, Reserve(s, i.account, i.order, i.asset, i.amount).0.reservations, other)
    ensures SameAt(s.reservations, Release(s, i.order).0.reservations, other)
  {
  }

  // ---------- one step ----------

  /** A step of submission `n` grows the table by at most its own order, and leaves all other reservations alone. */
  ghost predicate TouchesOnly(w: World, w': World, n: nat)
    requires n in w.subs
  {
    var i := w.subs[n].input;
    && Grows(w.table, w'.table) && OnePerClient(w'.table)
    && (forall x :: x in w'.table.orders ==> x in w.table.orders || x == i.order)
    && (forall o :: o != i.order ==> SameAt(w.ledger.reservations, w'.ledger.reservations, o))
    && w'.subs.Keys == w.subs.Keys && w'.subs[n].input == i
    && (forall m :: m in w.subs && m != n ==> w'.subs[m] == w.subs[m])
  }

  lemma ToTouchesOnly(w: World, n: nat, phase: Phase)
    requires n in w.subs && OnePerClient(w.table)
    ensures TouchesOnly(w, To(w, n, phase), n)
  {
    hide OnePerClient;
  }

  lemma InsertTouchesOnly(w: World, n: nat, status: Table.Status, won: Phase, lost: Phase, failed: Phase)
    requires n in w.subs && OnePerClient(w.table)
    ensures TouchesOnly(w, InsertOrder(w, n, status, won, lost, failed), n)
  {
    hide Known, OnePerClient, Table.Create, Table.Insertable, TouchesOnly, To;
    ToTouchesOnly(w, n, won);
    ToTouchesOnly(w, n, lost);
    ToTouchesOnly(w, n, failed);
    CreateTouchesOnly(w, To(w, n, won), n, status);
  }

  lemma CreateTouchesOnly(w: World, w': World, n: nat, status: Table.Status)
    requires n in w.subs && OnePerClient(w.table) && TouchesOnly(w, w', n)
    ensures var i := w.subs[n].input; TouchesOnly(w, w'.(table := Table.Create(w.table, i.order, i.Row(status))), n)
  {
    hide OnePerClient, Table.Create, Grows, SameAt;
    var i := w.subs[n].input;
    CreateKeeps(w.table, i.order, i.Row(status));
  }

  lemma AdvanceTouchesOnly(w: World, n: nat)
    requires n in w.subs && OnePerClient(w.table)
    ensures TouchesOnly(w, Advance(w, n), n)
  {
    hide Known, OnePerClient, InsertOrder, Reserve, Release, TouchesOnly;
    InsertTouchesOnly(w, n, Table.Pending, Ended(Accepted), Lost, Broken);
    InsertTouchesOnly(w, n, Table.Rejected, Ended(Declined), Ended(Declined), Ended(Error));
    if !w.subs[n].phase.Holding? && !w.subs[n].phase.Refused? {
      var phase := Advance(w, n).subs[n].phase;
      ToTouchesOnly(w, n, phase);
      CallTouchesOnly(w, n, phase);
      assert w.subs[n].phase.Ended? ==> To(w, n, phase) == w;
    }
  }

  /** A step of the submission's phase with one of its two ledger calls. */
  lemma CallTouchesOnly(w: World, n: nat, phase: Phase)
    requires n in w.subs && OnePerClient(w.table)
    ensures var i := w.subs[n].input;
            && TouchesOnly(w, To(w, n, phase).(ledger := Reserve(w.ledger, i.account, i.order, i.asset, i.amount).0), n)
            && TouchesOnly(w, To(w, n, phase).(ledger := Release(w.ledger, i.order).0), n)
  {
    hide OnePerClient, Reserve, Release, Grows, SameAt;
    ToTouchesOnly(w, n, phase);
    var i := w.subs[n].input;
    forall o | o != i.order
      ensures SameAt(w.ledger.reservations, Reserve(w.ledger, i.account, i.order, i.asset, i.amount).0.reservations, o)
      ensures SameAt(w.ledger.reservations, Release(w.ledger, i.order).0.reservations, o)
    {
      LedgerTouchesOne(w.ledger, i, o);
    }
  }

  lemma InsertKeepsPhase(w: World, n: nat)
    requires n in w.subs && PhaseOk(w.table, w.ledger.reservations, w.subs[n])
    requires w.subs[n].phase.Holding? || w.subs[n].phase.Refused?
    ensures var w' := Advance(w, n); n in w'.subs && PhaseOk(w'.table, w'.ledger.reservations, w'.subs[n])
  {
    hide Known, Reserve, Release;
    var i, w' := w.subs[n].input, Advance(w, n);
    TakenIgnoresStatus(w.table, i, Table.Pending);
    TakenIgnoresStatus(w.table, i, Table.Rejected);
    if i.order in w'.table.orders {
      StoredIsKnown(w'.table, i, w'.table.orders[i.order].status);
    }
  }

  lemma AdvanceKeepsPhase(w: World, n: nat)
    requires n in w.subs && w.subs[n].input.order != NONE && PhaseOk(w.table, w.ledger.reservations, w.subs[n])
    ensures var w' := Advance(w, n); n in w'.subs && PhaseOk(w'.table, w'.ledger.reservations, w'.subs[n])
  {
    if w.subs[n].phase.Holding? || w.subs[n].phase.Refused? {
      InsertKeepsPhase(w, n);
    } else {
      hide Known, InsertOrder;
    }
  }

  /** A step that touches only its own submission, and keeps that one in order, keeps the invariant. */
  lemma TouchingKeepsInv(w: World, w': World, n: nat)
    requires Inv(w) && n in w.subs && TouchesOnly(w, w', n)
    requires n in w'.subs && PhaseOk(w'.table, w'.ledger.reservations, w'.subs[n])
    ensures Inv(w')
  {
    hide PhaseOk, OnePerClient, Grows, SameAt;
    forall m | m in w'.subs ensures PhaseOk(w'.table, w'.ledger.reservations, w'.subs[m]) {
      if m != n {
        assert w'.subs[m].input.order != w.subs[n].input.order;
        PhaseStays(w.table, w.ledger.reservations, w'.table, w'.ledger.reservations, w'.subs[m]);
      }
    }
  }

  lemma AdvanceKeepsInv(w: World, n: nat)
    requires Inv(w) && n in w.subs
    ensures Inv(Advance(w, n)) && TouchesOnly(w, Advance(w, n), n)
  {
    hide PhaseOk, OnePerClient, TouchesOnly, Advance;
    AdvanceTouchesOnly(w, n);
    AdvanceKeepsPhase(w, n);
    TouchingKeepsInv(w, Advance(w, n), n);
  }

  lemma BreakKeepsInv(w: World, n: nat)
    requires Inv(w) && n in w.subs
    ensures Inv(Break(w, n)) && TouchesOnly(w, Break(w, n), n)
  {
    hide OnePerClient, TouchesOnly, Known;
    var w' := Break(w, n);
    ToTouchesOnly(w, n, w'.subs[n].phase);
    assert w' == To(w, n, w'.subs[n].phase);
    assert PhaseOk(w.table, w.ledger.reservations, w.subs[n]);
    TouchingKeepsInv(w, w', n);
  }

  lemma LedgerFailureTouchesOnly(w: World, n: nat, commits: bool)
    requires OnePerClient(w.table) && n in w.subs
    ensures TouchesOnly(w, BreakLedger(w, n, commits), n)
  {
    hide OnePerClient, Reserve, Release, Strands, TouchesOnly;
    var phase := BreakLedger(w, n, commits).subs[n].phase;
    ToTouchesOnly(w, n, phase);
    CallTouchesOnly(w, n, phase);
    assert phase == w.subs[n].phase ==> To(w, n, phase) == w;
  }

  lemma LedgerFailureKeepsInv(w: World, n: nat, commits: bool)
    requires Inv(w) && n in w.subs
    ensures Inv(BreakLedger(w, n, commits)) && TouchesOnly(w, BreakLedger(w, n, commits), n)
  {
    hide OnePerClient, TouchesOnly, PhaseOk, BreakLedger;
    LedgerFailureTouchesOnly(w, n, commits);
    LedgerFailureKeepsPhase(w, n, commits);
    TouchingKeepsInv(w, BreakLedger(w, n, commits), n);
  }

  /** The reservation a ledger error leaves behind is there exactly when the error strands it. */
  lemma LedgerFailureKeepsPhase(w: World, n: nat, commits: bool)
    requires n in w.subs && w.subs[n].input.order != NONE && PhaseOk(w.table, w.ledger.reservations, w.subs[n])
    ensures var w' := BreakLedger(w, n, commits); n in w'.subs && PhaseOk(w'.table, w'.ledger.reservations, w'.subs[n])
  {
    hide Known;
  }

  lemma StrangersKeep(w: World, op: Runs.Op, n: nat)
    requires Foreign(w, op) && n in w.subs
    ensures SameAt(w.ledger.reservations, Runs.Step(w.ledger, op).reservations, w.subs[n].input.order)
  {
    hide Cover, Draws, Used, Booked, RawEntries, TradeBooked;
  }

  lemma OutsideKeepsInv(w: World, op: Runs.Op)
    requires Inv(w) && Foreign(w, op)
    ensures Inv(w.(ledger := Runs.Step(w.ledger, op)))
  {
    hide PhaseOk, OnePerClient, Runs.Step;
    var rs' := Runs.Step(w.ledger, op).reservations;
    forall n | n in w.subs ensures PhaseOk(w.table, rs', w.subs[n]) {
      StrangersKeep(w, op, n);
      PhaseStays(w.table, w.ledger.reservations, w.table, rs', w.subs[n]);
    }
  }

  /** The same submissions, for the same inputs. */
  ghost predicate SameInputs(w: World, w': World) {
    w'.subs.Keys == w.subs.Keys && forall n :: n in w.subs ==> w'.subs[n].input == w.subs[n].input
  }

  lemma DoKeepsInv(w: World, a: Action)
    requires Inv(w)
    ensures Inv(Do(w, a)) && SameInputs(w, Do(w, a))
  {
    hide Inv, OnePerClient, Advance, Break, BreakLedger, Grows, Runs.Step, Foreign;
    match a {
      case Go(n) =>
        if n in w.subs {
          AdvanceKeepsInv(w, n);
        } else {
          assert Advance(w, n) == w by { NobodyMoves(w, n); }
        }
      case Fail(n) =>
        if n in w.subs {
          BreakKeepsInv(w, n);
        } else {
          assert Break(w, n) == w by { NobodyMoves(w, n); }
        }
      case LedgerFails(n, commits) =>
        if n in w.subs {
          LedgerFailureKeepsInv(w, n, commits);
        } else {
          assert BreakLedger(w, n, commits) == w by { NobodyMoves(w, n); }
        }
      case Outside(op) =>
        if Foreign(w, op) {
          OutsideKeepsInv(w, op);
        }
    }
  }

  lemma NobodyMoves(w: World, n: nat)
    requires n !in w.subs
    ensures Advance(w, n) == w && Break(w, n) == w && forall commits :: BreakLedger(w, n, commits) == w
  {
  }

  // ---------- the theorem ----------

  /** Submissions that have not begun, with order ids nobody has seen. */
  ghost predicate Fresh(w: World) {
    && Distinct(w.subs) && OnePerClient(w.table)
    && forall n :: n in w.subs ==>
         && w.subs[n].phase.Started? && w.subs[n].input.order !in w.table.orders
         && w.subs[n].input.order !in w.ledger.reservations
  }

  lemma {:induction false} ScheduleKeepsInv(w: World, actions: seq<Action>)
    requires Inv(w)
    ensures Inv(Schedule(w, actions)) && SameInputs(w, Schedule(w, actions))
    decreases |actions|
  {
    hide Inv, Do;
    if actions != [] {
      DoKeepsInv(w, actions[0]);
      ScheduleKeepsInv(Do(w, actions[0]), actions[1..]);
    }
  }

  /** Along a schedule: some ledger error of the submission strands its reservation. */
  ghost predicate StrandedAlong(w: World, actions: seq<Action>, n: nat)
    decreases |actions|
  {
    actions != [] &&
    (|| (actions[0].LedgerFails? && actions[0].n == n && Strands(w, n, actions[0].commits))
     || StrandedAlong(Do(w, actions[0]), actions[1..], n))
  }

  /** A submission that has ended stays as it is, and only a stranding ledger error ends one as stranded. */
  lemma StrandedByStep(w: World, a: Action, n: nat)
    requires n in w.subs
    ensures n in Do(w, a).subs && (w.subs[n].phase.Ended? ==> Do(w, a).subs[n] == w.subs[n])
    ensures !w.subs[n].phase.Ended? ==>
              (Do(w, a).subs[n].phase == Ended(Stranded) <==> a.LedgerFails? && a.n == n && Strands(w, n, a.commits))
    ensures w.subs[n].phase.Ended? && a.LedgerFails? ==> !Strands(w, n, a.commits)
  {
    hide Foreign, Known, Reserve, Release, Runs.Step, Table.Create;
  }

  lemma {:induction false} EndedStays(w: World, actions: seq<Action>, n: nat)
    requires n in w.subs && w.subs[n].phase.Ended?
    ensures n in Schedule(w, actions).subs && Schedule(w, actions).subs[n] == w.subs[n] && !StrandedAlong(w, actions, n)
    decreases |actions|
  {
    hide Do, Strands;
    if actions != [] {
      StrandedByStep(w, actions[0], n);
      EndedStays(Do(w, actions[0]), actions[1..], n);
    }
  }

  /** Over every schedule: a submission ends up stranded if and only if some ledger error of it met the condition. */
  lemma {:induction false} StrandedIff(w: World, actions: seq<Action>, n: nat)
    requires n in w.subs && !w.subs[n].phase.Ended?
    ensures n in Schedule(w, actions).subs
    ensures Schedule(w, actions).subs[n].phase == Ended(Stranded) <==> StrandedAlong(w, actions, n)
    decreases |actions|
  {
    hide Do, Strands;
    if actions != [] {
      var w' := Do(w, actions[0]);
      StrandedByStep(w, actions[0], n);
      if w'.subs[n].phase.Ended? {
        EndedStays(w', actions[1..], n);
      } else {
        StrandedIff(w', actions[1..], n);
      }
    }
  }

  /** However submissions interleave and fail, at every moment there is at most one stored order per account and
      client id. Once a submission has ended, it was accepted exactly when its order is stored as pending. Its order
      holds an active reservation exactly when it was accepted with one to make, or a ledger error stranded it. And
      unless it ended in an error, its account and client id have a stored order. */
  lemma OneOrderPerClient(w: World, actions: seq<Action>, n: nat)
    requires Fresh(w) && n in w.subs
    ensures var w' := Schedule(w, actions); var i := w.subs[n].input;
            && OnePerClient(w'.table) && n in w'.subs
            && (w'.subs[n].phase.Ended? ==>
                  var result := w'.subs[n].phase.result;
                  && (result.Accepted? <==> Stored(w'.table, i, Table.Pending))
                  && (Live(w'.ledger.reservations, i.order) <==>
                        (result.Accepted? && i.reserves) || StrandedAlong(w, actions, n))
                  && (result.Error? || result.Stranded? || Known(w'.table, i)))
  {
    hide Schedule, Known, OnePerClient, StrandedAlong;
    ScheduleKeepsInv(w, actions);
    StrandedIff(w, actions, n);
    assert PhaseOk(Schedule(w, actions).table, Schedule(w, actions).ledger.reservations, Schedule(w, actions).subs[n]);
  }

  /** An ended submission's reservation is orphaned, active without a pending order stored for it, if and only if a
      ledger error stranded it. */
  lemma OrphanedIff(w: World, actions: seq<Action>, n: nat)
    requires Fresh(w) && n in w.subs
    ensures var w' := Schedule(w, actions); var i := w.subs[n].input;
            && n in w'.subs
            && (w'.subs[n].phase.Ended? ==>
                  (Live(w'.ledger.reservations, i.order) && !Stored(w'.table, i, Table.Pending) <==>
                   StrandedAlong(w, actions, n)))
  {
    hide Schedule, OnePerClient, Known, StrandedAlong;
    OneOrderPerClient(w, actions, n);
    StrandedIff(w, actions, n);
  }

  ghost predicate LedgerAnswers(actions: seq<Action>, n: nat) {
    forall k :: 0 <= k < |actions| ==> !(actions[k].LedgerFails? && actions[k].n == n)
  }

  lemma {:induction false} AnsweredNotStranded(w: World, actions: seq<Action>, n: nat)
    requires LedgerAnswers(actions, n)
    ensures !StrandedAlong(w, actions, n)
    decreases |actions|
  {
    hide Do, Strands;
    if actions != [] {
      AnsweredNotStranded(Do(w, actions[0]), actions[1..], n);
    }
  }

  /** While the ledger answers, there is an active reservation for a submission's order exactly when the order is the
      stored one, is pending, and had something to reserve. */
  lemma NoOrphans(w: World, actions: seq<Action>, n: nat)
    requires Fresh(w) && n in w.subs && LedgerAnswers(actions, n)
    ensures var w' := Schedule(w, actions); var i := w.subs[n].input;
            && n in w'.subs
            && (w'.subs[n].phase.Ended? ==>
                  (Live(w'.ledger.reservations, i.order) <==> Stored(w'.table, i, Table.Pending) && i.reserves))
  {
    hide Schedule, OnePerClient, Known, LedgerAnswers, StrandedAlong;
    OneOrderPerClient(w, actions, n);
    AnsweredNotStranded(w, actions, n);
  }

  // ---------- and it does happen ----------

  /** A submission that will look up, pass the risk check and be granted its reservation. */
  ghost predicate Grantable(w: World, n: nat) {
    && Fresh(w) && n in w.subs && !Known(w.table, w.subs[n].input)
    && var i := w.subs[n].input;
       && i.allowed && i.reserves && i.asset != NONE
       && 0.0 < i.amount <= BalanceAt(w.ledger.balances, Key(i.account, i.asset)).available
  }

  ghost predicate Orphaned(w: World, i: Input) {
    Live(w.ledger.reservations, i.order) && i.order !in w.table.orders
  }

  /** A granted reservation whose answer is lost stays behind, with no order stored for it. */
  lemma LostAnswerStrands(w: World, n: nat)
    requires Grantable(w, n)
    ensures Orphaned(Schedule(w, [Go(n), LedgerFails(n, true)]), w.subs[n].input)
  {
    hide Known, OnePerClient;
    var actions := [Go(n), LedgerFails(n, true)];
    assert actions[1..] == [LedgerFails(n, true)] && actions[1..][1..] == [];
    var w1 := Do(w, actions[0]);
    assert w1 == To(w, n, Looked);
    assert Schedule(w, actions) == Schedule(w1, actions[1..]);
    assert Schedule(w1, actions[1..]) == Do(w1, actions[1]);
  }

  lemma ScheduleFour(w: World, a: Action, b: Action, c: Action, d: Action)
    ensures Schedule(w, [a, b, c, d]) == Do(Do(Do(Do(w, a), b), c), d)
  {
    hide Do;
    assert [a, b, c, d][1..] == [b, c, d] && [b, c, d][1..] == [c, d] && [c, d][1..] == [d] && [d][1..] == [];
    assert Schedule(Do(w, a), [b, c, d]) == Schedule(Do(Do(w, a), b), [c, d]);
    assert Schedule(Do(Do(Do(w, a), b), c), [d]) == Do(Do(Do(Do(w, a), b), c), d);
  }

  /** So does a granted reservation when storing the order fails and the compensating release fails too. */
  lemma FailedReleaseStrands(w: World, n: nat)
    requires Grantable(w, n)
    ensures Orphaned(Schedule(w, [Go(n), Go(n), Fail(n), LedgerFails(n, false)]), w.subs[n].input)
  {
    hide Known, OnePerClient, Schedule;
    ScheduleFour(w, Go(n), Go(n), Fail(n), LedgerFails(n, false));
    var i := w.subs[n].input;
    var ledger := Reserve(w.ledger, i.account, i.order, i.asset, i.amount).0;
    assert Do(w, Go(n)) == To(w, n, Looked);
    assert Do(To(w, n, Looked), Go(n)) == To(To(w, n, Looked), n, Holding).(ledger := ledger);
  }

  // ---------- the risk check ----------

  /** Where a submission that the risk check refuses can be, without ever having reserved. */
  ghost predicate TurnedAway(w: World, n: nat) {
    && n in w.subs && w.subs[n].input.order !in w.ledger.reservations
    && var phase := w.subs[n].phase;
       phase.Started? || phase.Refused? || phase == Ended(Existing) || phase == Ended(Declined) || phase == Ended(Error)
  }

  lemma TurnedAwayStep(w: World, a: Action, n: nat)
    requires Inv(w) && TurnedAway(w, n) && !w.subs[n].input.allowed
    ensures TurnedAway(Do(w, a), n)
  {
    hide Inv, OnePerClient, Advance, Break, BreakLedger, Runs.Step, Foreign;
    match a {
      case Outside(op) =>
        if Foreign(w, op) {
          StrangersKeep(w, op, n);
        }
      case Go(m) => StepAway(w, a, m, n);
      case Fail(m) => StepAway(w, a, m, n);
      case LedgerFails(m, commits) => StepAway(w, a, m, n);
    }
  }

  lemma StepAway(w: World, a: Action, m: nat, n: nat)
    requires Inv(w) && TurnedAway(w, n) && !w.subs[n].input.allowed && !a.Outside? && a.n == m
    ensures TurnedAway(Do(w, a), n)
  {
    hide Inv, OnePerClient, Advance, Break, BreakLedger, TurnedAway, TouchesOnly;
    if m == n {
      OwnStepAway(w, a, n);
    } else if m in w.subs {
      InvParts(w);
      AdvanceTouchesOnly(w, m);
      BreakTouches(w, m);
      if a.LedgerFails? {
        LedgerFailureTouchesOnly(w, m, a.commits);
      }
      OtherStepAway(w, Do(w, a), m, n);
    } else {
      NobodyMoves(w, m);
    }
  }

  lemma InvParts(w: World)
    requires Inv(w)
    ensures OnePerClient(w.table) && Distinct(w.subs)
  {
  }

  lemma OwnStepAway(w: World, a: Action, n: nat)
    requires TurnedAway(w, n) && !w.subs[n].input.allowed && !a.Outside? && a.n == n
    ensures TurnedAway(Do(w, a), n)
  {
    hide Reserve, Release, Known, Table.Create, Strands;
  }

  lemma OtherStepAway(w: World, w': World, m: nat, n: nat)
    requires Distinct(w.subs) && TurnedAway(w, n) && m in w.subs && m != n && TouchesOnly(w, w', m)
    ensures TurnedAway(w', n)
  {
    hide OnePerClient, Grows;
    assert SameAt(w.ledger.reservations, w'.ledger.reservations, w.subs[n].input.order);
    assert w'.subs[n] == w.subs[n];
  }

  lemma BreakTouches(w: World, n: nat)
    requires OnePerClient(w.table) && n in w.subs
    ensures TouchesOnly(w, Break(w, n), n)
  {
    hide OnePerClient, TouchesOnly;
    var phase := Break(w, n).subs[n].phase;
    ToTouchesOnly(w, n, phase);
    assert Break(w, n) == To(w, n, phase);
  }

  lemma {:induction false} TurnedAwayRun(w: World, actions: seq<Action>, n: nat)
    requires Inv(w) && TurnedAway(w, n) && !w.subs[n].input.allowed
    ensures TurnedAway(Schedule(w, actions), n)
    decreases |actions|
  {
    hide Inv, Do;
    if actions != [] {
      DoKeepsInv(w, actions[0]);
      TurnedAwayStep(w, actions[0], n);
      TurnedAwayRun(Do(w, actions[0]), actions[1..], n);
    }
  }

  /** Over every schedule: a submission the risk check refuses is never accepted and never reserves; if it ends as
      declined, its account and client id have a stored order. */
  lemma RefusedByRisk(w: World, actions: seq<Action>, n: nat)
    requires Fresh(w) && n in w.subs && !w.subs[n].input.allowed
    ensures var w' := Schedule(w, actions); var i := w.subs[n].input;
            && n in w'.subs && w'.subs[n].phase != Ended(Accepted) && i.order !in w'.ledger.reservations
            && !Stored(w'.table, i, Table.Pending)
            && (w'.subs[n].phase == Ended(Declined) ==> Known(w'.table, i))
  {
    hide Schedule, Known, OnePerClient;
    FreshIsInv(w);
    TurnedAwayRun(w, actions, n);
    ScheduleKeepsInv(w, actions);
    assert PhaseOk(Schedule(w, actions).table, Schedule(w, actions).ledger.reservations, Schedule(w, actions).subs[n]);
  }

  lemma FreshIsInv(w: World)
    requires Fresh(w)
    ensures Inv(w)
  {
    hide OnePerClient;
  }

  // ---------- a submission on its own ----------

  predicate GoodAmount(i: Input) { i.asset != NONE && i.amount > 0.0 }

  /** The ledger turns the submission down for lack of funds. */
  predicate TooPoor(ledger: Ledger, i: Input) {
    i.reserves && GoodAmount(i) && BalanceAt(ledger.balances, Key(i.account, i.asset)).available < i.amount
  }

  /** What a submission that is not disturbed comes to: the order of before, a rejected order when the risk check or
      the ledger refuses, a pending one when neither does, and an error for an amount or a quantity that is not good. */
  ghost function Verdict(w: World, i: Input): Result {
    if Known(w.table, i) then Existing
    else if !i.allowed || TooPoor(w.ledger, i) then (if i.quantity > 0.0 then Declined else Error)
    else if (i.reserves && !GoodAmount(i)) || i.quantity <= 0.0 then Error
    else Accepted
  }

  /** The step that stores an order nobody else has stored. */
  lemma StoreAlone(w: World, n: nat, status: Table.Status, won: Phase, lost: Phase, failed: Phase)
    requires n in w.subs && w.subs[n].input.order !in w.table.orders && !Known(w.table, w.subs[n].input)
    requires status.Pending? || status.Rejected?
    ensures var i := w.subs[n].input; var w' := InsertOrder(w, n, status, won, lost, failed);
            if i.quantity > 0.0 then
              w' == To(w, n, won).(table := w.table.(orders := w.table.orders[i.order := i.Row(status)]))
            else w' == To(w, n, failed)
  {
    hide Known, Table.Taken, To;
    var i := w.subs[n].input;
    TakenIgnoresStatus(w.table, i, status);
  }

  /** The first two steps, up to the decision to store. */
  ghost predicate Decided(w: World, w': World, n: nat)
    requires n in w.subs
  {
    var i := w.subs[n].input;
    && w'.table == w.table && n in w'.subs && w'.subs[n].input == i
    && if Known(w.table, i) then w'.subs[n].phase == Ended(Existing) && w'.ledger == w.ledger
       else if i.allowed && i.reserves && !GoodAmount(i) then w'.subs[n].phase == Ended(Error) && w'.ledger == w.ledger
       else if i.allowed && !TooPoor(w.ledger, i) then
         && w'.subs[n].phase == Holding
         && w'.ledger == if i.reserves then Reserve(w.ledger, i.account, i.order, i.asset, i.amount).0 else w.ledger
       else i.allowed && w'.subs[n].phase == Refused && w'.ledger == w.ledger
  }

  /** What a submission makes of the ledger's answer: it goes on when the reservation stands, is rejected when the funds
      do not suffice or the reservation is closed, and ends with an error otherwise. */
  lemma AnswerIs(w: World, n: nat)
    requires n in w.subs && w.subs[n].phase.Looked? && w.subs[n].input.reserves
    ensures var i := w.subs[n].input; var (ledger, out) := Reserve(w.ledger, i.account, i.order, i.asset, i.amount);
            var w' := Advance(w, n);
            && w'.ledger == ledger && w'.table == w.table && n in w'.subs
            && (w'.subs[n].phase == Holding <==> out.Reserved?)
            && (w'.subs[n].phase == Refused <==> out.Insufficient? || out.Closed?)
            && (w'.subs[n].phase == Ended(Error) <==> out.Rejected?)
  {
    hide BalanceAt;
  }

  lemma DecidesAllowed(w: World, n: nat)
    requires Fresh(w) && n in w.subs && (w.subs[n].input.allowed || Known(w.table, w.subs[n].input))
    ensures Decided(w, Advance(Advance(w, n), n), n)
  {
    hide Known, OnePerClient, InsertOrder;
  }

  lemma AloneAllowed(w: World, n: nat)
    requires Fresh(w) && n in w.subs && (w.subs[n].input.allowed || Known(w.table, w.subs[n].input))
    ensures Concludes(w, Advance(Advance(Advance(Advance(w, n), n), n), n), n)
  {
    hide Known, OnePerClient, Reserve, Release, InsertOrder, Live;
    DecidesAllowed(w, n);
    var i, w2 := w.subs[n].input, Advance(Advance(w, n), n);
    if w2.subs[n].phase.Holding? {
      StoreAlone(w2, n, Table.Pending, Ended(Accepted), Lost, Broken);
      GrantedIsLive(w, n);
    } else if w2.subs[n].phase.Refused? {
      StoreAlone(w2, n, Table.Rejected, Ended(Declined), Ended(Declined), Ended(Error));
    }
    UnreservedIsNotLive(w, n);
  }

  lemma AloneRefused(w: World, n: nat)
    requires Fresh(w) && n in w.subs && !w.subs[n].input.allowed && !Known(w.table, w.subs[n].input)
    ensures Concludes(w, Advance(Advance(Advance(Advance(w, n), n), n), n), n)
  {
    hide Known, OnePerClient, Reserve, Release, InsertOrder, Live;
    var w1 := Advance(w, n);
    assert w1 == To(w, n, Refused);
    StoreAlone(w1, n, Table.Rejected, Ended(Declined), Ended(Declined), Ended(Error));
    UnreservedIsNotLive(w, n);
  }

  lemma UnreservedIsNotLive(w: World, n: nat)
    requires Fresh(w) && n in w.subs
    ensures !Live(w.ledger.reservations, w.subs[n].input.order)
    ensures Release(w.ledger, w.subs[n].input.order).0 == w.ledger
  {
    hide OnePerClient;
  }

  lemma GrantedIsLive(w: World, n: nat)
    requires Fresh(w) && n in w.subs
    requires var i := w.subs[n].input; i.reserves ==> GoodAmount(i) && !TooPoor(w.ledger, i)
    ensures var i := w.subs[n].input;
            var ledger := Reserve(w.ledger, i.account, i.order, i.asset, i.amount).0;
            i.reserves ==> Live(ledger.reservations, i.order) && !Live(Release(ledger, i.order).0.reservations, i.order)
  {
    hide OnePerClient;
  }

  /** The verdict, and what stands in the tables with it. */
  ghost predicate Concludes(w: World, w': World, n: nat)
    requires n in w.subs
  {
    var i := w.subs[n].input; var verdict := Verdict(w, i);
    && n in w'.subs && w'.subs[n].phase == Ended(verdict)
    && w'.table == (if verdict.Accepted? then w.table.(orders := w.table.orders[i.order := i.Row(Table.Pending)])
                    else if verdict.Declined? then w.table.(orders := w.table.orders[i.order := i.Row(Table.Rejected)])
                    else w.table)
    && (Live(w'.ledger.reservations, i.order) <==> verdict.Accepted? && i.reserves)
    && (verdict.Existing? || verdict.Declined? || !i.allowed || !i.reserves ==> w'.ledger == w.ledger)
    && (verdict.Accepted? && i.reserves ==>
          w'.ledger == Reserve(w.ledger, i.account, i.order, i.asset, i.amount).0)
  }

  /** A submission that is let through without interruption ends with its verdict after at most four steps. */
  lemma AloneIs(w: World, n: nat)
    requires Fresh(w) && n in w.subs
    ensures Concludes(w, Schedule(w, [Go(n), Go(n), Go(n), Go(n)]), n)
  {
    hide Known, OnePerClient, Schedule, Concludes, Advance;
    ScheduleFour(w, Go(n), Go(n), Go(n), Go(n));
    if w.subs[n].input.allowed || Known(w.table, w.subs[n].input) {
      AloneAllowed(w, n);
    } else {
      AloneRefused(w, n);
    }
  }

  /** A submission that finds another one has been faster stores nothing: if it was to be accepted, it gives its
      reservation back and ends with the order of the other; if it was to be rejected, it ends as declined. */
  lemma LoserIs(w: World, n: nat)
    requires Inv(w) && n in w.subs && Known(w.table, w.subs[n].input) && w.subs[n].input.quantity > 0.0
    ensures var i := w.subs[n].input; var w1 := Advance(w, n); var w2 := Advance(w1, n);
            && (w.subs[n].phase.Holding? ==>
                  && n in w2.subs && w2.subs[n].phase == Ended(Existing) && w2.table == w.table
                  && w2.ledger == Release(w.ledger, i.order).0 && !Live(w2.ledger.reservations, i.order))
            && (w.subs[n].phase.Refused? ==>
                  n in w1.subs && w1.subs[n].phase == Ended(Declined) && w1.table == w.table && w1.ledger == w.ledger)
  {
    hide Known, OnePerClient;
    assert PhaseOk(w.table, w.ledger.reservations, w.subs[n]);
  }
}
