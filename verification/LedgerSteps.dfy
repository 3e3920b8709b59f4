/** The ledger's three transactions as steps on its tables: reserve, release, settle. */
module LedgerSteps {
  import opened Orders
  import opened Entries

  datatype Status = Active | Released | Consumed

  datatype Reservation = Reservation(account: Id, asset: Id, amount: Decimal, consumed: Decimal, status: Status) {
    function Remaining(): Decimal { amount - consumed }
    function Row(): Key { Key(account, asset) }
  }

  /** An order's reservation is the same in both tables. */
  predicate SameAt(rs: map<Id, Reservation>, rs': map<Id, Reservation>, order: Id) {
    (order in rs <==> order in rs') && (order in rs ==> rs'[order] == rs[order])
  }

  /** One booked entry; a trade has at most one per account and asset. */
  datatype JournalRow = JournalRow(trade: TradeId, entry: Entry)

  datatype Ledger = Ledger(
    balances: map<Key, Balance>, reservations: map<Id, Reservation>, journal: seq<JournalRow>, events: set<TradeId>)

  // ---------- reserve ----------

  datatype ReserveOutcome = Reserved(reservation: Reservation) | Insufficient | Closed | Rejected

  function Reserve(s: Ledger, account: Id, order: Id, asset: Id, amount: Decimal): (Ledger, ReserveOutcome) {
    if asset == NONE || amount <= 0.0 || order == NONE then (s, Rejected)
    else if order in s.reservations then
      var r := s.reservations[order];
      if !r.status.Active? then (s, Closed)
      else if r.account != account || r.asset != asset then (s, Rejected)
      else (s, Reserved(r))
    else
      var k := Key(account, asset);
      var b := BalanceAt(s.balances, k);
      if b.available < amount then (s, Insufficient)
      else
        var r := Reservation(account, asset, amount, 0.0, Active);
        (s.(balances := s.balances[k := Balance(b.available - amount, b.locked + amount)],
            reservations := s.reservations[order := r]),
         Reserved(r))
  }

  // ---------- release ----------

  datatype ReleaseOutcome = ReleasedAmount(amount: Decimal) | NotFound

  /** Releasing never looks at the reservation's status. */
  function Release(s: Ledger, order: Id): (Ledger, ReleaseOutcome) {
    if order == NONE || order !in s.reservations then (s, NotFound)
    else
      var r := s.reservations[order];
      if r.Remaining() <= 0.0 then
        (s.(reservations := s.reservations[order := r.(status := Consumed)]), ReleasedAmount(0.0))
      else
        var b := BalanceAt(s.balances, r.Row());
        var freed := if b.locked < r.Remaining() then b.locked else r.Remaining();
        var consumed := r.amount - freed;
        var status := if consumed >= r.amount then Consumed else Released;
        (s.(balances := s.balances[r.Row() := Balance(b.available + freed, b.locked - freed)],
            reservations := s.reservations[order := r.(consumed := consumed, status := status)]),
         ReleasedAmount(freed))
  }

  // ---------- settle ----------

  datatype Fee = Fee(asset: Id, amount: Decimal)

  datatype Request = Request(
    trade: TradeId, makerOrder: Id, takerOrder: Id, maker: Id, taker: Id, base: Id, quote: Id,
    price: Decimal, quantity: Decimal, makerSide: Side, event: Option<TradeId>,
    makerFee: Fee, takerFee: Fee, feeAccount: Id)
  {
    function Notional(): Decimal { price * quantity }
    function MakerRow(): Key { Key(maker, if makerSide.Buy? then quote else base) }
    function TakerRow(): Key { Key(taker, if makerSide.Buy? then base else quote) }
    function MakerAmount(): Decimal { if makerSide.Buy? then Notional() else quantity }
    function TakerAmount(): Decimal { if makerSide.Buy? then quantity else Notional() }
  }

  function FeeEntries(payer: Id, fee: Fee, feeAccount: Id): seq<Entry> {
    if fee.amount > 0.0 then
      [Entry(Key(payer, fee.asset), true, fee.amount), Entry(Key(feeAccount, fee.asset), false, fee.amount)]
    else []
  }

  /** The two legs of the trade and the fees, before netting. */
  function RawEntries(q: Request): seq<Entry> {
    var makerBuys := q.makerSide.Buy?;
    [Entry(Key(q.maker, q.quote), makerBuys, q.Notional()), Entry(Key(q.maker, q.base), !makerBuys, q.quantity),
     Entry(Key(q.taker, q.quote), !makerBuys, q.Notional()), Entry(Key(q.taker, q.base), makerBuys, q.quantity)]
    + FeeEntries(q.maker, q.makerFee, q.feeAccount) + FeeEntries(q.taker, q.takerFee, q.feeAccount)
  }

  /** How much of the desired amount an order's reservation covers; None when it is for another asset. */
  function Cover(rs: map<Id, Reservation>, order: Id, asset: Id, desired: Decimal): Option<Decimal> {
    if order == NONE || desired <= 0.0 || order !in rs || !rs[order].status.Active? then Some(0.0)
    else if rs[order].asset != asset then None
    else if rs[order].Remaining() <= 0.0 then Some(0.0)
    else if desired > rs[order].Remaining() then Some(rs[order].Remaining())
    else Some(desired)
  }

  /** Use up part of an active reservation. */
  function Consume(rs: map<Id, Reservation>, order: Id, amount: Decimal): map<Id, Reservation> {
    if order == NONE || amount <= 0.0 || order !in rs then rs
    else if !rs[order].status.Active? || rs[order].Remaining() <= 0.0 then rs
    else
      var r := rs[order];
      var consumed := r.consumed + Min(amount, r.Remaining());
      rs[order := r.(consumed := consumed, status := if consumed >= r.amount then Consumed else r.status)]
  }

  /** The rows whose debit may draw on locked funds: those a reservation covers, and those of an order without id. */
  function Draws(q: Request, makerCover: Decimal, takerCover: Decimal): set<Key> {
    (if makerCover > 0.0 || q.makerOrder == NONE then {q.MakerRow()} else {}) +
    (if takerCover > 0.0 || q.takerOrder == NONE then {q.TakerRow()} else {})
  }

  /** The part of a cover that the net debit of the row uses up. */
  function Used(cover: Decimal, net: Decimal): Decimal {
    if cover > 0.0 && net < 0.0 then Min(cover, -net) else 0.0
  }

  /** The cover a maker's use is measured against: when maker and taker pay from one row, the taker's replaces it. */
  function MakerDrawn(q: Request, makerCover: Decimal, takerCover: Decimal): Decimal {
    if makerCover > 0.0 && takerCover > 0.0 && q.MakerRow() == q.TakerRow() then takerCover else makerCover
  }

  function Booked(trade: TradeId, es: seq<Entry>): seq<JournalRow> {
    if es == [] then [] else [JournalRow(trade, es[0])] + Booked(trade, es[1..])
  }

  lemma {:induction false} BookedAt(trade: TradeId, es: seq<Entry>)
    ensures |Booked(trade, es)| == |es|
    ensures forall i :: 0 <= i < |es| ==> Booked(trade, es)[i] == JournalRow(trade, es[i])
  {
    if es != [] { BookedAt(trade, es[1..]); }
  }

  predicate TradeBooked(journal: seq<JournalRow>, trade: TradeId) {
    exists row :: row in journal && row.trade == trade
  }

  function Mark(s: Ledger, event: Option<TradeId>): Ledger {
    if event.Some? then s.(events := s.events + {event.value}) else s
  }

  datatype SettleOutcome = Settled | AlreadyProcessed | Failed

  /** The effect of a settlement that is not a duplicate; None when it fails. */
  function Book(s: Ledger, q: Request): Option<Ledger> {
    var raw := RawEntries(q);
    var es := Netted(raw);
    var makerCover := Cover(s.reservations, q.makerOrder, q.MakerRow().asset, q.MakerAmount());
    var takerCover := Cover(s.reservations, q.takerOrder, q.TakerRow().asset, q.TakerAmount());
    if es == [] || makerCover.None? || takerCover.None? then None
    else
      var balances := ApplyAll(s.balances, es, Draws(q, makerCover.value, takerCover.value));
      if balances.None? then None
      else
        var makerDrawn := MakerDrawn(q, makerCover.value, takerCover.value);
        var rs := Consume(s.reservations, q.makerOrder, Used(makerDrawn, NetOf(raw, At(q.MakerRow()))));
        var rs' := Consume(rs, q.takerOrder, Used(takerCover.value, NetOf(raw, At(q.TakerRow()))));
        Some(Ledger(balances.value, rs', s.journal + Booked(q.trade, es), Mark(s, q.event).events))
  }

  function Settle(s: Ledger, q: Request): (Ledger, SettleOutcome) {
    if q.price <= 0.0 || q.quantity <= 0.0 || q.makerSide.UnknownSide? then (s, Failed)
    else if (q.event.Some? && q.event.value in s.events) || TradeBooked(s.journal, q.trade) then
      (Mark(s, q.event), AlreadyProcessed)
    else
      match Book(s, q)
      case None => (s, Failed)
      case Some(s') => (s', Settled)
  }

  /** A settlement that does not settle moves nothing. */
  lemma UnsettledKeeps(s: Ledger, q: Request)
    requires !Settle(s, q).1.Settled?
    ensures var s' := Settle(s, q).0;
            s'.reservations == s.reservations && s'.balances == s.balances && s'.journal == s.journal
  {
    hide Book;
  }
}
