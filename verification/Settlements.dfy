/** Settlement transactions running at the same time, split at their check, lock, apply and insert steps.
    The advisory lock is taken after the duplicate check and held to the end; rows read for update stay held. */
module Settlements {
  import opened Orders
  import opened Entries
  import opened LedgerSteps
  import opened LedgerLaws
  import opened LedgerRuns

  /** What a transaction is about to write. */
  datatype Buffer = Buffer(rows: map<Key, Balance>, reservations: map<Id, Reservation>, entries: seq<Entry>)

  datatype Phase = Begun | Checked | Locked | Applied(buffer: Buffer) | Ended(outcome: SettleOutcome)

  datatype Tx = Tx(request: Request, phase: Phase)

  datatype World = World(db: Ledger, holder: Option<nat>, txs: map<nat, Tx>)

  datatype Action =
    | Check(t: nat)
    | Acquire(t: nat)
    | Apply(t: nat)
    | Insert(t: nat)
    | Crash(t: nat)
    | Outside(op: Op)

  function OrdersOf(q: Request): set<Id> { {q.makerOrder, q.takerOrder} }

  function RowsOf(q: Request): set<Key> { set e | e in Netted(RawEntries(q)) :: e.key }

  /** The rows and reservations a booking would write. */
  function MakeBuffer(db: Ledger, q: Request): Option<Buffer> {
    var booked := Book(db, q);
    if booked.None? then None
    else
      Some(Buffer(
        map k | k in RowsOf(q) :: BalanceAt(booked.value.balances, k),
        map o | o in OrdersOf(q) && o in booked.value.reservations :: booked.value.reservations[o],
        Netted(RawEntries(q))))
  }

  /** A row of this trade already stands in the journal: the unique index objects. */
  predicate Collides(journal: seq<JournalRow>, trade: TradeId, es: seq<Entry>) {
    exists row, e :: row in journal && e in es && row.trade == trade && row.entry.key == e.key
  }

  function Write(db: Ledger, q: Request, b: Buffer): Ledger {
    Ledger(db.balances + b.rows, db.reservations + b.reservations, db.journal + Booked(q.trade, b.entries),
           Mark(db, q.event).events)
  }

  /** Is this row, or this reservation, held by a transaction that has read it? */
  predicate RowHeld(w: World, k: Key) {
    w.holder.Some? && w.holder.value in w.txs && w.txs[w.holder.value].phase.Applied?
    && k in RowsOf(w.txs[w.holder.value].request)
  }

  predicate OrderHeld(w: World, o: Id) {
    w.holder.Some? && w.holder.value in w.txs && w.txs[w.holder.value].phase.Applied?
    && o in OrdersOf(w.txs[w.holder.value].request)
  }

  predicate MayRun(w: World, op: Op) {
    match op
    case DoReserve(account, order, asset, _) => !RowHeld(w, Key(account, asset)) && !OrderHeld(w, order)
    case DoRelease(order) =>
      !OrderHeld(w, order) && (order in w.db.reservations ==> !RowHeld(w, w.db.reservations[order].Row()))
    case DoSettle(_) => false
  }

  /** The transaction is about to insert, and no row of its trade is in the journal. */
  predicate CanCommit(w: World, t: nat) {
    && t in w.txs && w.txs[t].phase.Applied?
    && !Collides(w.db.journal, w.txs[t].request.trade, w.txs[t].phase.buffer.entries)
  }

  function To(w: World, t: nat, phase: Phase): World
    requires t in w.txs
  {
    w.(txs := w.txs[t := w.txs[t].(phase := phase)])
  }

  function Finish(w: World, t: nat, outcome: SettleOutcome): World
    requires t in w.txs
  {
    To(w, t, Ended(outcome)).(holder := if w.holder == Some(t) then None else w.holder)
  }

  /** One step of the schedule; a step that is not enabled changes nothing. */
  function Do(w: World, a: Action): World {
    match a
    case Outside(op) => if MayRun(w, op) then w.(db := LedgerRuns.Step(w.db, op)) else w
    case Check(t) =>
      if t !in w.txs || !w.txs[t].phase.Begun? then w
      else
        var q := w.txs[t].request;
        if q.price <= 0.0 || q.quantity <= 0.0 || q.makerSide.UnknownSide? then To(w, t, Ended(Failed))
        else if (q.event.Some? && q.event.value in w.db.events) || TradeBooked(w.db.journal, q.trade) then
          To(w, t, Ended(AlreadyProcessed)).(db := Mark(w.db, q.event))
        else To(w, t, Checked)
    case Acquire(t) =>
      if t in w.txs && w.txs[t].phase.Checked? && w.holder.None? then To(w, t, Locked).(holder := Some(t)) else w
    case Apply(t) =>
      if t !in w.txs || !w.txs[t].phase.Locked? then w
      else
        var b := MakeBuffer(w.db, w.txs[t].request);
        if b.None? then Finish(w, t, Failed) else To(w, t, Applied(b.value))
    case Insert(t) =>
      if t !in w.txs || !w.txs[t].phase.Applied? then w
      else
        var q, b := w.txs[t].request, w.txs[t].phase.buffer;
        if Collides(w.db.journal, q.trade, b.entries) then Finish(w, t, Failed)
        else Finish(w, t, Settled).(db := Write(w.db, q, b))
    case Crash(t) =>
      if t !in w.txs || w.txs[t].phase.Ended? then w else Finish(w, t, Failed)
  }

  function Schedule(w: World, actions: seq<Action>): World
    decreases |actions|
  {
    if actions == [] then w else Schedule(Do(w, actions[0]), actions[1..])
  }

  // ---------- booking is local ----------

  /** Two ledgers that look alike to a settlement. */
  ghost predicate Alike(db: Ledger, db': Ledger, q: Request) {
    && (forall k :: k in RowsOf(q) ==> BalanceAt(db.balances, k) == BalanceAt(db'.balances, k))
    && (forall o :: o in OrdersOf(q) ==> SameAt(db.reservations, db'.reservations, o))
  }

  lemma ConsumeAt(rs: map<Id, Reservation>, order: Id, amount: Decimal)
    ensures Consume(rs, order, amount).Keys == rs.Keys
    ensures forall o :: o in rs && o != order ==> Consume(rs, order, amount)[o] == rs[o]
  {
  }

  lemma ConsumeAlike(rs: map<Id, Reservation>, rs': map<Id, Reservation>, order: Id, amount: Decimal)
    requires order in rs <==> order in rs'
    requires order in rs ==> rs[order] == rs'[order]
    ensures order in rs ==> order in Consume(rs, order, amount) && order in Consume(rs', order, amount)
                            && Consume(rs, order, amount)[order] == Consume(rs', order, amount)[order]
  {
  }

  lemma RowsDistinct(q: Request)
    ensures DistinctKeys(Netted(RawEntries(q)))
    ensures forall e :: e in Netted(RawEntries(q)) ==> e.key in RowsOf(q)
  {
    NettingPreserves(RawEntries(q), At(q.MakerRow()));
  }

  /** A booking reads and writes only its own rows and orders. */
  lemma ApplyAlike(bs: map<Key, Balance>, bs': map<Key, Balance>, es: seq<Entry>, draws: set<Key>)
    requires DistinctKeys(es) && forall e :: e in es ==> BalanceAt(bs, e.key) == BalanceAt(bs', e.key)
    ensures ApplyAll(bs, es, draws).Some? <==> ApplyAll(bs', es, draws).Some?
    ensures ApplyAll(bs, es, draws).Some? ==>
              var after, after' := ApplyAll(bs, es, draws).value, ApplyAll(bs', es, draws).value;
              forall e :: e in es ==> BalanceAt(after, e.key) == BalanceAt(after', e.key)
  {
    hide ApplyAll, ApplyEntry, DistinctKeys;
    ApplyAllPointwise(bs, es, draws);
    ApplyAllPointwise(bs', es, draws);
  }

  /** Both reservations after the two uses, order by order. */
  lemma ConsumeTwiceAlike(
    rs: map<Id, Reservation>, rs': map<Id, Reservation>, m: Id, a: Decimal, t: Id, b: Decimal, o: Id)
    requires SameAt(rs, rs', m) && SameAt(rs, rs', t) && (o == m || o == t)
    ensures SameAt(Consume(Consume(rs, m, a), t, b), Consume(Consume(rs', m, a), t, b), o)
  {
    hide Consume;
    ConsumeAt(rs, m, a);
    ConsumeAt(rs', m, a);
    ConsumeAlike(rs, rs', m, a);
    ConsumeAt(Consume(rs, m, a), t, b);
    ConsumeAt(Consume(rs', m, a), t, b);
    ConsumeAlike(Consume(rs, m, a), Consume(rs', m, a), t, b);
  }

  lemma UsesAlike(db: Ledger, db': Ledger, q: Request)
    requires Alike(db, db', q)
    ensures BookDraws(db, q) == BookDraws(db', q)
    ensures MakerUsed(db, q) == MakerUsed(db', q) && TakerUsed(db, q) == TakerUsed(db', q)
    ensures Cover(db.reservations, q.makerOrder, q.MakerRow().asset, q.MakerAmount()) ==
            Cover(db'.reservations, q.makerOrder, q.MakerRow().asset, q.MakerAmount())
    ensures Cover(db.reservations, q.takerOrder, q.TakerRow().asset, q.TakerAmount()) ==
            Cover(db'.reservations, q.takerOrder, q.TakerRow().asset, q.TakerAmount())
  {
    assert SameAt(db.reservations, db'.reservations, q.makerOrder);
    assert SameAt(db.reservations, db'.reservations, q.takerOrder);
    hide NetOf, Netted, RawEntries, Draws;
  }

  lemma BufferAlike(db: Ledger, db': Ledger, q: Request)
    requires Alike(db, db', q)
    ensures MakeBuffer(db, q) == MakeBuffer(db', q)
  {
    hide Book, ApplyAll, NetOf, Netted, RawEntries, Consume, Cover, BookDraws, MakerUsed, TakerUsed;
    RowsDistinct(q);
    UsesAlike(db, db', q);
    BookParts(db, q);
    BookParts(db', q);
    var es := Netted(RawEntries(q));
    ApplyAlike(db.balances, db'.balances, es, BookDraws(db, q));
    if Book(db, q).Some? {
      BookReservations(db, q);
      BookReservations(db', q);
      var (s, s') := (Book(db, q).value, Book(db', q).value);
      forall o | o in OrdersOf(q) ensures SameAt(s.reservations, s'.reservations, o) {
        ConsumeTwiceAlike(
          db.reservations, db'.reservations, q.makerOrder, MakerUsed(db, q), q.takerOrder, TakerUsed(db, q), o);
      }
      var b, b' := MakeBuffer(db, q).value, MakeBuffer(db', q).value;
      assert b.rows == b'.rows && b.reservations == b'.reservations;
    }
  }

  lemma WriteReservations(db: Ledger, q: Request)
    requires Book(db, q).Some?
    ensures Book(db, q).value.reservations == db.reservations + MakeBuffer(db, q).value.reservations
  {
    hide Book, Consume, Netted, MakerUsed, TakerUsed;
    BookReservations(db, q);
    ConsumeAt(db.reservations, q.makerOrder, MakerUsed(db, q));
    ConsumeAt(Consume(db.reservations, q.makerOrder, MakerUsed(db, q)), q.takerOrder, TakerUsed(db, q));
  }

  lemma WriteRowAt(db: Ledger, q: Request, k: Key)
    requires Book(db, q).Some?
    ensures var bs, bs' := Book(db, q).value.balances, db.balances + MakeBuffer(db, q).value.rows;
            (k in bs <==> k in bs') && BalanceAt(bs, k) == BalanceAt(bs', k)
  {
    hide Book, ApplyAll, ApplyEntry, Netted, RawEntries, BookDraws, DistinctKeys;
    RowsDistinct(q);
    BookParts(db, q);
    var es := Netted(RawEntries(q));
    ApplyAllPointwise(db.balances, es, BookDraws(db, q));
    if k !in RowsOf(q) {
      assert forall e :: e in es ==> e.key != k;
    }
  }

  lemma WriteRows(db: Ledger, q: Request)
    requires Book(db, q).Some?
    ensures Book(db, q).value.balances == db.balances + MakeBuffer(db, q).value.rows
  {
    hide Book, Netted, RawEntries;
    var bs, bs' := Book(db, q).value.balances, db.balances + MakeBuffer(db, q).value.rows;
    forall k ensures (k in bs <==> k in bs') && BalanceAt(bs, k) == BalanceAt(bs', k) {
      WriteRowAt(db, q, k);
    }
  }

  /** Writing the buffer is the booking. */
  lemma WriteIsBook(db: Ledger, q: Request)
    requires Book(db, q).Some?
    ensures Book(db, q).value == Write(db, q, MakeBuffer(db, q).value)
  {
    hide Book, Netted, RawEntries, Booked;
    WriteRows(db, q);
    WriteReservations(db, q);
    BookParts(db, q);
  }

  // ---------- what the transactions are assumed to be ----------

  /** A trade between two accounts in a market of two assets, with its fees in the quote asset. */
  ghost predicate Ordinary(q: Request) {
    q.base != q.quote && q.maker != q.taker && q.makerFee.asset == q.quote && q.takerFee.asset == q.quote
  }

  predicate SameEvent(q: Request, q': Request) { q.event.Some? && q.event == q'.event }

  /** Requests for one trade agree on its maker and base asset; one event speaks of one trade. Fees may differ. */
  ghost predicate Coherent(txs: map<nat, Tx>) {
    && (forall t :: t in txs ==> Ordinary(txs[t].request))
    && (forall t, t' :: t in txs && t' in txs && txs[t].request.trade == txs[t'].request.trade ==>
          txs[t].request.maker == txs[t'].request.maker && txs[t].request.base == txs[t'].request.base)
    && (forall t, t' :: t in txs && t' in txs && SameEvent(txs[t].request, txs[t'].request) ==>
          txs[t].request.trade == txs[t'].request.trade)
  }

  /** The maker's base row of a trade. */
  function Anchor(q: Request): Key { Key(q.maker, q.base) }

  ghost predicate Anchored(journal: seq<JournalRow>, q: Request) {
    TradeBooked(journal, q.trade) ==> exists row :: row in journal && row.trade == q.trade && row.entry.key == Anchor(q)
  }

  ghost predicate Recorded(db: Ledger, q: Request) {
    q.event.Some? && q.event.value in db.events ==> TradeBooked(db.journal, q.trade)
  }

  ghost predicate Ready(q: Request) {
    q.price > 0.0 && q.quantity > 0.0 && !q.makerSide.UnknownSide?
  }

  ghost predicate TxInv(w: World, t: nat)
    requires t in w.txs
  {
    var q, p := w.txs[t].request, w.txs[t].phase;
    && (p.Locked? || p.Applied? ==> w.holder == Some(t))
    && (p.Checked? || p.Locked? || p.Applied? ==> Ready(q))
    && (p.Applied? ==> MakeBuffer(w.db, q) == Some(p.buffer))
    && (p == Ended(Settled) ==> TradeBooked(w.db.journal, q.trade))
    && Anchored(w.db.journal, q) && Recorded(w.db, q)
  }

  ghost predicate Inv(w: World) {
    && Coherent(w.txs)
    && (forall t :: t in w.txs ==> TxInv(w, t))
    && OnePerTrade(w)
  }

  ghost predicate HasSettled(w: World, t: nat) { t in w.txs && w.txs[t].phase == Ended(Settled) }

  /** No two transactions have settled one trade. */
  ghost predicate OnePerTrade(w: World) {
    forall t, t' :: HasSettled(w, t) && HasSettled(w, t') && t != t' ==>
      w.txs[t].request.trade != w.txs[t'].request.trade
  }

  /** Netting never cancels the maker's base leg. */
  lemma AnchorSurvives(q: Request)
    requires Ordinary(q) && q.quantity > 0.0
    ensures exists e :: e in Netted(RawEntries(q)) && e.key == Anchor(q)
  {
    hide NetOf, RawEntries, Netted;
    NetOfRaw(q, At(Anchor(q)));
    NetOfFees(q.maker, q.makerFee, q.feeAccount, At(Anchor(q)));
    NetOfFees(q.taker, q.takerFee, q.feeAccount, At(Anchor(q)));
    NettedAt(RawEntries(q), Anchor(q));
  }

  /** So a trade that is booked already makes a second insert collide. */
  lemma BookedCollides(journal: seq<JournalRow>, q: Request)
    requires Ordinary(q) && q.quantity > 0.0 && Anchored(journal, q) && TradeBooked(journal, q.trade)
    ensures Collides(journal, q.trade, Netted(RawEntries(q)))
  {
    hide RawEntries, Netted;
    AnchorSurvives(q);
  }

  /** A commit is the atomic settlement, taken at that moment. */
  lemma InsertIsSettle(w: World, t: nat)
    requires Inv(w) && t in w.txs && w.txs[t].phase.Applied?
    requires var q, b := w.txs[t].request, w.txs[t].phase.buffer; !Collides(w.db.journal, q.trade, b.entries)
    ensures var q, b := w.txs[t].request, w.txs[t].phase.buffer;
            Settle(w.db, q) == (Write(w.db, q, b), Settled) && !TradeBooked(w.db.journal, q.trade)
  {
    hide Book, Netted, RawEntries, Write, Collides, TradeBooked, Anchored;
    assert TxInv(w, t);
    var q := w.txs[t].request;
    if TradeBooked(w.db.journal, q.trade) {
      BookedCollides(w.db.journal, q);
    }
    WriteIsBook(w.db, q);
  }

  // ---------- every schedule is a serial run ----------

  /** The atomic ledger step a schedule step amounts to, if any. */
  function SerialOp(w: World, a: Action): Option<Op> {
    match a
    case Outside(op) => if MayRun(w, op) then Some(op) else None
    case Check(t) => if t in w.txs && Do(w, a).db != w.db then Some(DoSettle(w.txs[t].request)) else None
    case Insert(t) => if t in w.txs && Do(w, a).db != w.db then Some(DoSettle(w.txs[t].request)) else None
    case _ => None
  }

  lemma DoIsSerial(w: World, a: Action)
    requires Inv(w)
    ensures SerialOp(w, a).None? ==> Do(w, a).db == w.db
    ensures SerialOp(w, a).Some? ==> Do(w, a).db == LedgerRuns.Step(w.db, SerialOp(w, a).value)
  {
    hide Inv, Book, TradeBooked, Collides, Write, MakeBuffer;
    match a {
      case Insert(t) =>
        if CanCommit(w, t) {
          InsertIsSettle(w, t);
        }
      case _ =>
    }
  }

  // ---------- the invariant holds all along ----------

  /** An outside operation that may run leaves the holder's rows and reservations alone. */
  lemma OutsideAlike(w: World, op: Op, t: nat)
    requires t in w.txs && w.holder == Some(t) && w.txs[t].phase.Applied? && MayRun(w, op)
    ensures Alike(w.db, LedgerRuns.Step(w.db, op), w.txs[t].request)
  {
    hide Netted, RawEntries, Settle;
  }

  lemma OutsideKeepsJournal(s: Ledger, op: Op)
    requires !op.DoSettle?
    ensures LedgerRuns.Step(s, op).journal == s.journal && LedgerRuns.Step(s, op).events == s.events
  {
  }

  lemma OutsideKeepsTx(w: World, op: Op, t: nat)
    requires TxInvAt(w, t) && MayRun(w, op)
    ensures TxInvAt(Do(w, Outside(op)), t)
  {
    hide MakeBuffer, TradeBooked, Anchored, Recorded, LedgerRuns.Step, MayRun;
    NotSettle(w, op);
    OutsideKeepsJournal(w.db, op);
    SameJournal(w.db, LedgerRuns.Step(w.db, op), w.txs[t].request);
    if w.txs[t].phase.Applied? {
      OutsideAlike(w, op, t);
      BufferAlike(w.db, LedgerRuns.Step(w.db, op), w.txs[t].request);
    }
  }

  lemma NotSettle(w: World, op: Op)
    requires MayRun(w, op)
    ensures !op.DoSettle?
  {
  }

  lemma SameJournal(db: Ledger, db': Ledger, q: Request)
    requires db'.journal == db.journal && db'.events == db.events
    ensures Anchored(db.journal, q) == Anchored(db'.journal, q) && Recorded(db, q) == Recorded(db', q)
  {
  }

  ghost predicate TxInvAt(w: World, t: nat) { t in w.txs && TxInv(w, t) }

  /** Recording an event of a booked trade. */
  lemma MarkKeepsTx(w: World, t: nat, t': nat)
    requires Inv(w) && t in w.txs && t' in w.txs && TradeBooked(w.db.journal, w.txs[t].request.trade)
    ensures TxInv(w.(db := Mark(w.db, w.txs[t].request.event)), t')
  {
    hide MakeBuffer, TradeBooked, Anchored;
    assert TxInv(w, t');
    BufferAlike(w.db, Mark(w.db, w.txs[t].request.event), w.txs[t'].request);
  }

  lemma CheckKeepsTx(w: World, t: nat, t': nat)
    requires Inv(w) && t' in w.txs
    ensures TxInvAt(Do(w, Check(t)), t')
  {
    hide MakeBuffer, TradeBooked, Anchored;
    assert TxInv(w, t');
    if t in w.txs && w.txs[t].phase.Begun? {
      assert TxInv(w, t);
      var q := w.txs[t].request;
      if Ready(q) && ((q.event.Some? && q.event.value in w.db.events) || TradeBooked(w.db.journal, q.trade)) {
        MarkKeepsTx(w, t, t');
      }
    }
  }

  lemma LockKeepsTx(w: World, a: Action, t': nat)
    requires Inv(w) && t' in w.txs && (a.Acquire? || a.Apply? || a.Crash?)
    ensures TxInvAt(Do(w, a), t')
  {
    hide MakeBuffer, TradeBooked, Anchored, Recorded;
    assert TxInv(w, t');
    if a.t in w.txs {
      assert TxInv(w, a.t);
    }
  }

  /** The journal after a commit. */
  lemma CommitBooks(journal: seq<JournalRow>, q: Request)
    requires Ordinary(q) && q.quantity > 0.0
    ensures var journal' := journal + Booked(q.trade, Netted(RawEntries(q)));
            && TradeBooked(journal', q.trade) && Anchored(journal', q)
            && forall trade :: trade != q.trade ==> TradeBooked(journal', trade) == TradeBooked(journal, trade)
  {
    hide Netted, RawEntries;
    AnchorSurvives(q);
    var es := Netted(RawEntries(q));
    var e :| e in es && e.key == Anchor(q);
    var i :| 0 <= i < |es| && es[i] == e;
    BookedAt(q.trade, es);
    assert Booked(q.trade, es)[i] in journal + Booked(q.trade, es);
  }

  /** Other trades' rows are where they were. */
  lemma CommitKeepsAnchors(journal: seq<JournalRow>, q: Request, q': Request)
    requires Ordinary(q) && q.quantity > 0.0 && Anchored(journal, q')
    requires q.trade == q'.trade ==> Anchor(q) == Anchor(q')
    ensures Anchored(journal + Booked(q.trade, Netted(RawEntries(q))), q')
  {
    hide Netted, RawEntries, Booked;
    CommitBooks(journal, q);
    if q.trade != q'.trade && TradeBooked(journal, q'.trade) {
      var row :| row in journal && row.trade == q'.trade && row.entry.key == Anchor(q');
      assert row in journal + Booked(q.trade, Netted(RawEntries(q)));
    }
  }

  lemma CommitKeepsTx(w: World, t: nat, t': nat)
    requires Inv(w) && t in w.txs && t' in w.txs && w.txs[t].phase.Applied?
    requires !Collides(w.db.journal, w.txs[t].request.trade, w.txs[t].phase.buffer.entries)
    ensures TxInvAt(Do(w, Insert(t)), t')
  {
    hide MakeBuffer, Anchored, Collides, Netted, RawEntries, Booked, TradeBooked;
    assert TxInv(w, t) && TxInv(w, t');
    var q, q' := w.txs[t].request, w.txs[t'].request;
    assert w.txs[t].phase.buffer.entries == Netted(RawEntries(q)) by { BufferEntries(w.db, q); }
    CommitBooks(w.db.journal, q);
    CommitKeepsAnchors(w.db.journal, q, q');
  }

  lemma BufferEntries(db: Ledger, q: Request)
    ensures MakeBuffer(db, q).Some? ==> MakeBuffer(db, q).value.entries == Netted(RawEntries(q))
  {
    hide Book, Netted, RawEntries;
  }

  lemma InsertKeepsTx(w: World, t: nat, t': nat)
    requires Inv(w) && t' in w.txs
    ensures TxInvAt(Do(w, Insert(t)), t')
  {
    hide MakeBuffer, Anchored, Recorded, Collides, TradeBooked, Write;
    assert TxInv(w, t');
    if t in w.txs && w.txs[t].phase.Applied? {
      assert TxInv(w, t);
      if !Collides(w.db.journal, w.txs[t].request.trade, w.txs[t].phase.buffer.entries) {
        CommitKeepsTx(w, t, t');
      }
    }
  }

  function Serial(w: World, actions: seq<Action>): seq<Op>
    decreases |actions|
  {
    if actions == [] then []
    else
      var op := SerialOp(w, actions[0]);
      var later := Serial(Do(w, actions[0]), actions[1..]);
      if op.Some? then [op.value] + later else later
  }

  /** A transaction's request never changes, and one that ended stays ended. */
  lemma DoKeepsRequests(w: World, a: Action)
    ensures Do(w, a).txs.Keys == w.txs.Keys
    ensures forall t :: t in w.txs ==> Do(w, a).txs[t].request == w.txs[t].request
    ensures forall t :: t in w.txs && w.txs[t].phase.Ended? ==> Do(w, a).txs[t] == w.txs[t]
    ensures forall t :: t in w.txs && Do(w, a).txs[t].phase == Ended(Settled) && w.txs[t].phase != Ended(Settled) ==>
              a == Insert(t) && CanCommit(w, t)
  {
    hide MakeBuffer, Collides, TradeBooked, MayRun, LedgerRuns.Step, Write;
  }

  lemma DoKeepsTx(w: World, a: Action, t: nat)
    requires Inv(w) && t in w.txs
    ensures TxInvAt(Do(w, a), t)
  {
    hide Inv, Do, TxInv, MayRun;
    assert TxInvAt(w, t) by { TxInvOf(w, t); }
    match a {
      case Outside(op) =>
        if MayRun(w, op) {
          OutsideKeepsTx(w, op, t);
        } else {
          Blocked(w, op);
        }
      case Check(c) => CheckKeepsTx(w, c, t);
      case Insert(c) => InsertKeepsTx(w, c, t);
      case Acquire(_) => LockKeepsTx(w, a, t);
      case Apply(_) => LockKeepsTx(w, a, t);
      case Crash(_) => LockKeepsTx(w, a, t);
    }
  }

  lemma TxInvOf(w: World, t: nat)
    requires Inv(w) && t in w.txs
    ensures TxInvAt(w, t)
  {
  }

  lemma Blocked(w: World, op: Op)
    requires !MayRun(w, op)
    ensures Do(w, Outside(op)) == w
  {
  }

  /** A second settlement of a trade cannot commit. */
  lemma NewSettlementIsFirst(w: World, t: nat, t': nat)
    requires Inv(w) && CanCommit(w, t) && HasSettled(w, t')
    ensures w.txs[t].request.trade != w.txs[t'].request.trade
  {
    hide Settle, MakeBuffer, Collides, Write, TradeBooked;
    InsertIsSettle(w, t);
    assert TxInv(w, t');
  }

  lemma DoKeepsInv(w: World, a: Action)
    requires Inv(w)
    ensures Inv(Do(w, a))
  {
    hide Do, TxInv;
    var w' := Do(w, a);
    DoKeepsRequests(w, a);
    forall t | t in w'.txs ensures TxInv(w', t) {
      DoKeepsTx(w, a, t);
    }
    forall t, t' | HasSettled(w', t) && HasSettled(w', t') && t != t'
      ensures w'.txs[t].request.trade != w'.txs[t'].request.trade
    {
      if w.txs[t].phase != Ended(Settled) {
        if w.txs[t'].phase == Ended(Settled) {
          NewSettlementIsFirst(w, t, t');
        }
      } else if w.txs[t'].phase != Ended(Settled) {
        NewSettlementIsFirst(w, t', t);
      }
    }
  }

  // ---------- the theorems ----------

  /** Under every schedule the ledger is what some serial run of atomic transactions makes of it. */
  lemma {:induction false} ScheduleIsSerial(w: World, actions: seq<Action>)
    requires Inv(w)
    ensures Inv(Schedule(w, actions))
    ensures Schedule(w, actions).db == LedgerRuns.Run(w.db, Serial(w, actions))
    decreases |actions|
  {
    hide Inv, Do, LedgerRuns.Step, SerialOp;
    if actions != [] {
      DoKeepsInv(w, actions[0]);
      DoIsSerial(w, actions[0]);
      var op, later := SerialOp(w, actions[0]), Serial(Do(w, actions[0]), actions[1..]);
      ScheduleIsSerial(Do(w, actions[0]), actions[1..]);
      if op.Some? {
        assert ([op.value] + later)[1..] == later;
      }
    }
  }

  /** Transactions that have not started, on a ledger that has neither their trades nor their events. */
  ghost predicate Fresh(w: World) {
    && Coherent(w.txs) && w.holder.None?
    && forall t :: t in w.txs ==>
         && w.txs[t].phase.Begun? && !TradeBooked(w.db.journal, w.txs[t].request.trade)
         && (w.txs[t].request.event.Some? ==> w.txs[t].request.event.value !in w.db.events)
  }

  /** However they interleave, at most one settlement of a trade commits; all money is accounted for. */
  lemma SettledAtMostOnce(w: World, actions: seq<Action>, asset: Id)
    requires Fresh(w) && Sound(w.db)
    ensures var w' := Schedule(w, actions);
            OnePerTrade(w') && Sound(w'.db) && HeldInAll(w'.db, asset) == HeldInAll(w.db, asset)
  {
    hide LedgerRuns.Run, HeldInAll, MakeBuffer;
    forall t | t in w.txs ensures TxInv(w, t) { }
    ScheduleIsSerial(w, actions);
    MoneyIsConserved(w.db, Serial(w, actions), asset);
  }

  /** A transaction that ends without settling changes nothing but, for a duplicate, the record of its event. */
  lemma UnsettledHasNoEffect(w: World, a: Action, t: nat)
    requires Inv(w) && t in w.txs && !w.txs[t].phase.Ended? && Do(w, a).txs[t].phase.Ended?
    requires Do(w, a).txs[t].phase.outcome != Settled
    ensures var w', q := Do(w, a), w.txs[t].request;
            || w'.db == w.db
            || (&& w'.txs[t].phase == Ended(AlreadyProcessed) && w'.db == Mark(w.db, q.event)
                && TradeBooked(w.db.journal, q.trade))
  {
    hide MakeBuffer, Collides, TradeBooked, Anchored, Write, LedgerRuns.Step, MayRun, Coherent, OnePerTrade;
    assert TxInv(w, t);
  }
}
