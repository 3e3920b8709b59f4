/** What every single ledger transaction keeps: money, non-negative rows, and locked funds within the reservations. */
module LedgerLaws {
  import opened Orders
  import opened MapSums
  import opened Entries
  import opened LedgerSteps

  // ---------- invariants ----------

  ghost predicate ReservationOk(r: Reservation) {
    r.amount > 0.0 && 0.0 <= r.consumed <= r.amount
  }

  ghost predicate ReservationsOk(rs: map<Id, Reservation>) {
    forall id :: id in rs ==> ReservationOk(rs[id])
  }

  ghost predicate Sound(s: Ledger) {
    NonNegative(s.balances) && ReservationsOk(s.reservations)
  }

  /** What a reservation still keeps locked at a row. */
  function ActiveAt(k: Key): (Id, Reservation) -> Decimal {
    (id: Id, r: Reservation) => if r.status.Active? && r.Row() == k then r.Remaining() else 0.0
  }

  ghost function ActiveSum(rs: map<Id, Reservation>, k: Key): Decimal { SumOver(rs, ActiveAt(k)) }

  ghost predicate Bounded(s: Ledger, k: Key) {
    BalanceAt(s.balances, k).locked <= ActiveSum(s.reservations, k)
  }

  function Held(s: Ledger, k: Key): Decimal {
    BalanceAt(s.balances, k).available + BalanceAt(s.balances, k).locked
  }

  ghost function HeldInAll(s: Ledger, asset: Id): Decimal { SumOver(s.balances, HeldOf(asset)) }

  /** The market's assets differ, and an order is settled on the account that reserved for it. */
  ghost predicate Proper(s: Ledger, q: Request) {
    && q.base != q.quote
    && (q.makerOrder in s.reservations ==> s.reservations[q.makerOrder].account == q.maker)
    && (q.takerOrder in s.reservations ==> s.reservations[q.takerOrder].account == q.taker)
  }

  lemma ActiveSumNonNegative(rs: map<Id, Reservation>, k: Key)
    requires ReservationsOk(rs)
    ensures ActiveSum(rs, k) >= 0.0
  {
    SumNonNegative(rs, ActiveAt(k));
  }

  // ---------- reserve and release ----------

  lemma ReserveKeeps(s: Ledger, account: Id, order: Id, asset: Id, amount: Decimal, a: Id, k: Key)
    requires Sound(s)
    ensures var s' := Reserve(s, account, order, asset, amount).0;
            Sound(s') && HeldInAll(s', a) == HeldInAll(s, a) && Held(s', k) == Held(s, k) && s'.journal == s.journal
            && BalanceAt(s'.balances, k).locked - BalanceAt(s.balances, k).locked ==
               ActiveSum(s'.reservations, k) - ActiveSum(s.reservations, k)
  {
    var s' := Reserve(s, account, order, asset, amount).0;
    if s' != s {
      var row := Key(account, asset);
      SumUpdate(s.balances, HeldOf(a), row, s'.balances[row]);
      SumUpdate(s.reservations, ActiveAt(k), order, s'.reservations[order]);
    }
  }

  lemma ReleaseKeeps(s: Ledger, order: Id, a: Id, k: Key)
    requires Sound(s)
    ensures var s' := Release(s, order).0;
            && Sound(s') && HeldInAll(s', a) == HeldInAll(s, a) && Held(s', k) == Held(s, k) && s'.journal == s.journal
            && (Bounded(s, k) ==> Bounded(s', k))
  {
    var s' := Release(s, order).0;
    if order != NONE && order in s.reservations {
      var r := s.reservations[order];
      SumUpdate(s.reservations, ActiveAt(k), order, s'.reservations[order]);
      ActiveSumNonNegative(s'.reservations, k);
      if r.Remaining() > 0.0 {
        SumUpdate(s.balances, HeldOf(a), r.Row(), s'.balances[r.Row()]);
      }
    }
  }

  // ---------- settle: entries ----------

  lemma {:induction false} NetConcat(a: seq<Entry>, b: seq<Entry>, sel: Key -> bool)
    ensures NetOf(a + b, sel) == NetOf(a, sel) + NetOf(b, sel)
  {
    if a == [] {
      assert a + b == b;
    } else {
      assert (a + b)[1..] == a[1..] + b;
      NetConcat(a[1..], b, sel);
    }
  }

  function Part(e: Entry, sel: Key -> bool): Decimal { if sel(e.key) then e.Delta() else 0.0 }

  lemma NetOfFour(a: Entry, b: Entry, c: Entry, d: Entry, sel: Key -> bool)
    ensures NetOf([a, b, c, d], sel) == Part(a, sel) + Part(b, sel) + Part(c, sel) + Part(d, sel)
  {
    hide NetOf;
    assert [a, b, c, d] == [a] + ([b] + ([c] + ([d] + [])));
    NetCons(d, [], sel);
    NetCons(c, [d] + [], sel);
    NetCons(b, [c] + ([d] + []), sel);
    NetCons(a, [b] + ([c] + ([d] + [])), sel);
  }

  lemma NetCons(e: Entry, es: seq<Entry>, sel: Key -> bool)
    ensures NetOf([e] + es, sel) == Part(e, sel) + NetOf(es, sel) && NetOf([], sel) == 0.0
  {
    assert ([e] + es)[1..] == es;
  }

  lemma NetOfFees(payer: Id, fee: Fee, feeAccount: Id, sel: Key -> bool)
    ensures NetOf(FeeEntries(payer, fee, feeAccount), sel) ==
            if fee.amount <= 0.0 then 0.0
            else (if sel(Key(feeAccount, fee.asset)) then fee.amount else 0.0)
                 - (if sel(Key(payer, fee.asset)) then fee.amount else 0.0)
  {
    hide NetOf;
    var es := FeeEntries(payer, fee, feeAccount);
    var debit := Entry(Key(payer, fee.asset), true, fee.amount);
    var credit := Entry(Key(feeAccount, fee.asset), false, fee.amount);
    NetCons(credit, [], sel);
    NetCons(debit, [credit] + [], sel);
    if fee.amount > 0.0 {
      assert es == [debit] + ([credit] + []);
    }
  }

  /** The net of a row is the sum of its two legs and its fees. */
  lemma NetOfRaw(q: Request, sel: Key -> bool)
    ensures NetOf(RawEntries(q), sel) ==
            (if sel(Key(q.maker, q.quote)) then (if q.makerSide.Buy? then -q.Notional() else q.Notional()) else 0.0) +
            (if sel(Key(q.maker, q.base)) then (if q.makerSide.Buy? then q.quantity else -q.quantity) else 0.0) +
            (if sel(Key(q.taker, q.quote)) then (if q.makerSide.Buy? then q.Notional() else -q.Notional()) else 0.0) +
            (if sel(Key(q.taker, q.base)) then (if q.makerSide.Buy? then -q.quantity else q.quantity) else 0.0) +
            NetOf(FeeEntries(q.maker, q.makerFee, q.feeAccount), sel) +
            NetOf(FeeEntries(q.taker, q.takerFee, q.feeAccount), sel)
  {
    hide NetOf;
    var makerBuys := q.makerSide.Buy?;
    var legs := [
      Entry(Key(q.maker, q.quote), makerBuys, q.Notional()), Entry(Key(q.maker, q.base), !makerBuys, q.quantity),
      Entry(Key(q.taker, q.quote), !makerBuys, q.Notional()), Entry(Key(q.taker, q.base), makerBuys, q.quantity)];
    var makerFees := FeeEntries(q.maker, q.makerFee, q.feeAccount);
    var takerFees := FeeEntries(q.taker, q.takerFee, q.feeAccount);
    NetConcat(legs + makerFees, takerFees, sel);
    NetConcat(legs, makerFees, sel);
    NetOfFour(legs[0], legs[1], legs[2], legs[3], sel);
  }

  /** Every asset's entries cancel out: double entry. */
  lemma DoubleEntry(q: Request, asset: Id)
    ensures NetOf(RawEntries(q), OfAsset(asset)) == 0.0
  {
    hide NetOf;
    NetOfRaw(q, OfAsset(asset));
    NetOfFees(q.maker, q.makerFee, q.feeAccount, OfAsset(asset));
    NetOfFees(q.taker, q.takerFee, q.feeAccount, OfAsset(asset));
  }

  // ---------- settle: balances ----------

  /** How a row changes: by its net, the locked part paying a net debit first where the row may draw on it. */
  lemma BookMoves(s: Ledger, q: Request, k: Key)
    requires Book(s, q).Some?
    ensures var s' := Book(s, q).value; var net := NetOf(RawEntries(q), At(k));
            && Held(s', k) == Held(s, k) + net
            && BalanceAt(s'.balances, k).locked ==
               BalanceAt(s.balances, k).locked -
               if net < 0.0 then FromLocked(BalanceAt(s.balances, k), -net, k in BookDraws(s, q)) else 0.0
  {
    hide ApplyAll, ApplyEntry, NetOf, Netted, RawEntries, Consume, FromLocked;
    var raw := RawEntries(q);
    var es := Netted(raw);
    NettingPreserves(raw, At(k));
    NettedAt(raw, k);
    ApplyAllPointwise(s.balances, es, BookDraws(s, q));
    if e :| e in es && e.key == k {
      ApplyEntryMoves(BalanceAt(s.balances, k), e, k in BookDraws(s, q));
    }
  }

  /** The rows that may draw on locked funds, and nothing when the settlement cannot be booked. */
  function BookDraws(s: Ledger, q: Request): set<Key> {
    var makerCover := Cover(s.reservations, q.makerOrder, q.MakerRow().asset, q.MakerAmount());
    var takerCover := Cover(s.reservations, q.takerOrder, q.TakerRow().asset, q.TakerAmount());
    if makerCover.None? || takerCover.None? then {} else Draws(q, makerCover.value, takerCover.value)
  }

  /** A booking, taken apart. */
  lemma BookParts(s: Ledger, q: Request)
    ensures Book(s, q).Some? <==>
            && Netted(RawEntries(q)) != []
            && Cover(s.reservations, q.makerOrder, q.MakerRow().asset, q.MakerAmount()).Some?
            && Cover(s.reservations, q.takerOrder, q.TakerRow().asset, q.TakerAmount()).Some?
            && ApplyAll(s.balances, Netted(RawEntries(q)), BookDraws(s, q)).Some?
    ensures Book(s, q).Some? ==>
              && Book(s, q).value.balances == ApplyAll(s.balances, Netted(RawEntries(q)), BookDraws(s, q)).value
              && Book(s, q).value.journal == s.journal + Booked(q.trade, Netted(RawEntries(q)))
              && Book(s, q).value.events == Mark(s, q.event).events
  {
    hide ApplyAll, NetOf, Netted, RawEntries, Consume, Booked, Cover, Draws;
  }

  lemma BookConserves(s: Ledger, q: Request, asset: Id)
    requires Book(s, q).Some? && NonNegative(s.balances)
    ensures NonNegative(Book(s, q).value.balances) && HeldInAll(Book(s, q).value, asset) == HeldInAll(s, asset)
  {
    hide ApplyAll, ApplyEntry, NetOf, Netted, RawEntries, Consume, SumOver;
    var raw := RawEntries(q);
    NettingPreserves(raw, OfAsset(asset));
    DoubleEntry(q, asset);
    ApplyAllConserves(s.balances, Netted(raw), BookDraws(s, q), asset);
  }

  // ---------- settle: reservations ----------

  /** What consuming takes out of the active sum of a row. */
  function Taken(rs: map<Id, Reservation>, order: Id, amount: Decimal, k: Key): Decimal {
    if order == NONE || amount <= 0.0 || order !in rs || !rs[order].status.Active? || rs[order].Remaining() <= 0.0
       || rs[order].Row() != k
    then 0.0
    else Min(amount, rs[order].Remaining())
  }

  lemma ConsumeKeeps(rs: map<Id, Reservation>, order: Id, amount: Decimal, k: Key)
    requires ReservationsOk(rs)
    ensures var rs' := Consume(rs, order, amount);
            && ReservationsOk(rs') && rs'.Keys == rs.Keys
            && (forall id :: id in rs ==> rs'[id].Row() == rs[id].Row() && (id != order ==> rs'[id] == rs[id]))
            && ActiveSum(rs', k) == ActiveSum(rs, k) - Taken(rs, order, amount, k)
  {
    hide SumOver;
    var rs' := Consume(rs, order, amount);
    if rs' != rs {
      SumUpdate(rs, ActiveAt(k), order, rs'[order]);
    }
  }

  function MakerUsed(s: Ledger, q: Request): Decimal {
    var makerCover := Cover(s.reservations, q.makerOrder, q.MakerRow().asset, q.MakerAmount());
    var takerCover := Cover(s.reservations, q.takerOrder, q.TakerRow().asset, q.TakerAmount());
    if makerCover.None? || takerCover.None? then 0.0
    else Used(MakerDrawn(q, makerCover.value, takerCover.value), NetOf(RawEntries(q), At(q.MakerRow())))
  }

  function TakerUsed(s: Ledger, q: Request): Decimal {
    var cover := Cover(s.reservations, q.takerOrder, q.TakerRow().asset, q.TakerAmount());
    if cover.None? then 0.0 else Used(cover.value, NetOf(RawEntries(q), At(q.TakerRow())))
  }

  lemma BookReservations(s: Ledger, q: Request)
    requires Book(s, q).Some?
    ensures Book(s, q).value.reservations ==
            Consume(Consume(s.reservations, q.makerOrder, MakerUsed(s, q)), q.takerOrder, TakerUsed(s, q))
  {
    hide NetOf, Netted, ApplyAll, Consume;
  }

  /** A cover in use comes from an active reservation of that very row, and uses no more than it has left. */
  lemma CoverInUse(rs: map<Id, Reservation>, order: Id, row: Key, desired: Decimal)
    requires order in rs ==> rs[order].account == row.account
    requires Cover(rs, order, row.asset, desired).Some? && Cover(rs, order, row.asset, desired).value > 0.0
    ensures order != NONE && order in rs && rs[order].status.Active? && rs[order].Row() == row
    ensures Cover(rs, order, row.asset, desired).value <= rs[order].Remaining()
  {
  }

  /** What a settlement takes out of the active reservations of each row. */
  lemma BookActiveSum(s: Ledger, q: Request, k: Key)
    requires Sound(s) && Proper(s, q) && Book(s, q).Some?
    ensures ReservationsOk(Book(s, q).value.reservations)
    ensures ActiveSum(Book(s, q).value.reservations, k) ==
            ActiveSum(s.reservations, k) -
            (if k == q.MakerRow() then MakerUsed(s, q) else 0.0) - (if k == q.TakerRow() then TakerUsed(s, q) else 0.0)
  {
    hide Book, NetOf, Consume, ActiveSum;
    BookReservations(s, q);
    var rs := s.reservations;
    var rs1 := Consume(rs, q.makerOrder, MakerUsed(s, q));
    BookHasCovers(s, q);
    ConsumeKeeps(rs, q.makerOrder, MakerUsed(s, q), k);
    ConsumeKeeps(rs1, q.takerOrder, TakerUsed(s, q), k);
    if MakerUsed(s, q) > 0.0 {
      CoverInUse(rs, q.makerOrder, q.MakerRow(), q.MakerAmount());
    }
    if TakerUsed(s, q) > 0.0 {
      CoverInUse(rs, q.takerOrder, q.TakerRow(), q.TakerAmount());
      assert q.takerOrder != q.makerOrder || MakerUsed(s, q) == 0.0;
      UnusedConsume(rs, q.makerOrder, MakerUsed(s, q));
    }
  }

  lemma UnusedConsume(rs: map<Id, Reservation>, order: Id, amount: Decimal)
    ensures amount <= 0.0 ==> Consume(rs, order, amount) == rs
  {
  }

  lemma BookHasCovers(s: Ledger, q: Request)
    requires Book(s, q).Some?
    ensures Cover(s.reservations, q.makerOrder, q.MakerRow().asset, q.MakerAmount()).Some?
    ensures Cover(s.reservations, q.takerOrder, q.TakerRow().asset, q.TakerAmount()).Some?
  {
    hide NetOf, Netted, ApplyAll, Consume, Cover;
  }

  /** A row whose reservation is used may draw on its locked funds. */
  lemma UsedDraws(s: Ledger, q: Request)
    ensures MakerUsed(s, q) >= 0.0 && TakerUsed(s, q) >= 0.0
    ensures Book(s, q).Some? && MakerUsed(s, q) > 0.0 ==>
              q.MakerRow() in BookDraws(s, q) && MakerUsed(s, q) <= -NetOf(RawEntries(q), At(q.MakerRow()))
    ensures Book(s, q).Some? && TakerUsed(s, q) > 0.0 ==>
              q.TakerRow() in BookDraws(s, q) && TakerUsed(s, q) <= -NetOf(RawEntries(q), At(q.TakerRow()))
  {
    hide NetOf, ApplyAll, Netted, Consume;
  }

  /** Locked funds stay within the active reservations. */
  lemma BookKeepsBound(s: Ledger, q: Request, k: Key)
    requires Sound(s) && Proper(s, q) && Book(s, q).Some? && Bounded(s, k)
    ensures Bounded(Book(s, q).value, k)
  {
    hide Book, NetOf, ActiveSum, MakerUsed, TakerUsed, BookDraws;
    BookMoves(s, q, k);
    BookActiveSum(s, q, k);
    UsedDraws(s, q);
    ActiveSumNonNegative(Book(s, q).value.reservations, k);
    assert BalanceAt(s.balances, k).locked >= 0.0;
  }
}
