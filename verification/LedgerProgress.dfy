/** When a settlement goes through: exactly when every row that ends with a net debit can pay it. */
module LedgerProgress {
  import opened Orders
  import opened Entries
  import opened LedgerSteps
  import opened LedgerLaws
  import opened LedgerRuns
  import opened LedgerExact
  import Settlements

  // ---------- reserve and release ----------

  /** A new order's reservation is granted exactly when the row has that much available. */
  lemma ReserveGrantedIff(s: Ledger, account: Id, order: Id, asset: Id, amount: Decimal)
    requires order !in s.reservations
    ensures Reserve(s, account, order, asset, amount).1.Reserved? <==>
            order != NONE && asset != NONE && 0.0 < amount <= BalanceAt(s.balances, Key(account, asset)).available
    ensures var (s', out) := Reserve(s, account, order, asset, amount);
            out.Reserved? ==> Reserve(s', account, order, asset, amount) == (s', out)
  {
  }

  /** Releasing undoes reserving: every row is as it was, and the whole amount comes back. */
  lemma ReleaseUndoesReserve(s: Ledger, account: Id, order: Id, asset: Id, amount: Decimal, k: Key)
    requires Sound(s) && order !in s.reservations && Reserve(s, account, order, asset, amount).1.Reserved?
    ensures var (s', out) := Release(Reserve(s, account, order, asset, amount).0, order);
            && out == ReleasedAmount(amount) && BalanceAt(s'.balances, k) == BalanceAt(s.balances, k)
            && s'.reservations[order].status.Released?
  {
  }

  // ---------- settle ----------

  /** What a row can spend: its available funds, and its locked funds where it may draw on them. */
  function Spendable(s: Ledger, q: Request, k: Key): Decimal {
    BalanceAt(s.balances, k).available + if k in BookDraws(s, q) then BalanceAt(s.balances, k).locked else 0.0
  }

  ghost predicate CanPay(s: Ledger, q: Request, k: Key) {
    Pays(q, k) <= Spendable(s, q, k)
  }

  lemma EntryAppliesIff(b: Balance, e: Entry, useLocked: bool)
    requires b.available >= 0.0 && b.locked >= 0.0 && e.amount > 0.0
    ensures ApplyEntry(b, e, useLocked).Some? <==> -e.Delta() <= b.available + if useLocked then b.locked else 0.0
  {
  }

  /** A settlement can be booked if and only if it has entries, its reservations are in the right assets, and every
      row can pay its net. */
  lemma BookSucceedsIff(s: Ledger, q: Request)
    requires NonNegative(s.balances)
    ensures Book(s, q).Some? <==>
            && Netted(RawEntries(q)) != []
            && Cover(s.reservations, q.makerOrder, q.MakerRow().asset, q.MakerAmount()).Some?
            && Cover(s.reservations, q.takerOrder, q.TakerRow().asset, q.TakerAmount()).Some?
            && forall k :: CanPay(s, q, k)
  {
    hide Book, ApplyAll, ApplyEntry, NetOf, Netted, RawEntries, BookDraws, Cover;
    BookParts(s, q);
    var es, draws := Netted(RawEntries(q)), BookDraws(s, q);
    NettingPreserves(RawEntries(q), At(q.MakerRow()));
    ApplyAllPointwise(s.balances, es, draws);
    forall e | e in es
      ensures ApplyEntry(BalanceAt(s.balances, e.key), e, e.key in draws).Some? <==> CanPay(s, q, e.key)
    {
      NettedAt(RawEntries(q), e.key);
      assert e.amount > 0.0;
      EntryAppliesIff(BalanceAt(s.balances, e.key), e, e.key in draws);
    }
    forall k | forall e :: e in es ==> e.key != k ensures CanPay(s, q, k) {
      NettedAt(RawEntries(q), k);
    }
  }

  function Charged(fee: Fee): Decimal { if fee.amount > 0.0 then fee.amount else 0.0 }

  function SellerRow(q: Request): Key { if q.makerSide.Buy? then q.TakerRow() else q.MakerRow() }

  function SellerFee(q: Request): Fee { if q.makerSide.Buy? then q.takerFee else q.makerFee }

  /** Where the seller is paid. */
  function ProceedsRow(q: Request): Key { Key(SellerRow(q).account, q.quote) }

  /** The buyer can pay its fee on top of the price, and the seller its fee out of the price and what it has. */
  predicate FeesAffordable(s: Ledger, q: Request) {
    && Held(s, BuyerRow(q)) >= q.Notional() + Charged(BuyerFee(q))
    && BalanceAt(s.balances, ProceedsRow(q)).available + q.Notional() >= Charged(SellerFee(q))
  }

  lemma NetOfOthers(q: Request, k: Key)
    requires q.base != q.quote && q.maker != q.taker && q.feeAccount != q.maker && q.feeAccount != q.taker
    requires q.makerFee.asset == q.quote && q.takerFee.asset == q.quote && !q.makerSide.UnknownSide?
    requires q.price > 0.0 && q.quantity > 0.0
    ensures k == ProceedsRow(q) ==> NetOf(RawEntries(q), At(k)) == q.Notional() - Charged(SellerFee(q))
    ensures k != ProceedsRow(q) && k != BuyerRow(q) && k != SellerRow(q) ==> NetOf(RawEntries(q), At(k)) >= 0.0
  {
    hide NetOf, RawEntries;
    AmountsPositive(q);
    NetOfRaw(q, At(k));
    NetOfFees(q.maker, q.makerFee, q.feeAccount, At(k));
    NetOfFees(q.taker, q.takerFee, q.feeAccount, At(k));
  }

  lemma CoveredDraws(s: Ledger, q: Request)
    requires CoveredWithFees(s, q)
    ensures BookDraws(s, q) == {BuyerRow(q), SellerRow(q)} && ProceedsRow(q) !in BookDraws(s, q)
  {
    hide Cover;
    AmountsPositive(q);
  }

  /** A row that is neither side's payment can always pay; the payments can if and only if the fees are affordable. */
  lemma CoveredCanPay(s: Ledger, q: Request, k: Key)
    requires Sound(s) && Tight(s) && CoveredWithFees(s, q)
    ensures CanPay(s, q, k) <==>
            && (k == BuyerRow(q) ==> Held(s, k) >= q.Notional() + Charged(BuyerFee(q)))
            && (k == ProceedsRow(q) ==> BalanceAt(s.balances, k).available + q.Notional() >= Charged(SellerFee(q)))
  {
    hide NetOf, RawEntries, ActiveSum, BookDraws;
    AmountsPositive(q);
    NetOfPayers(q);
    NetOfOthers(q, k);
    CoveredDraws(s, q);
    CoverInUse(s.reservations, q.makerOrder, q.MakerRow(), q.MakerAmount());
    CoverInUse(s.reservations, q.takerOrder, q.TakerRow(), q.TakerAmount());
    assert TightAt(s, q.MakerRow()) && TightAt(s, q.TakerRow());
    TightCovers(s, q.makerOrder);
    TightCovers(s, q.takerOrder);
  }

  /** On an exact ledger a fully covered settlement that is not a duplicate goes through if and only if its fees are
      affordable: the reservations pay for everything else. */
  lemma CoveredSettlesIff(s: Ledger, q: Request)
    requires Sound(s) && Tight(s) && CoveredWithFees(s, q)
    requires !TradeBooked(s.journal, q.trade) && (q.event.Some? ==> q.event.value !in s.events)
    ensures Settle(s, q).1.Settled? <==> FeesAffordable(s, q)
    ensures Settle(s, q).1.Failed? <==> !FeesAffordable(s, q)
  {
    hide Book, NetOf, RawEntries, Netted, Tight, CanPay, Cover;
    BookSucceedsIff(s, q);
    Settlements.AnchorSurvives(q);
    forall k
      ensures CanPay(s, q, k) <==>
              && (k == BuyerRow(q) ==> Held(s, k) >= q.Notional() + Charged(BuyerFee(q)))
              && (k == ProceedsRow(q) ==> BalanceAt(s.balances, k).available + q.Notional() >= Charged(SellerFee(q)))
    {
      CoveredCanPay(s, q, k);
    }
  }

  /** Without fees such a settlement always goes through. */
  lemma FreeOfFeesSettles(s: Ledger, q: Request)
    requires Sound(s) && Tight(s) && CoveredWithFees(s, q) && q.makerFee.amount <= 0.0 && q.takerFee.amount <= 0.0
    requires !TradeBooked(s.journal, q.trade) && (q.event.Some? ==> q.event.value !in s.events)
    ensures Settle(s, q).1.Settled?
  {
    hide Settle, ActiveSum, Cover;
    CoveredSettlesIff(s, q);
    AmountsPositive(q);
    BuyerIsLocked(s, q);
  }

  lemma BuyerIsLocked(s: Ledger, q: Request)
    requires Sound(s) && Tight(s) && CoveredWithFees(s, q)
    ensures BalanceAt(s.balances, BuyerRow(q)).locked >= q.Notional()
  {
    hide ActiveSum;
    AmountsPositive(q);
    CoverInUse(s.reservations, q.makerOrder, q.MakerRow(), q.MakerAmount());
    CoverInUse(s.reservations, q.takerOrder, q.TakerRow(), q.TakerAmount());
    assert TightAt(s, q.MakerRow()) && TightAt(s, q.TakerRow());
    TightCovers(s, q.makerOrder);
    TightCovers(s, q.takerOrder);
  }
}
