/** Concrete runs in which locked funds stop matching the active reservations: a partial cover, a fee, and an order
    without an id. */
module LedgerExamples {
  import opened Orders
  import opened Entries
  import opened LedgerSteps
  import opened LedgerLaws
  import opened LedgerRuns
  import opened LedgerExact
  import opened LedgerProgress
  import Settlements

  const BUYER := Name(1)
  const SELLER := Name(2)
  const FEES := Name(3)
  const COIN := Name(4)
  const CASH := Name(5)

  const OPENING := Ledger(
    map[Key(BUYER, CASH) := Balance(3.0, 0.0), Key(SELLER, COIN) := Balance(1.0, 0.0)], map[], [], {})

  /** The buyer reserves 1 and 2 for two orders, the seller one coin. */
  const RESERVES := [DoReserve(BUYER, Name(10), CASH, 1.0), DoReserve(BUYER, Name(11), CASH, 2.0),
                     DoReserve(SELLER, Name(12), COIN, 1.0)]

  const RESERVED := Ledger(
    map[Key(BUYER, CASH) := Balance(0.0, 3.0), Key(SELLER, COIN) := Balance(0.0, 1.0)],
    map[Name(10) := Reservation(BUYER, CASH, 1.0, 0.0, Active), Name(11) := Reservation(BUYER, CASH, 2.0, 0.0, Active),
        Name(12) := Reservation(SELLER, COIN, 1.0, 0.0, Active)],
    [], {})

  /** One coin for a price, bought by an order of the buyer's with a fee. */
  function Trade(price: Decimal, order: Id, fee: Decimal): Request {
    Request((Name(20), 0), Name(12), order, SELLER, BUYER, COIN, CASH, price, 1.0, Sell, None,
            Fee(CASH, 0.0), Fee(CASH, fee), FEES)
  }

  lemma ReservesRun()
    ensures Run(OPENING, RESERVES) == RESERVED && Sound(RESERVED) && Tight(RESERVED)
  {
    hide ActiveSum, Run, Step, Tight;
    var s1 := Step(OPENING, RESERVES[0]);
    var s2 := Step(s1, RESERVES[1]);
    OpeningIsTight();
    StepKeepsTight(OPENING, RESERVES[0]);
    StepKeepsMoney(OPENING, RESERVES[0], NONE);
    StepKeepsTight(s1, RESERVES[1]);
    StepKeepsMoney(s1, RESERVES[1], NONE);
    StepKeepsTight(s2, RESERVES[2]);
    RunFour(OPENING, RESERVES[0], RESERVES[1], RESERVES[2], RESERVES[2]);
    ReserveSteps();
  }

  lemma OpeningIsTight()
    ensures Tight(OPENING)
  {
    forall k ensures TightAt(OPENING, k) { NothingReserved(OPENING.balances, k); }
  }

  lemma ReserveSteps()
    ensures Step(Step(Step(OPENING, RESERVES[0]), RESERVES[1]), RESERVES[2]) == RESERVED
  {
    var s1 := Step(OPENING, RESERVES[0]);
    assert s1.balances[Key(BUYER, CASH)] == Balance(2.0, 1.0);
    var s2 := Step(s1, RESERVES[1]);
    assert s2.balances[Key(BUYER, CASH)] == Balance(0.0, 3.0);
  }

  /** What a trade finds on the reserved ledger. */
  ghost predicate IsReserved(s: Ledger) {
    && NonNegative(s.balances) && NONE !in s.reservations && Name(10) in s.reservations && Name(12) in s.reservations
    && s.reservations[Name(10)] == Reservation(BUYER, CASH, 1.0, 0.0, Active)
    && s.reservations[Name(12)] == Reservation(SELLER, COIN, 1.0, 0.0, Active)
    && BalanceAt(s.balances, Key(BUYER, CASH)).locked == 3.0 && BalanceAt(s.balances, Key(SELLER, COIN)).locked == 1.0
  }

  lemma ReservedIsReserved()
    ensures IsReserved(RESERVED)
  {
  }

  /** Whatever the price and fee the locked three can pay, and whether or not the order has an id, the trade books. */
  lemma TradeBooks(s: Ledger, price: Decimal, order: Id, fee: Decimal)
    requires IsReserved(s) && price > 0.0 && fee >= 0.0 && price + fee <= 3.0 && (order == Name(10) || order == NONE)
    ensures Book(s, Trade(price, order, fee)).Some?
    ensures Pays(Trade(price, order, fee), Key(BUYER, CASH)) == price + fee
  {
    hide Book, NetOf, RawEntries, Netted, CanPay, Cover;
    var q := Trade(price, order, fee);
    NetOfPayers(q);
    TradeCovers(s, price, order, fee);
    Settlements.AnchorSurvives(q);
    BookSucceedsIff(s, q);
    forall k ensures CanPay(s, q, k) { TradePays(s, price, order, fee, k); }
  }

  lemma CoverInAsset(rs: map<Id, Reservation>, order: Id, asset: Id, desired: Decimal)
    requires order in rs ==> rs[order].asset == asset
    ensures Cover(rs, order, asset, desired).Some?
    ensures order != NONE && order in rs && rs[order].status.Active? && rs[order].Remaining() > 0.0 && desired > 0.0 ==>
              Cover(rs, order, asset, desired).value > 0.0
  {
  }

  /** Both covers exist, and both paying rows may draw on locked funds. */
  lemma TradeCovers(s: Ledger, price: Decimal, order: Id, fee: Decimal)
    requires IsReserved(s) && price > 0.0 && (order == Name(10) || order == NONE)
    ensures var q := Trade(price, order, fee);
            && Cover(s.reservations, q.makerOrder, q.MakerRow().asset, q.MakerAmount()).Some?
            && Cover(s.reservations, q.takerOrder, q.TakerRow().asset, q.TakerAmount()).Some?
            && Key(BUYER, CASH) in BookDraws(s, q) && Key(SELLER, COIN) in BookDraws(s, q)
  {
    hide Cover, NonNegative, BalanceAt;
    var q := Trade(price, order, fee);
    assert q.MakerRow() == Key(SELLER, COIN) && q.TakerRow() == Key(BUYER, CASH);
    AmountsPositive(q);
    CoverInAsset(s.reservations, Name(12), COIN, q.MakerAmount());
    CoverInAsset(s.reservations, order, CASH, q.TakerAmount());
  }

  lemma TradePays(s: Ledger, price: Decimal, order: Id, fee: Decimal, k: Key)
    requires IsReserved(s) && price > 0.0 && fee >= 0.0 && price + fee <= 3.0 && (order == Name(10) || order == NONE)
    ensures CanPay(s, Trade(price, order, fee), k)
  {
    hide NetOf, RawEntries, BookDraws, Cover;
    var q := Trade(price, order, fee);
    NetOfPayers(q);
    NetOfOthers(q, k);
    TradeCovers(s, price, order, fee);
  }

  /** Paying more than the order's own reservation holds, or paying for an order without an id, breaks the equality:
      the rest is drawn from what the buyer's other order has locked. */
  lemma TradeBreaksTight(price: Decimal, order: Id, fee: Decimal)
    requires price > 0.0 && fee >= 0.0 && price + fee <= 3.0
    requires (order == Name(10) && price + fee > 1.0) || order == NONE
    ensures Tight(Run(OPENING, RESERVES)) && !Tight(Run(OPENING, RESERVES + [DoSettle(Trade(price, order, fee))]))
  {
    hide Book, NetOf, RawEntries, Tight, Run;
    var q := Trade(price, order, fee);
    ReservesRun();
    ReservedIsReserved();
    TradeBooks(RESERVED, price, order, fee);
    BookKeepsTightIff(RESERVED, q);
    assert Settle(RESERVED, q).0 == Book(RESERVED, q).value;
    RunFour(OPENING, RESERVES[0], RESERVES[1], RESERVES[2], DoSettle(q));
  }

  /** The three ways, one input each: a price above the reserved one, a fee, and a blank order id. */
  lemma ThreeBrokenRuns()
    ensures !Tight(Run(OPENING, RESERVES + [DoSettle(Trade(2.0, Name(10), 0.0))]))
    ensures !Tight(Run(OPENING, RESERVES + [DoSettle(Trade(1.0, Name(10), 1.0))]))
    ensures !Tight(Run(OPENING, RESERVES + [DoSettle(Trade(1.0, NONE, 0.0))]))
  {
    hide Run, Tight;
    TradeBreaksTight(2.0, Name(10), 0.0);
    TradeBreaksTight(1.0, Name(10), 1.0);
    TradeBreaksTight(1.0, NONE, 0.0);
  }
}
