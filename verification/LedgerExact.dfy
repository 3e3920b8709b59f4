/** When locked funds equal the active reservations exactly, when they stop doing so, and what a release returns. */
module LedgerExact {
  import opened Orders
  import opened MapSums
  import opened Entries
  import opened LedgerSteps
  import opened LedgerLaws
  import opened LedgerRuns

  ghost predicate TightAt(s: Ledger, k: Key) {
    BalanceAt(s.balances, k).locked == ActiveSum(s.reservations, k)
  }

  ghost predicate Tight(s: Ledger) {
    forall k :: TightAt(s, k)
  }

  /** Two different accounts, no fees, and reservations that cover both legs in full. */
  ghost predicate FullyCovered(s: Ledger, q: Request) {
    && Proper(s, q) && q.maker != q.taker && q.makerFee.amount <= 0.0 && q.takerFee.amount <= 0.0
    && q.price > 0.0 && q.quantity > 0.0
    && Cover(s.reservations, q.makerOrder, q.MakerRow().asset, q.MakerAmount()) == Some(q.MakerAmount())
    && Cover(s.reservations, q.takerOrder, q.TakerRow().asset, q.TakerAmount()) == Some(q.TakerAmount())
  }

  /** A release that has something to release, or nothing at all. */
  ghost predicate ReleaseInOrder(s: Ledger, order: Id) {
    order in s.reservations ==> s.reservations[order].status.Active? || s.reservations[order].Remaining() <= 0.0
  }

  ghost predicate Exact(s: Ledger, op: Op) {
    match op
    case DoReserve(_, _, _, _) => true
    case DoRelease(order) => ReleaseInOrder(s, order)
    case DoSettle(q) => Settle(s, q).1.Settled? ==> FullyCovered(s, q)
  }

  ghost predicate ExactRun(s: Ledger, ops: seq<Op>)
    decreases |ops|
  {
    ops == [] || (Exact(s, ops[0]) && ExactRun(Step(s, ops[0]), ops[1..]))
  }

  // ---------- settle ----------

  /** Without fees each side pays exactly its leg. */
  lemma NetOfLegs(q: Request)
    requires q.base != q.quote && q.maker != q.taker && q.makerFee.amount <= 0.0 && q.takerFee.amount <= 0.0
    requires !q.makerSide.UnknownSide?
    ensures NetOf(RawEntries(q), At(q.MakerRow())) == -q.MakerAmount()
    ensures NetOf(RawEntries(q), At(q.TakerRow())) == -q.TakerAmount()
  {
    hide NetOf, RawEntries;
    NetOfRaw(q, At(q.MakerRow()));
    NetOfRaw(q, At(q.TakerRow()));
    NetOfFees(q.maker, q.makerFee, q.feeAccount, At(q.MakerRow()));
    NetOfFees(q.maker, q.makerFee, q.feeAccount, At(q.TakerRow()));
    NetOfFees(q.taker, q.takerFee, q.feeAccount, At(q.MakerRow()));
    NetOfFees(q.taker, q.takerFee, q.feeAccount, At(q.TakerRow()));
  }

  lemma AmountsPositive(q: Request)
    requires q.price > 0.0 && q.quantity > 0.0
    ensures q.MakerAmount() > 0.0 && q.TakerAmount() > 0.0
  {
    assert q.price * q.quantity > 0.0;
  }

  lemma FullUse(s: Ledger, q: Request)
    requires FullyCovered(s, q) && !q.makerSide.UnknownSide?
    ensures MakerUsed(s, q) == q.MakerAmount() > 0.0 && TakerUsed(s, q) == q.TakerAmount() > 0.0
  {
    hide NetOf, RawEntries;
    NetOfLegs(q);
    AmountsPositive(q);
  }

  /** A tight row holds enough locked funds for whatever one of its active reservations still covers. */
  lemma TightCovers(s: Ledger, order: Id)
    requires Sound(s) && order in s.reservations && s.reservations[order].status.Active?
    requires TightAt(s, s.reservations[order].Row())
    ensures BalanceAt(s.balances, s.reservations[order].Row()).locked >= s.reservations[order].Remaining()
  {
    SumAtLeast(s.reservations, ActiveAt(s.reservations[order].Row()), order);
  }

  lemma SettleKeepsTight(s: Ledger, q: Request, k: Key)
    requires Sound(s) && Tight(s) && Exact(s, DoSettle(q))
    ensures TightAt(Settle(s, q).0, k)
  {
    hide Book, NetOf, RawEntries, ActiveSum, MakerUsed, TakerUsed;
    assert TightAt(s, k);
    if Settle(s, q).1.Settled? {
      FullUse(s, q);
      NetOfLegs(q);
      BookMoves(s, q, k);
      BookActiveSum(s, q, k);
      CoverInUse(s.reservations, q.makerOrder, q.MakerRow(), q.MakerAmount());
      CoverInUse(s.reservations, q.takerOrder, q.TakerRow(), q.TakerAmount());
      assert TightAt(s, q.MakerRow()) && TightAt(s, q.TakerRow());
      TightCovers(s, q.makerOrder);
      TightCovers(s, q.takerOrder);
    }
  }

  // ---------- exactly when a settlement keeps locked funds exact ----------

  /** What a paying row pays, net of everything it receives in that asset. */
  function Pays(q: Request, row: Key): Decimal { -NetOf(RawEntries(q), At(row)) }

  function CoverOf(s: Ledger, order: Id, row: Key, desired: Decimal): Decimal {
    match Cover(s.reservations, order, row.asset, desired)
    case None => 0.0
    case Some(cover) => cover
  }

  /** A paying row stays exact when it pays nothing; when its cover is enough, or is all that is locked there; and,
      without a cover, unless it pays for an order without id out of locked funds. */
  predicate RowStaysTight(s: Ledger, q: Request, order: Id, row: Key, desired: Decimal) {
    var cover, locked := CoverOf(s, order, row, desired), BalanceAt(s.balances, row).locked;
    || Pays(q, row) <= 0.0
    || (if cover > 0.0 then Pays(q, row) <= cover || locked == cover else order == NONE ==> locked == 0.0)
  }

  predicate StaysTight(s: Ledger, q: Request) {
    && RowStaysTight(s, q, q.makerOrder, q.MakerRow(), q.MakerAmount())
    && RowStaysTight(s, q, q.takerOrder, q.TakerRow(), q.TakerAmount())
  }

  lemma DrawsOnlyPayers(s: Ledger, q: Request, k: Key)
    requires Book(s, q).Some? && q.MakerRow() != q.TakerRow()
    ensures k in BookDraws(s, q) <==>
            || (k == q.MakerRow() && (CoverOf(s, q.makerOrder, k, q.MakerAmount()) > 0.0 || q.makerOrder == NONE))
            || (k == q.TakerRow() && (CoverOf(s, q.takerOrder, k, q.TakerAmount()) > 0.0 || q.takerOrder == NONE))
  {
    hide Cover;
    BookHasCovers(s, q);
  }

  /** A cover is backed by locked funds. */
  lemma CoverIsLocked(s: Ledger, order: Id, row: Key, desired: Decimal)
    requires Sound(s) && Tight(s) && (order in s.reservations ==> s.reservations[order].account == row.account)
    ensures 0.0 <= CoverOf(s, order, row, desired) <= BalanceAt(s.balances, row).locked
    ensures order == NONE ==> CoverOf(s, order, row, desired) == 0.0
  {
    hide ActiveSum;
    assert TightAt(s, row);
    ActiveSumNonNegative(s.reservations, row);
    if CoverOf(s, order, row, desired) > 0.0 {
      CoverInUse(s.reservations, order, row, desired);
      TightCovers(s, order);
    }
  }

  /** At one row: funds drawn and reservations used stay together exactly on the stated condition. */
  lemma RowStaysTightIff(s: Ledger, q: Request, k: Key)
    requires Sound(s) && Tight(s) && Proper(s, q) && Book(s, q).Some?
    ensures TightAt(Book(s, q).value, k) <==>
            && (k == q.MakerRow() ==> RowStaysTight(s, q, q.makerOrder, k, q.MakerAmount()))
            && (k == q.TakerRow() ==> RowStaysTight(s, q, q.takerOrder, k, q.TakerAmount()))
  {
    hide Book, NetOf, RawEntries, ActiveSum, BookDraws, Cover;
    BookMoves(s, q, k);
    BookActiveSum(s, q, k);
    DrawsOnlyPayers(s, q, k);
    BookHasCovers(s, q);
    assert TightAt(s, k);
    CoverIsLocked(s, q.makerOrder, q.MakerRow(), q.MakerAmount());
    CoverIsLocked(s, q.takerOrder, q.TakerRow(), q.TakerAmount());
  }

  /** Any booked settlement on the reserving accounts keeps locked funds exact if and only if, on both paying rows,
      the locked funds it draws are those of the order's own reservation. */
  lemma BookKeepsTightIff(s: Ledger, q: Request)
    requires Sound(s) && Tight(s) && Proper(s, q) && Book(s, q).Some?
    ensures Tight(Book(s, q).value) <==> StaysTight(s, q)
  {
    hide Book, TightAt, Sound, RowStaysTight, Proper;
    var s' := Book(s, q).value;
    forall k
      ensures TightAt(s', k) <==>
              && (k == q.MakerRow() ==> RowStaysTight(s, q, q.makerOrder, k, q.MakerAmount()))
              && (k == q.TakerRow() ==> RowStaysTight(s, q, q.takerOrder, k, q.TakerAmount()))
    {
      RowStaysTightIff(s, q, k);
    }
  }

  function BuyerRow(q: Request): Key { Key(if q.makerSide.Buy? then q.maker else q.taker, q.quote) }

  function BuyerFee(q: Request): Fee { if q.makerSide.Buy? then q.makerFee else q.takerFee }

  /** Two accounts and a third for the fees, which are in the quote asset; the reservations cover both legs in full. */
  ghost predicate CoveredWithFees(s: Ledger, q: Request) {
    && Proper(s, q) && q.maker != q.taker && q.feeAccount != q.maker && q.feeAccount != q.taker
    && q.makerFee.asset == q.quote && q.takerFee.asset == q.quote
    && q.price > 0.0 && q.quantity > 0.0 && !q.makerSide.UnknownSide?
    && Cover(s.reservations, q.makerOrder, q.MakerRow().asset, q.MakerAmount()) == Some(q.MakerAmount())
    && Cover(s.reservations, q.takerOrder, q.TakerRow().asset, q.TakerAmount()) == Some(q.TakerAmount())
  }

  /** What the paying rows pay: the seller its quantity, the buyer its notional and its fee. */
  lemma NetOfPayers(q: Request)
    requires q.base != q.quote && q.maker != q.taker && q.feeAccount != q.maker && q.feeAccount != q.taker
    requires q.makerFee.asset == q.quote && q.takerFee.asset == q.quote && !q.makerSide.UnknownSide?
    ensures var fee := if BuyerFee(q).amount > 0.0 then BuyerFee(q).amount else 0.0;
            NetOf(RawEntries(q), At(BuyerRow(q))) == -q.Notional() - fee
    ensures var seller := if q.makerSide.Buy? then q.TakerRow() else q.MakerRow();
            NetOf(RawEntries(q), At(seller)) == -q.quantity
  {
    hide NetOf, RawEntries;
    var seller := if q.makerSide.Buy? then q.TakerRow() else q.MakerRow();
    NetOfRaw(q, At(seller));
    NetOfRaw(q, At(BuyerRow(q)));
    NetOfFees(q.maker, q.makerFee, q.feeAccount, At(seller));
    NetOfFees(q.taker, q.takerFee, q.feeAccount, At(seller));
    NetOfFees(q.maker, q.makerFee, q.feeAccount, At(BuyerRow(q)));
    NetOfFees(q.taker, q.takerFee, q.feeAccount, At(BuyerRow(q)));
  }

  /** With full covers that comes down to the fee, which is drawn from the locked funds with the price: locked funds
      stay exact if and only if the buyer pays no fee, or had nothing beyond the price locked. */
  lemma FeeKeepsTightIff(s: Ledger, q: Request)
    requires Sound(s) && Tight(s) && CoveredWithFees(s, q) && Book(s, q).Some?
    ensures Tight(Book(s, q).value) <==>
            BuyerFee(q).amount <= 0.0 || BalanceAt(s.balances, BuyerRow(q)).locked == q.Notional()
  {
    hide Book, Tight, Sound, NetOf, RawEntries, Cover;
    BookKeepsTightIff(s, q);
    NetOfPayers(q);
    AmountsPositive(q);
  }

  // ---------- release ----------

  /** Releasing keeps locked funds exact if and only if the reservation is active, is used up, or nothing is locked. */
  lemma ReleaseKeepsTightIff(s: Ledger, order: Id)
    requires Sound(s) && Tight(s) && order != NONE && order in s.reservations
    ensures Tight(Release(s, order).0) <==>
            ReleaseInOrder(s, order) || BalanceAt(s.balances, s.reservations[order].Row()).locked == 0.0
  {
    hide SumOver;
    var s', r := Release(s, order).0, s.reservations[order];
    assert TightAt(s, r.Row());
    if r.status.Active? {
      TightCovers(s, order);
    }
    forall k
      ensures ActiveSum(s'.reservations, k) ==
              ActiveSum(s.reservations, k) - if r.status.Active? && r.Row() == k then r.Remaining() else 0.0
    {
      SumUpdate(s.reservations, ActiveAt(k), order, s'.reservations[order]);
    }
    if ReleaseInOrder(s, order) || BalanceAt(s.balances, r.Row()).locked == 0.0 {
      forall k ensures TightAt(s', k) { assert TightAt(s, k); }
    } else {
      assert !TightAt(s', r.Row());
    }
  }

  /** Releasing an order a second time hands out, once more, as much as the first time did, as far as other orders
      have funds locked there; their reservations stay as they are. */
  lemma ReleaseTwice(s: Ledger, order: Id)
    requires Sound(s) && order != NONE && order in s.reservations
    ensures var r := s.reservations[order]; var locked := BalanceAt(s.balances, r.Row()).locked;
            var freed := Min(locked, r.Remaining());
            var once := Release(s, order); var twice := Release(once.0, order);
            && once.1 == ReleasedAmount(freed) && twice.1 == ReleasedAmount(Min(locked - freed, freed))
            && BalanceAt(twice.0.balances, r.Row()).locked == locked - freed - Min(locked - freed, freed)
            && (forall id :: id != order && id in s.reservations ==>
                  id in twice.0.reservations && twice.0.reservations[id] == s.reservations[id])
  {
    var r, once := s.reservations[order], Release(s, order).0;
    var locked := BalanceAt(s.balances, r.Row()).locked;
    assert locked >= 0.0;
    assert BalanceAt(once.balances, r.Row()).locked == locked - Min(locked, r.Remaining());
  }

  lemma ReleaseKeepsTight(s: Ledger, order: Id, k: Key)
    requires Sound(s) && Tight(s) && ReleaseInOrder(s, order)
    ensures TightAt(Release(s, order).0, k)
  {
    hide ActiveSum, SumOver;
    if order != NONE && order in s.reservations {
      ReleaseKeepsTightIff(s, order);
    } else {
      assert TightAt(s, k);
    }
  }

  // ---------- runs ----------

  lemma StepKeepsTight(s: Ledger, op: Op)
    requires Sound(s) && Tight(s) && Exact(s, op)
    ensures Tight(Step(s, op))
  {
    hide Settle, Reserve, Release, SumOver, ActiveSum, HeldInAll;
    forall k ensures TightAt(Step(s, op), k) {
      assert TightAt(s, k);
      match op {
        case DoReserve(account, order, a, amount) => ReserveKeeps(s, account, order, a, amount, NONE, k);
        case DoRelease(order) => ReleaseKeepsTight(s, order, k);
        case DoSettle(q) => SettleKeepsTight(s, q, k);
      }
    }
  }

  /** With full covers, no fees and releases in order, locked funds equal the active reservations all along. */
  lemma {:induction false} LockedEqualsReservations(s: Ledger, ops: seq<Op>)
    requires Sound(s) && Tight(s) && ExactRun(s, ops)
    ensures Sound(Run(s, ops)) && Tight(Run(s, ops))
    decreases |ops|
  {
    hide Step, Sound, Tight, Exact, HeldInAll;
    if ops != [] {
      StepKeepsMoney(s, ops[0], NONE);
      StepKeepsTight(s, ops[0]);
      LockedEqualsReservations(Step(s, ops[0]), ops[1..]);
    }
  }

  /** Exactly when a step leaves locked funds exact. */
  ghost predicate KeepsTight(s: Ledger, op: Op) {
    match op
    case DoReserve(_, _, _, _) => true
    case DoRelease(order) =>
      order == NONE || ReleaseInOrder(s, order) || BalanceAt(s.balances, s.reservations[order].Row()).locked == 0.0
    case DoSettle(q) => Settle(s, q).1.Settled? ==> StaysTight(s, q)
  }

  lemma StepKeepsTightIff(s: Ledger, op: Op)
    requires Sound(s) && Tight(s) && (op.DoSettle? ==> Proper(s, op.request))
    ensures Tight(Step(s, op)) <==> KeepsTight(s, op)
  {
    hide Reserve, SumOver, ActiveSum, HeldInAll, Book, StaysTight;
    match op {
      case DoReserve(account, order, a, amount) => StepKeepsTight(s, op);
      case DoRelease(order) =>
        if order != NONE && order in s.reservations {
          ReleaseKeepsTightIff(s, order);
        }
      case DoSettle(q) =>
        if Settle(s, q).1.Settled? {
          BookKeepsTightIff(s, q);
        } else {
          UnsettledKeeps(s, q);
          forall k ensures TightAt(Step(s, op), k) { assert TightAt(s, k); }
        }
    }
  }

  ghost predicate AlwaysTight(s: Ledger, ops: seq<Op>)
    decreases |ops|
  {
    Tight(s) && (ops == [] || AlwaysTight(Step(s, ops[0]), ops[1..]))
  }

  ghost predicate AllKeepTight(s: Ledger, ops: seq<Op>)
    decreases |ops|
  {
    ops == [] || (KeepsTight(s, ops[0]) && AllKeepTight(Step(s, ops[0]), ops[1..]))
  }

  /** Over every run on the reserving accounts, fees, partial covers and repeated releases included: locked funds equal
      the active reservations all along if and only if every step meets its condition. */
  lemma {:induction false} TightRunIff(s: Ledger, ops: seq<Op>)
    requires Sound(s) && Tight(s) && ProperRun(s, ops)
    ensures AlwaysTight(s, ops) <==> AllKeepTight(s, ops)
    decreases |ops|
  {
    hide Step, Sound, Tight, KeepsTight, HeldInAll, Proper;
    if ops != [] {
      StepKeepsMoney(s, ops[0], NONE);
      StepKeepsTightIff(s, ops[0]);
      if Tight(Step(s, ops[0])) {
        TightRunIff(Step(s, ops[0]), ops[1..]);
      }
    }
  }

  lemma NothingReserved(bs: map<Key, Balance>, k: Key)
    requires k in bs ==> bs[k].locked == 0.0
    ensures TightAt(Ledger(bs, map[], [], {}), k)
  {
  }

  /** A concrete case: two orders of one account reserve one unit each; releasing the first twice frees the second's. */
  lemma SecondReleaseBreaks(account: Id, asset: Id)
    requires asset != NONE
    ensures var s := Ledger(map[Key(account, asset) := Balance(2.0, 0.0)], map[], [], {});
            var ops := [DoReserve(account, Name(1), asset, 1.0), DoReserve(account, Name(2), asset, 1.0),
                        DoRelease(Name(1))];
            Tight(Run(s, ops)) && !Tight(Run(s, ops + [DoRelease(Name(1))]))
  {
    hide ActiveSum, SumOver, Run;
    var k := Key(account, asset);
    var s0 := Ledger(map[k := Balance(2.0, 0.0)], map[], [], {});
    var first := DoReserve(account, Name(1), asset, 1.0);
    var second := DoReserve(account, Name(2), asset, 1.0);
    var again := DoRelease(Name(1));
    forall j ensures TightAt(s0, j) { NothingReserved(s0.balances, j); }
    var s1, s2 := Step(s0, first), Step(Step(s0, first), second);
    var s3 := Step(s2, again);
    StepKeepsTight(s0, first);
    StepKeepsMoney(s0, first, NONE);
    StepKeepsTight(s1, second);
    StepKeepsMoney(s1, second, NONE);
    StepKeepsTight(s2, again);
    StepKeepsMoney(s2, again, NONE);
    ReleaseKeepsTightIff(s3, Name(1));
    RunFour(s0, first, second, again, again);
  }

  lemma RunFour(s: Ledger, a: Op, b: Op, c: Op, d: Op)
    ensures Run(s, [a, b, c]) == Step(Step(Step(s, a), b), c)
    ensures Run(s, [a, b, c] + [d]) == Step(Step(Step(Step(s, a), b), c), d)
  {
    hide Step;
    assert [a, b, c][1..] == [b, c] && [b, c][1..] == [c] && [c][1..] == [];
    assert ([a, b, c] + [d])[1..] == [b, c, d] && [b, c, d][1..] == [c, d] && [c, d][1..] == [d] && [d][1..] == [];
    assert Run(Step(Step(s, a), b), [c]) == Step(Step(Step(s, a), b), c);
    assert Run(Step(Step(s, a), b), [c, d]) == Run(Step(Step(Step(s, a), b), c), [d]);
  }

  // ---------- what a release returns ----------

  function Leg(q: Request, order: Id): Decimal {
    (if q.makerOrder == order then q.MakerAmount() else 0.0) + (if q.takerOrder == order then q.TakerAmount() else 0.0)
  }

  function Filled(q: Request, order: Id): Decimal {
    (if q.makerOrder == order then q.quantity else 0.0) + (if q.takerOrder == order then q.quantity else 0.0)
  }

  /** Sum a weight over the settlements that a run actually books. */
  function OverSettled(s: Ledger, ops: seq<Op>, w: Request -> Decimal): Decimal
    decreases |ops|
  {
    if ops == [] then 0.0
    else
      (if ops[0].DoSettle? && Settle(s, ops[0].request).1.Settled? then w(ops[0].request) else 0.0)
      + OverSettled(Step(s, ops[0]), ops[1..], w)
  }

  function LegOf(order: Id): Request -> Decimal { (q: Request) => Leg(q, order) }

  /** The order's own share of a run: it is never released, and its reservation stays in use. */
  ghost predicate Unreleased(ops: seq<Op>, order: Id) {
    forall i :: 0 <= i < |ops| ==> ops[i] != DoRelease(order)
  }

  /** A booked settlement uses up exactly the order's leg. */
  lemma SettleConsumes(s: Ledger, q: Request, order: Id)
    requires Sound(s) && Settle(s, q).1.Settled? && FullyCovered(s, q) && order in s.reservations
    ensures var r, rs' := s.reservations[order], Settle(s, q).0.reservations;
            && order in rs' && rs'[order].amount == r.amount && rs'[order].Row() == r.Row()
            && rs'[order].consumed == r.consumed + Leg(q, order)
            && (r.status.Active? || Leg(q, order) == 0.0)
            && rs'[order].status ==
               if r.status.Active? && rs'[order].Remaining() <= 0.0 && Leg(q, order) > 0.0 then Consumed else r.status
  {
    hide Book, NetOf, RawEntries, MakerUsed, TakerUsed;
    FullUse(s, q);
    BookReservations(s, q);
    CoverInUse(s.reservations, q.makerOrder, q.MakerRow(), q.MakerAmount());
    CoverInUse(s.reservations, q.takerOrder, q.TakerRow(), q.TakerAmount());
  }

  lemma OtherStepsKeep(s: Ledger, op: Op, order: Id)
    requires order in s.reservations && !op.DoSettle? && op != DoRelease(order)
    ensures order in Step(s, op).reservations && Step(s, op).reservations[order] == s.reservations[order]
  {
  }

  /** A reservation that has not been released is active, or was used up by settlements. */
  predicate InUse(r: Reservation) {
    r.status.Active? || (r.status.Consumed? && r.Remaining() <= 0.0)
  }

  /** In an exact run an unreleased reservation has been used for exactly the order's legs. */
  lemma {:induction false} ConsumedIsPaid(s: Ledger, ops: seq<Op>, order: Id)
    requires Sound(s) && Tight(s) && ExactRun(s, ops) && Unreleased(ops, order)
    requires order in s.reservations && InUse(s.reservations[order])
    ensures var r, rs' := s.reservations[order], Run(s, ops).reservations;
            && order in rs' && rs'[order].amount == r.amount && rs'[order].Row() == r.Row() && InUse(rs'[order])
            && rs'[order].consumed == r.consumed + OverSettled(s, ops, LegOf(order))
    decreases |ops|
  {
    hide Sound, Tight, HeldInAll, Settle, Reserve, Release;
    if ops != [] {
      StepKeepsMoney(s, ops[0], NONE);
      StepKeepsTight(s, ops[0]);
      assert ops[0] != DoRelease(order);
      assert Unreleased(ops[1..], order) by { UnreleasedTail(ops, order); }
      if ops[0].DoSettle? && Settle(s, ops[0].request).1.Settled? {
        SettleConsumes(s, ops[0].request, order);
        AmountsPositive(ops[0].request);
        StaysSound(s, ops[0], order);
      } else if ops[0].DoSettle? {
        UnsettledKeeps(s, ops[0].request);
      } else {
        OtherStepsKeep(s, ops[0], order);
      }
      ConsumedIsPaid(Step(s, ops[0]), ops[1..], order);
    }
  }

  lemma StaysSound(s: Ledger, op: Op, order: Id)
    requires Sound(Step(s, op)) && order in Step(s, op).reservations
    ensures Step(s, op).reservations[order].Remaining() >= 0.0
  {
  }

  lemma UnreleasedTail(ops: seq<Op>, order: Id)
    requires Unreleased(ops, order) && ops != []
    ensures Unreleased(ops[1..], order)
  {
  }

  function FilledOf(order: Id): Request -> Decimal { (q: Request) => Filled(q, order) }

  predicate Involves(q: Request, order: Id) { q.makerOrder == order || q.takerOrder == order }

  /** The order buys in this trade, or sells in it. */
  predicate BuysIn(q: Request, order: Id) {
    && q.makerOrder != q.takerOrder
    && ((q.makerOrder == order && q.makerSide.Buy?) || (q.takerOrder == order && q.makerSide.Sell?))
  }

  predicate SellsIn(q: Request, order: Id) {
    && q.makerOrder != q.takerOrder
    && ((q.makerOrder == order && q.makerSide.Sell?) || (q.takerOrder == order && q.makerSide.Buy?))
  }

  ghost predicate OnlyBuys(ops: seq<Op>, order: Id) {
    forall i :: 0 <= i < |ops| && ops[i].DoSettle? && Involves(ops[i].request, order) ==> BuysIn(ops[i].request, order)
  }

  ghost predicate OnlySells(ops: seq<Op>, order: Id) {
    forall i :: 0 <= i < |ops| && ops[i].DoSettle? && Involves(ops[i].request, order) ==> SellsIn(ops[i].request, order)
  }

  /** The price improvement of a buy: the difference to its limit on every unit traded. */
  function SavedOf(order: Id, limit: Decimal): Request -> Decimal {
    (q: Request) => if Involves(q, order) then (limit - q.price) * q.quantity else 0.0
  }

  /** What a buy saves on a trade is what it would have paid at its limit, less what it pays. */
  lemma BuyerSaves(q: Request, order: Id, limit: Decimal)
    requires Involves(q, order) ==> BuysIn(q, order)
    ensures SavedOf(order, limit)(q) == limit * Filled(q, order) - Leg(q, order)
  {
    assert (limit - q.price) * q.quantity == limit * q.quantity - q.price * q.quantity;
  }

  /** What holds of every settlement's weights holds of their sums. */
  lemma {:induction false} OverSettledLinear(
    s: Ledger, ops: seq<Op>, w: Request -> Decimal, f: Request -> Decimal, g: Request -> Decimal, c: Decimal)
    requires forall i :: 0 <= i < |ops| && ops[i].DoSettle? ==>
               w(ops[i].request) == c * f(ops[i].request) - g(ops[i].request)
    ensures OverSettled(s, ops, w) == c * OverSettled(s, ops, f) - OverSettled(s, ops, g)
    decreases |ops|
  {
    hide Step, Settle;
    if ops != [] {
      OverSettledLinear(Step(s, ops[0]), ops[1..], w, f, g, c);
    }
  }

  lemma SavedIsDifference(s: Ledger, ops: seq<Op>, order: Id, limit: Decimal)
    requires OnlyBuys(ops, order)
    ensures OverSettled(s, ops, SavedOf(order, limit)) ==
            limit * OverSettled(s, ops, FilledOf(order)) - OverSettled(s, ops, LegOf(order))
  {
    hide OverSettled, Filled, Leg, BuysIn;
    forall i | 0 <= i < |ops| && ops[i].DoSettle?
      ensures SavedOf(order, limit)(ops[i].request) ==
              limit * FilledOf(order)(ops[i].request) - LegOf(order)(ops[i].request)
    {
      BuyerSaves(ops[i].request, order, limit);
    }
    OverSettledLinear(s, ops, SavedOf(order, limit), FilledOf(order), LegOf(order), limit);
  }

  function NothingOf(): Request -> Decimal { (q: Request) => 0.0 }

  lemma {:induction false} NothingSettled(s: Ledger, ops: seq<Op>)
    ensures OverSettled(s, ops, NothingOf()) == 0.0
    decreases |ops|
  {
    hide Step, Settle;
    if ops != [] { NothingSettled(Step(s, ops[0]), ops[1..]); }
  }

  /** A sell pays out what it fills. */
  lemma SoldIsFilled(s: Ledger, ops: seq<Op>, order: Id)
    requires OnlySells(ops, order)
    ensures OverSettled(s, ops, LegOf(order)) == OverSettled(s, ops, FilledOf(order))
  {
    hide OverSettled;
    NothingSettled(s, ops);
    OverSettledLinear(s, ops, LegOf(order), FilledOf(order), NothingOf(), 1.0);
  }

  /** Releasing a tight ledger's unreleased order returns exactly what it did not use. */
  lemma ReleaseReturnsRest(s: Ledger, order: Id)
    requires Sound(s) && Tight(s) && order != NONE && order in s.reservations && InUse(s.reservations[order])
    ensures var r := s.reservations[order]; var (s', out) := Release(s, order);
            && out == ReleasedAmount(r.Remaining()) && !s'.reservations[order].status.Active?
            && BalanceAt(s'.balances, r.Row()) ==
               Balance(BalanceAt(s.balances, r.Row()).available + r.Remaining(),
                       BalanceAt(s.balances, r.Row()).locked - r.Remaining())
  {
    hide SumOver, ActiveSum;
    var r := s.reservations[order];
    assert TightAt(s, r.Row());
    if r.status.Active? {
      TightCovers(s, order);
    }
  }

  /** A limit buy that reserved limit times quantity and was filled for that quantity gets back, on release, exactly
      the sum of (limit - price) * quantity over its trades; nothing of its reservation stays locked. */
  lemma BuyRefund(s: Ledger, ops: seq<Op>, order: Id, limit: Decimal, quantity: Decimal)
    requires Sound(s) && Tight(s) && ExactRun(s, ops) && Unreleased(ops, order) && order != NONE
    requires order in s.reservations && s.reservations[order].status.Active? && s.reservations[order].consumed == 0.0
    requires s.reservations[order].amount == limit * quantity
    requires OnlyBuys(ops, order) && OverSettled(s, ops, FilledOf(order)) == quantity
    ensures var s' := Run(s, ops); var (s'', out) := Release(s', order);
            && out == ReleasedAmount(OverSettled(s, ops, SavedOf(order, limit)))
            && Tight(s'') && !s''.reservations[order].status.Active?
            && Held(s'', s.reservations[order].Row()) == Held(s', s.reservations[order].Row())
  {
    hide Sound, Tight, Run, OverSettled, Step, HeldInAll, ActiveSum;
    var s' := Run(s, ops);
    LockedEqualsReservations(s, ops);
    ConsumedIsPaid(s, ops, order);
    SavedIsDifference(s, ops, order, limit);
    ReleaseReturnsRest(s', order);
    ReleaseKeepsTightIff(s', order);
    ReleaseKeeps(s', order, NONE, s.reservations[order].Row());
  }

  /** A sell that reserved its quantity and was filled for it gets nothing back. */
  lemma SellRefund(s: Ledger, ops: seq<Op>, order: Id, quantity: Decimal)
    requires Sound(s) && Tight(s) && ExactRun(s, ops) && Unreleased(ops, order) && order != NONE
    requires order in s.reservations && s.reservations[order].status.Active? && s.reservations[order].consumed == 0.0
    requires s.reservations[order].amount == quantity
    requires OnlySells(ops, order) && OverSettled(s, ops, FilledOf(order)) == quantity
    ensures Release(Run(s, ops), order).1 == ReleasedAmount(0.0)
    ensures Release(Run(s, ops), order).0.balances == Run(s, ops).balances
  {
    hide Sound, Tight, Run, OverSettled, Step, HeldInAll, ActiveSum;
    LockedEqualsReservations(s, ops);
    ConsumedIsPaid(s, ops, order);
    SoldIsFilled(s, ops, order);
    ReleaseReturnsRest(Run(s, ops), order);
  }
}
