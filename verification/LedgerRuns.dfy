/** Every run of reserve, release and settle. */
module LedgerRuns {
  import opened Orders
  import opened MapSums
  import opened Entries
  import opened LedgerSteps
  import opened LedgerLaws

  datatype Op =
    | DoReserve(account: Id, order: Id, asset: Id, amount: Decimal)
    | DoRelease(order: Id)
    | DoSettle(request: Request)

  function Step(s: Ledger, op: Op): Ledger {
    match op
    case DoReserve(account, order, asset, amount) => Reserve(s, account, order, asset, amount).0
    case DoRelease(order) => Release(s, order).0
    case DoSettle(q) => Settle(s, q).0
  }

  function Run(s: Ledger, ops: seq<Op>): Ledger
    decreases |ops|
  {
    if ops == [] then s else Run(Step(s, ops[0]), ops[1..])
  }

  /** Every settlement of the run is on the accounts that reserved, in a market of two assets. */
  ghost predicate ProperRun(s: Ledger, ops: seq<Op>)
    decreases |ops|
  {
    ops == [] || ((ops[0].DoSettle? ==> Proper(s, ops[0].request)) && ProperRun(Step(s, ops[0]), ops[1..]))
  }

  function JournalNet(journal: seq<JournalRow>, k: Key): Decimal {
    if journal == [] then 0.0
    else (if journal[0].entry.key == k then journal[0].entry.Delta() else 0.0) + JournalNet(journal[1..], k)
  }

  // ---------- one step ----------

  /** A refused reservation, a release that finds nothing and a failed settlement change nothing; a duplicate
      settlement only records its event. */
  lemma RefusalsChangeNothing(s: Ledger, account: Id, order: Id, asset: Id, amount: Decimal, q: Request)
    ensures var (s', out) := Reserve(s, account, order, asset, amount); out.Reserved? || s' == s
    ensures var (s', out) := Release(s, order); out.NotFound? ==> s' == s
    ensures var (s', out) := Settle(s, q);
            (out.Failed? ==> s' == s) && (out.AlreadyProcessed? ==> s' == Mark(s, q.event))
  {
    hide Book;
  }

  lemma SettleKeeps(s: Ledger, q: Request, asset: Id)
    requires Sound(s)
    ensures Sound(Settle(s, q).0) && HeldInAll(Settle(s, q).0, asset) == HeldInAll(s, asset)
  {
    hide Book, SumOver, NetOf;
    if Settle(s, q).1.Settled? {
      BookConserves(s, q, asset);
      BookReservations(s, q);
      var rs1 := Consume(s.reservations, q.makerOrder, MakerUsed(s, q));
      ConsumeKeeps(s.reservations, q.makerOrder, MakerUsed(s, q), q.MakerRow());
      ConsumeKeeps(rs1, q.takerOrder, TakerUsed(s, q), q.TakerRow());
    }
  }

  lemma StepKeepsMoney(s: Ledger, op: Op, asset: Id)
    requires Sound(s)
    ensures Sound(Step(s, op)) && HeldInAll(Step(s, op), asset) == HeldInAll(s, asset)
  {
    hide Settle, Reserve, Release, Sound, HeldInAll, SumOver;
    match op {
      case DoReserve(account, order, a, amount) => ReserveKeeps(s, account, order, a, amount, asset, Key(account, a));
      case DoRelease(order) => ReleaseKeeps(s, order, asset, Key(order, asset));
      case DoSettle(q) => SettleKeeps(s, q, asset);
    }
  }

  lemma StepKeepsBound(s: Ledger, op: Op, k: Key)
    requires Sound(s) && Bounded(s, k) && (op.DoSettle? ==> Proper(s, op.request))
    ensures Bounded(Step(s, op), k)
  {
    hide Book, Reserve, Release, SumOver, ActiveSum, HeldInAll;
    match op {
      case DoReserve(account, order, a, amount) => ReserveKeeps(s, account, order, a, amount, NONE, k);
      case DoRelease(order) => ReleaseKeeps(s, order, NONE, k);
      case DoSettle(q) =>
        if Settle(s, q).1.Settled? {
          BookKeepsBound(s, q, k);
        }
    }
  }

  // ---------- runs ----------

  /** No run creates or destroys money, and no row goes negative. */
  lemma {:induction false} MoneyIsConserved(s: Ledger, ops: seq<Op>, asset: Id)
    requires Sound(s)
    ensures Sound(Run(s, ops)) && HeldInAll(Run(s, ops), asset) == HeldInAll(s, asset)
    decreases |ops|
  {
    hide Step, Sound, HeldInAll;
    if ops != [] {
      StepKeepsMoney(s, ops[0], asset);
      MoneyIsConserved(Step(s, ops[0]), ops[1..], asset);
    }
  }

  /** Released twice or not, settled with fees or not: locked funds never exceed what active reservations still hold. */
  lemma {:induction false} LockedWithinReservations(s: Ledger, ops: seq<Op>, k: Key)
    requires Sound(s) && Bounded(s, k) && ProperRun(s, ops)
    ensures Bounded(Run(s, ops), k)
    decreases |ops|
  {
    hide Step, Sound, Bounded, HeldInAll;
    if ops != [] {
      StepKeepsMoney(s, ops[0], NONE);
      StepKeepsBound(s, ops[0], k);
      LockedWithinReservations(Step(s, ops[0]), ops[1..], k);
    }
  }

  // ---------- the journal ----------

  lemma {:induction false} JournalConcat(a: seq<JournalRow>, b: seq<JournalRow>, k: Key)
    ensures JournalNet(a + b, k) == JournalNet(a, k) + JournalNet(b, k)
  {
    if a == [] {
      assert a + b == b;
    } else {
      assert (a + b)[1..] == a[1..] + b;
      JournalConcat(a[1..], b, k);
    }
  }

  lemma {:induction false} BookedNet(trade: TradeId, es: seq<Entry>, k: Key)
    ensures JournalNet(Booked(trade, es), k) == NetOf(es, At(k))
  {
    if es != [] {
      BookedNet(trade, es[1..], k);
      assert ([JournalRow(trade, es[0])] + Booked(trade, es[1..]))[1..] == Booked(trade, es[1..]);
    }
  }

  lemma StepKeepsAccount(s: Ledger, op: Op, k: Key)
    requires Sound(s)
    ensures Held(Step(s, op), k) - JournalNet(Step(s, op).journal, k) == Held(s, k) - JournalNet(s.journal, k)
  {
    hide Book, Reserve, Release, SumOver, NetOf, Netted, RawEntries;
    match op {
      case DoReserve(account, order, a, amount) => ReserveKeeps(s, account, order, a, amount, NONE, k);
      case DoRelease(order) => ReleaseKeeps(s, order, NONE, k);
      case DoSettle(q) =>
        if Settle(s, q).1.Settled? {
          BookMoves(s, q, k);
          BookParts(s, q);
          NettingPreserves(RawEntries(q), At(k));
          JournalConcat(s.journal, Booked(q.trade, Netted(RawEntries(q))), k);
          BookedNet(q.trade, Netted(RawEntries(q)), k);
        }
    }
  }

  /** The journal explains every balance: what a row holds beyond its opening balance is the sum of its entries. */
  lemma {:induction false} JournalExplainsBalances(s: Ledger, ops: seq<Op>, k: Key)
    requires Sound(s)
    ensures Held(Run(s, ops), k) - JournalNet(Run(s, ops).journal, k) == Held(s, k) - JournalNet(s.journal, k)
    decreases |ops|
  {
    hide Step, Sound, Held, HeldInAll;
    if ops != [] {
      StepKeepsMoney(s, ops[0], NONE);
      StepKeepsAccount(s, ops[0], k);
      JournalExplainsBalances(Step(s, ops[0]), ops[1..], k);
    }
  }
}
