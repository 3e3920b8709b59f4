/** What the ledger answers, on every input, and what it remembers. */
module LedgerAnswers {
  import opened Orders
  import opened Entries
  import opened LedgerSteps
  import opened LedgerLaws
  import opened LedgerRuns
  import opened LedgerProgress

  // ---------- reserve ----------

  predicate GoodReserve(order: Id, asset: Id, amount: Decimal) { order != NONE && asset != NONE && amount > 0.0 }

  /** The four answers to a reserve, each exactly when. */
  lemma ReserveAnswers(s: Ledger, account: Id, order: Id, asset: Id, amount: Decimal)
    ensures var out := Reserve(s, account, order, asset, amount).1; var good := GoodReserve(order, asset, amount);
            var available := BalanceAt(s.balances, Key(account, asset)).available;
            var known := order in s.reservations;
            && (out.Insufficient? <==> good && !known && available < amount)
            && (out.Closed? <==> good && known && s.reservations[order].status != Active)
            && (out.Reserved? <==>
                  && good
                  && if known then
                       var r := s.reservations[order]; r.status == Active && r.account == account && r.asset == asset
                     else available >= amount)
            && (out.Rejected? <==>
                  || !good
                  || (&& known && s.reservations[order].status == Active
                      && (s.reservations[order].account != account || s.reservations[order].asset != asset)))
  {
  }

  /** A repeated reserve returns the stored reservation and changes nothing; a new one moves the amount from available
      to locked on its row and opens the reservation; no other row or reservation is touched. */
  lemma ReserveEffect(s: Ledger, account: Id, order: Id, asset: Id, amount: Decimal, k: Key, other: Id)
    requires Reserve(s, account, order, asset, amount).1.Reserved?
    ensures var (s', out) := Reserve(s, account, order, asset, amount); var row := Key(account, asset);
            if order in s.reservations then s' == s && out.reservation == s.reservations[order]
            else
              var b, b' := BalanceAt(s.balances, k), BalanceAt(s'.balances, k);
              var moved := if k == row then amount else 0.0;
              && b'.available == b.available - moved && b'.locked == b.locked + moved
              && order in s'.reservations && s'.reservations[order] == out.reservation
              && out.reservation == Reservation(account, asset, amount, 0.0, Active)
              && (other != order ==> SameAt(s.reservations, s'.reservations, other))
              && s'.journal == s.journal && s'.events == s.events
  {
  }

  // ---------- release ----------

  /** A release answers not found exactly for an order without reservation. Otherwise it moves what the reservation
      still holds, as far as the row has it locked, back to available, and leaves the reservation inactive: used up if
      nothing was freed, released if something was. */
  lemma ReleaseIs(s: Ledger, order: Id, k: Key, other: Id)
    requires Sound(s)
    ensures var (s', out) := Release(s, order);
            && (out.NotFound? <==> order == NONE || order !in s.reservations)
            && (out.NotFound? ==> s' == s)
            && (out.ReleasedAmount? ==>
                  var r, r' := s.reservations[order], s'.reservations[order];
                  var freed := Min(r.amount - r.consumed, BalanceAt(s.balances, r.Row()).locked);
                  var b, b' := BalanceAt(s.balances, k), BalanceAt(s'.balances, k);
                  var moved := if k == r.Row() then freed else 0.0;
                  && out.amount == freed
                  && b'.available == b.available + moved && b'.locked == b.locked - moved
                  && r'.Row() == r.Row() && r'.amount == r.amount && r'.consumed == r.amount - freed
                  && r'.status == (if freed > 0.0 then Released else Consumed)
                  && (other != order ==> SameAt(s.reservations, s'.reservations, other))
                  && s'.journal == s.journal && s'.events == s.events)
  {
    if order in s.reservations {
      assert ReservationOk(s.reservations[order]);
    }
  }

  // ---------- covers ----------

  /** A cover is refused exactly for an active reservation in another asset, and is otherwise as much of the wanted
      amount as an active reservation still holds. */
  lemma CoverIs(rs: map<Id, Reservation>, order: Id, asset: Id, desired: Decimal)
    requires ReservationsOk(rs)
    ensures var cover := Cover(rs, order, asset, desired);
            var active := order != NONE && desired > 0.0 && order in rs && rs[order].status == Active;
            && (cover.None? <==> active && rs[order].asset != asset)
            && (cover.Some? ==>
                  cover.value == if active then Min(desired, rs[order].amount - rs[order].consumed) else 0.0)
  {
  }

  /** Using an active reservation adds to its consumed amount, as far as it goes, and closes it when nothing is left;
      any other reservation stays as it is. */
  lemma ConsumeIs(rs: map<Id, Reservation>, order: Id, amount: Decimal, other: Id)
    requires ReservationsOk(rs)
    ensures var rs' := Consume(rs, order, amount);
            && (other != order ==> SameAt(rs, rs', other))
            && (order in rs <==> order in rs')
            && (order in rs ==>
                  var r, r' := rs[order], rs'[order];
                  if order == NONE || amount <= 0.0 || r.status != Active || r.consumed == r.amount then r' == r
                  else
                    && r'.consumed == Min(r.consumed + amount, r.amount) && r'.Row() == r.Row() && r'.amount == r.amount
                    && r'.status == if r'.consumed == r.amount then Consumed else Active)
  {
    if order in rs {
      assert ReservationOk(rs[order]);
    }
  }

  /** How much of each order's reservation a settlement uses: as much of what the row pays as is covered. Where maker
      and taker pay from one row, both use what the taker's cover gives. */
  lemma UsedIs(s: Ledger, q: Request, maker: Decimal, taker: Decimal)
    requires Cover(s.reservations, q.makerOrder, q.MakerRow().asset, q.MakerAmount()) == Some(maker) && maker >= 0.0
    requires Cover(s.reservations, q.takerOrder, q.TakerRow().asset, q.TakerAmount()) == Some(taker) && taker >= 0.0
    ensures var pays := -NetOf(RawEntries(q), At(q.TakerRow()));
            TakerUsed(s, q) == if pays > 0.0 then Min(taker, pays) else 0.0
    ensures var pays := -NetOf(RawEntries(q), At(q.MakerRow()));
            MakerUsed(s, q) ==
            if q.MakerRow() == q.TakerRow() && maker > 0.0 && taker > 0.0 then TakerUsed(s, q)
            else if pays > 0.0 then Min(maker, pays) else 0.0
  {
    hide Cover, NetOf, RawEntries;
  }

  // ---------- settle ----------

  predicate GoodRequest(q: Request) { q.price > 0.0 && q.quantity > 0.0 && (q.makerSide == Buy || q.makerSide == Sell) }

  /** A settlement is a duplicate when its event was handled, or its trade has entries in the journal. */
  ghost predicate Duplicate(s: Ledger, q: Request) {
    (exists e :: q.event == Some(e) && e in s.events) || exists row :: row in s.journal && row.trade == q.trade
  }

  /** The three answers to a settlement, each exactly when. */
  lemma SettleAnswers(s: Ledger, q: Request)
    requires NonNegative(s.balances)
    ensures var out := Settle(s, q).1;
            && (out.AlreadyProcessed? <==> GoodRequest(q) && Duplicate(s, q))
            && (out.Settled? <==>
                  && GoodRequest(q) && !Duplicate(s, q) && Netted(RawEntries(q)) != []
                  && Cover(s.reservations, q.makerOrder, q.MakerRow().asset, q.MakerAmount()).Some?
                  && Cover(s.reservations, q.takerOrder, q.TakerRow().asset, q.TakerAmount()).Some?
                  && forall k :: CanPay(s, q, k))
  {
    hide Book, Netted, RawEntries, Cover, CanPay;
    BookSucceedsIff(s, q);
    assert Duplicate(s, q) <==> (q.event.Some? && q.event.value in s.events) || TradeBooked(s.journal, q.trade);
  }

  /** A settlement that settles, or finds itself settled, has its event on record afterwards, and no other event more
      than before; one that settles has its trade in the journal. */
  lemma SettleRemembers(s: Ledger, q: Request)
    ensures var (s', out) := Settle(s, q);
            && (!out.Failed? && q.event.Some? ==> s'.events == s.events + {q.event.value})
            && (out.Failed? || q.event.None? ==> s'.events == s.events)
            && (out.Settled? ==> exists row :: row in s'.journal && row.trade == q.trade)
            && (out.AlreadyProcessed? ==> s'.balances == s.balances && s'.reservations == s.reservations
                                          && s'.journal == s.journal)
  {
    hide Book, Netted, RawEntries;
    if Settle(s, q).1.Settled? {
      BookParts(s, q);
      var es := Netted(RawEntries(q));
      BookedAt(q.trade, es);
      assert Booked(q.trade, es)[0] in Settle(s, q).0.journal;
    }
  }

  lemma StepRemembers(s: Ledger, op: Op)
    ensures s.events <= Step(s, op).events && s.journal <= Step(s, op).journal
  {
    hide Book;
    if op.DoSettle? && Settle(s, op.request).1.Settled? {
      BookParts(s, op.request);
    }
  }

  /** Nothing the ledger has recorded is ever lost. */
  lemma {:induction false} RunRemembers(s: Ledger, ops: seq<Op>)
    ensures s.events <= Run(s, ops).events && s.journal <= Run(s, ops).journal
    decreases |ops|
  {
    hide Step;
    if ops != [] {
      StepRemembers(s, ops[0]);
      RunRemembers(Step(s, ops[0]), ops[1..]);
    }
  }

  /** Once a settlement has gone through, or was found done, any later request with its event, whatever trade it names,
      is answered as processed and changes nothing, no matter what happened in between. */
  lemma EventReplayIsNoOp(s: Ledger, q: Request, ops: seq<Op>, again: Request)
    requires !Settle(s, q).1.Failed? && q.event.Some? && again.event == q.event && GoodRequest(again)
    ensures var later := Run(Settle(s, q).0, ops); Settle(later, again) == (later, AlreadyProcessed)
  {
    hide Book, Run;
    SettleRemembers(s, q);
    RunRemembers(Settle(s, q).0, ops);
    var later := Run(Settle(s, q).0, ops);
    assert later.events + {q.event.value} == later.events;
  }

  /** And any later request for a settled trade, whatever event carries it, is answered as processed and at most
      records that event. */
  lemma TradeReplayIsNoOp(s: Ledger, q: Request, ops: seq<Op>, again: Request)
    requires Settle(s, q).1.Settled? && again.trade == q.trade && GoodRequest(again)
    ensures var later := Run(Settle(s, q).0, ops); var (s', out) := Settle(later, again);
            && out == AlreadyProcessed && s'.balances == later.balances && s'.reservations == later.reservations
            && s'.journal == later.journal
  {
    hide Book, Run;
    SettleRemembers(s, q);
    RunRemembers(Settle(s, q).0, ops);
    var row :| row in Settle(s, q).0.journal && row.trade == q.trade;
    assert row in Run(Settle(s, q).0, ops).journal;
  }
}
