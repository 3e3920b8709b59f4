/** A settlement transaction that is not disturbed does all that the atomic settlement does. */
module SettlementProgress {
  import opened Orders
  import opened Entries
  import opened LedgerSteps
  import opened LedgerLaws
  import opened LedgerRuns
  import opened Settlements

  lemma ScheduleFour(w: World, a: Action, b: Action, c: Action, d: Action)
    ensures Schedule(w, [a, b, c, d]) == Do(Do(Do(Do(w, a), b), c), d)
  {
    hide Do;
    assert [a, b, c, d][1..] == [b, c, d] && [b, c, d][1..] == [c, d] && [c, d][1..] == [d] && [d][1..] == [];
    assert Schedule(Do(w, a), [b, c, d]) == Schedule(Do(Do(w, a), b), [c, d]);
    assert Schedule(Do(Do(Do(w, a), b), c), [d]) == Do(Do(Do(Do(w, a), b), c), d);
  }

  /** A transaction that is let through without interruption does what the atomic settlement does, ends with its
      answer, and gives up the lock. */
  lemma AloneIsSettle(w: World, t: nat)
    requires Inv(w) && t in w.txs && w.txs[t].phase.Begun? && w.holder.None?
    ensures var w' := Schedule(w, [Check(t), Acquire(t), Apply(t), Insert(t)]); var r := Settle(w.db, w.txs[t].request);
            w'.db == r.0 && t in w'.txs && w'.txs[t].phase == Ended(r.1) && w'.holder.None?
  {
    hide Inv, Book, TradeBooked, Collides, MakeBuffer, Write, Schedule;
    ScheduleFour(w, Check(t), Acquire(t), Apply(t), Insert(t));
    var q := w.txs[t].request;
    var w1 := Do(w, Check(t));
    if w1.txs[t].phase.Checked? {
      assert w1 == To(w, t, Checked);
      var w2 := Do(w1, Acquire(t));
      assert w2 == To(w1, t, Locked).(holder := Some(t));
      CheckedBooks(w, t);
      BufferIffBook(w.db, q);
      if Book(w.db, q).Some? {
        WriteIsBook(w.db, q);
        BufferEntries(w.db, q);
      }
    }
  }

  lemma BufferIffBook(db: Ledger, q: Request)
    ensures MakeBuffer(db, q).Some? <==> Book(db, q).Some?
  {
    hide Book, Netted, RawEntries;
  }

  /** What has passed the check is not in the journal, so its insert meets nothing. */
  lemma CheckedBooks(w: World, t: nat)
    requires t in w.txs && w.txs[t].phase.Begun? && Do(w, Check(t)).txs[t].phase.Checked?
    ensures !Collides(w.db.journal, w.txs[t].request.trade, Netted(RawEntries(w.txs[t].request)))
  {
    hide Netted, RawEntries;
  }

  /** Reserves and releases run whenever no settlement holds the rows they need. */
  lemma OutsideRuns(w: World, op: Op)
    requires !op.DoSettle? && (w.holder.None? || w.holder.value !in w.txs || !w.txs[w.holder.value].phase.Applied?)
    ensures Do(w, Outside(op)) == w.(db := LedgerRuns.Step(w.db, op))
  {
  }
}
