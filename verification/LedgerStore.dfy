/** The ledger's tables and the transactions on them, each proved to perform the step that specifies it.
    A transaction commits all its writes together, so a failing one leaves the tables as they were. */
module LedgerStore {
  import opened Orders
  import opened Entries
  import opened LedgerSteps
  import opened LedgerLaws

  /** Whether a debit with this flag takes what the step's set of drawing rows says. */
  lemma SameDraw(b: Balance, e: Entry, flag: bool, draws: set<Key>)
    requires flag == (e.debit && e.key in draws)
    ensures ApplyEntry(b, e, flag) == ApplyEntry(b, e, e.key in draws)
  {
  }

  /** What is left of the covers after one entry. */
  function DrawDown(remaining: map<Key, Decimal>, e: Entry): map<Key, Decimal> {
    if !e.debit || e.key !in remaining then remaining
    else
      var left := remaining[e.key] - Min(remaining[e.key], e.amount);
      if left <= 0.0 then remaining - {e.key} else remaining[e.key := left]
  }

  ghost predicate DrawnDown(initial: map<Key, Decimal>, remaining: map<Key, Decimal>, es: seq<Entry>) {
    && (forall k :: k in remaining ==> k in initial && remaining[k] > 0.0)
    && (forall k :: k in initial ==> Left(remaining, k) == initial[k] - Used(initial[k], NetOf(es, At(k))))
  }

  lemma NothingDrawn(initial: map<Key, Decimal>)
    requires forall k :: k in initial ==> initial[k] > 0.0
    ensures DrawnDown(initial, initial, [])
  {
  }

  lemma DrawDownStep(initial: map<Key, Decimal>, remaining: map<Key, Decimal>, es: seq<Entry>, i: nat)
    requires DistinctKeys(es) && i < |es| && es[i].amount > 0.0 && DrawnDown(initial, remaining, es[..i])
    requires forall k :: k in initial ==> initial[k] > 0.0
    ensures DrawnDown(initial, DrawDown(remaining, es[i]), es[..i + 1])
    ensures es[i].key in remaining <==> es[i].key in initial
  {
    hide NetOf;
    NetPrefix(es, i, es[i].key);
    var remaining' := DrawDown(remaining, es[i]);
    forall k | k in initial ensures Left(remaining', k) == initial[k] - Used(initial[k], NetOf(es[..i + 1], At(k))) {
      NetPrefix(es, i, k);
    }
  }

  /** The covers by row; where both orders pay from one row, the taker's replaces the maker's. */
  function Covers(q: Request, makerCover: Decimal, takerCover: Decimal): map<Key, Decimal> {
    (if makerCover > 0.0 then map[q.MakerRow() := makerCover] else map[])
    + (if takerCover > 0.0 then map[q.TakerRow() := takerCover] else map[])
  }

  function Forced(q: Request): set<Key> {
    (if q.makerOrder == NONE then {q.MakerRow()} else {}) + (if q.takerOrder == NONE then {q.TakerRow()} else {})
  }

  lemma DrawsAre(q: Request, makerCover: Decimal, takerCover: Decimal, k: Key)
    ensures k in Draws(q, makerCover, takerCover) <==> k in Covers(q, makerCover, takerCover) || k in Forced(q)
  {
  }

  /** Decide which debits draw on locked funds, drawing the covers down as they are used. */
  method UseCovers(q: Request, entries: seq<Entry>, makerCover: Decimal, takerCover: Decimal)
    returns (flags: seq<bool>, makerUsed: Decimal, takerUsed: Decimal)
    requires DistinctKeys(entries) && Positive(entries) && makerCover >= 0.0 && takerCover >= 0.0
    ensures |flags| == |entries|
    ensures forall i :: 0 <= i < |entries| ==>
              flags[i] == (entries[i].debit && entries[i].key in Draws(q, makerCover, takerCover))
    ensures makerUsed == Used(MakerDrawn(q, makerCover, takerCover), NetOf(entries, At(q.MakerRow())))
    ensures takerUsed == Used(takerCover, NetOf(entries, At(q.TakerRow())))
  {
    hide NetOf, Positive, DrawnDown, DistinctKeys, Draws;
    var initial := Covers(q, makerCover, takerCover);
    var remaining, forced := initial, Forced(q);
    flags := [];
    NothingDrawn(initial);
    assert entries[..0] == [];
    for i := 0 to |entries|
      invariant |flags| == i && DrawnDown(initial, remaining, entries[..i])
      invariant forall j :: 0 <= j < i ==>
                  flags[j] == (entries[j].debit && entries[j].key in Draws(q, makerCover, takerCover))
    {
      var entry := entries[i];
      assert entry.amount > 0.0 by { assert entry in entries; PositiveAmount(entries, entry); }
      DrawDownStep(initial, remaining, entries, i);
      DrawsAre(q, makerCover, takerCover, entry.key);
      var flag := entry.debit && entry.key in forced;
      if entry.debit && entry.key in remaining {
        flag := true;
        var left := remaining[entry.key] - Min(remaining[entry.key], entry.amount);
        if left <= 0.0 {
          remaining := remaining - {entry.key};
        } else {
          remaining := remaining[entry.key := left];
        }
      }
      flags := flags + [flag];
    }
    assert entries[..|entries|] == entries;
    makerUsed := if makerCover > 0.0 then initial[q.MakerRow()] - Left(remaining, q.MakerRow()) else 0.0;
    takerUsed := if takerCover > 0.0 then initial[q.TakerRow()] - Left(remaining, q.TakerRow()) else 0.0;
    DrawnAt(initial, remaining, entries, q.MakerRow());
    DrawnAt(initial, remaining, entries, q.TakerRow());
  }

  lemma DrawnAt(initial: map<Key, Decimal>, remaining: map<Key, Decimal>, es: seq<Entry>, k: Key)
    requires DrawnDown(initial, remaining, es)
    ensures k in initial ==> initial[k] - Left(remaining, k) == Used(initial[k], NetOf(es, At(k)))
  {
  }

  function Left(remaining: map<Key, Decimal>, k: Key): Decimal {
    if k in remaining then remaining[k] else 0.0
  }

  lemma PositiveAmount(es: seq<Entry>, e: Entry)
    requires Positive(es) && e in es
    ensures e.amount > 0.0
  {
  }

  /** Up to its own entry a key's net is zero; from there on it is that entry. */
  lemma NetPrefix(es: seq<Entry>, i: nat, k: Key)
    requires DistinctKeys(es) && i < |es|
    ensures NetOf(es[..i + 1], At(k)) == NetOf(es[..i], At(k)) + (if es[i].key == k then es[i].Delta() else 0.0)
    ensures es[i].key == k ==> NetOf(es[..i], At(k)) == 0.0
  {
    hide NetOf;
    assert es[..i + 1] == es[..i] + [es[i]];
    NetConcat(es[..i], [es[i]], At(k));
    NetCons(es[i], [], At(k));
    assert [es[i]] + [] == [es[i]];
    if es[i].key == k {
      NetAway(es[..i], k);
    }
  }

  lemma ApplyAllCons(bs: map<Key, Balance>, es: seq<Entry>, draws: set<Key>)
    requires es != []
    ensures ApplyAll(bs, es, draws) ==
            match ApplyEntry(BalanceAt(bs, es[0].key), es[0], es[0].key in draws)
            case None => None
            case Some(b) => ApplyAll(bs[es[0].key := b], es[1..], draws)
  {
  }

  /** Apply the entries to the rows they name, row by row as they are read; None when a debit finds too little. */
  method ApplyEntries(balances: map<Key, Balance>, entries: seq<Entry>, flags: seq<bool>, ghost draws: set<Key>)
    returns (result: Option<map<Key, Balance>>)
    requires |flags| == |entries|
    requires forall i :: 0 <= i < |entries| ==> flags[i] == (entries[i].debit && entries[i].key in draws)
    ensures result == ApplyAll(balances, entries, draws)
  {
    hide ApplyAll, ApplyEntry;
    var accounts: map<Key, Balance> := map[];
    assert balances + accounts == balances && entries[0..] == entries;
    var i := 0;
    while i < |entries|
      invariant i <= |entries|
      invariant ApplyAll(balances, entries, draws) == ApplyAll(balances + accounts, entries[i..], draws)
    {
      var entry := entries[i];
      ApplyAllCons(balances + accounts, entries[i..], draws);
      assert entries[i..][0] == entry && entries[i..][1..] == entries[i + 1..];
      var account := if entry.key in accounts then accounts[entry.key] else BalanceAt(balances, entry.key);
      SameDraw(account, entry, flags[i], draws);
      var changed := ApplyEntry(account, entry, flags[i]);
      if changed.None? {
        return None;
      }
      assert (balances + accounts)[entry.key := changed.value] == balances + accounts[entry.key := changed.value];
      accounts := accounts[entry.key := changed.value];
      i := i + 1;
    }
    ApplyAllDone(balances + accounts, draws);
    assert entries[|entries|..] == [];
    return Some(balances + accounts);
  }

  lemma ApplyAllDone(bs: map<Key, Balance>, draws: set<Key>)
    ensures ApplyAll(bs, [], draws) == Some(bs)
  {
  }

  lemma {:induction false} BookedSnoc(trade: TradeId, es: seq<Entry>, e: Entry)
    ensures Booked(trade, es + [e]) == Booked(trade, es) + [JournalRow(trade, e)] && Booked(trade, []) == []
  {
    if es == [] {
      assert es + [e] == [e] && [e][1..] == [];
    } else {
      assert (es + [e])[1..] == es[1..] + [e];
      BookedSnoc(trade, es[1..], e);
    }
  }

  /** The unique index on (trade, row) of the journal. */
  ghost predicate UniqueRows(journal: seq<JournalRow>) {
    forall i, j :: 0 <= i < j < |journal| ==>
      journal[i].trade != journal[j].trade || journal[i].entry.key != journal[j].entry.key
  }

  class Store {
    var balances: map<Key, Balance>
    var reservations: map<Id, Reservation>
    var journal: seq<JournalRow>
    var events: set<TradeId>

    function View(): Ledger
      reads this
    {
      Ledger(balances, reservations, journal, events)
    }

    constructor (opening: map<Key, Balance>)
      ensures View() == Ledger(opening, map[], [], {})
    {
      balances, reservations, journal, events := opening, map[], [], {};
    }

    method ReserveBalance(account: Id, order: Id, asset: Id, amount: Decimal) returns (outcome: ReserveOutcome)
      modifies this
      ensures (View(), outcome) == Reserve(old(View()), account, order, asset, amount)
    {
      if asset == NONE || amount <= 0.0 || order == NONE {
        return Rejected;
      }
      if order in reservations {
        var existing := reservations[order];
        if !existing.status.Active? {
          return Closed;
        }
        if existing.account != account || existing.asset != asset {
          return Rejected;
        }
        return Reserved(existing);
      }
      var row := Key(account, asset);
      var b := BalanceAt(balances, row);
      if b.available < amount {
        return Insufficient;
      }
      balances := balances[row := Balance(b.available - amount, b.locked + amount)];
      reservations := reservations[order := Reservation(account, asset, amount, 0.0, Active)];
      return Reserved(reservations[order]);
    }

    method ReleaseReservation(order: Id) returns (outcome: ReleaseOutcome)
      modifies this
      ensures (View(), outcome) == Release(old(View()), order)
    {
      if order == NONE || order !in reservations {
        return NotFound;
      }
      var r := reservations[order];
      var remaining := r.amount - r.consumed;
      if remaining <= 0.0 {
        if !r.status.Consumed? {
          reservations := reservations[order := r.(status := Consumed)];
        } else {
          assert reservations == reservations[order := r.(status := Consumed)];
        }
        return ReleasedAmount(0.0);
      }
      var b := BalanceAt(balances, r.Row());
      var freed := remaining;
      if b.locked < freed {
        freed := b.locked;
      }
      balances := balances[r.Row() := Balance(b.available + freed, b.locked - freed)];
      var consumed := r.amount - freed;
      var status := if consumed >= r.amount then Consumed else Released;
      reservations := reservations[order := r.(consumed := consumed, status := status)];
      return ReleasedAmount(freed);
    }

    method MarkProcessed(event: Option<TradeId>)
      modifies this`events
      ensures View() == Mark(old(View()), event)
    {
      if event.Some? {
        events := events + {event.value};
      }
    }

    /** Insert the journal rows; since the trade is not booked yet and keys differ, the unique index never objects. */
    method InsertRows(trade: TradeId, entries: seq<Entry>)
      requires DistinctKeys(entries) && !TradeBooked(journal, trade)
      modifies this`journal
      ensures journal == old(journal) + Booked(trade, entries)
      ensures UniqueRows(old(journal)) ==> UniqueRows(journal)
    {
      hide TradeBooked, Booked, DistinctKeys, UniqueRows;
      ghost var before := journal;
      BookedSnoc(trade, [], Entry(Key(NONE, NONE), false, 0.0));
      for i := 0 to |entries|
        invariant journal == before + Booked(trade, entries[..i])
      {
        assert entries[..i + 1] == entries[..i] + [entries[i]];
        BookedSnoc(trade, entries[..i], entries[i]);
        journal := journal + [JournalRow(trade, entries[i])];
      }
      assert entries[..|entries|] == entries;
      BookingKeepsUnique(before, trade, entries);
    }

    /** Settle one executed trade. */
    method ApplySettlement(q: Request) returns (outcome: SettleOutcome)
      modifies this
      ensures (View(), outcome) == Settle(old(View()), q)
      ensures UniqueRows(old(journal)) ==> UniqueRows(journal)
    {
      hide TradeBooked, UniqueRows, Netted, NetOf, RawEntries, ApplyAll, Draws, Used, Booked, Consume;
      if q.price <= 0.0 || q.quantity <= 0.0 || q.makerSide.UnknownSide? {
        return Failed;
      }
      if q.event.Some? && q.event.value in events {
        MarkProcessed(q.event);
        return AlreadyProcessed;
      }
      if TradeBooked(journal, q.trade) {
        MarkProcessed(q.event);
        return AlreadyProcessed;
      }
      var entries := AggregateEntries(RawEntries(q));
      if |entries| == 0 {
        return Failed;
      }
      var makerCover := Cover(reservations, q.makerOrder, q.MakerRow().asset, q.MakerAmount());
      var takerCover := Cover(reservations, q.takerOrder, q.TakerRow().asset, q.TakerAmount());
      if makerCover.None? || takerCover.None? {
        return Failed;
      }
      NettingPreserves(RawEntries(q), At(q.MakerRow()));
      NettingPreserves(RawEntries(q), At(q.TakerRow()));
      var flags, makerUsed, takerUsed := UseCovers(q, entries, makerCover.value, takerCover.value);
      var changed := ApplyEntries(balances, entries, flags, Draws(q, makerCover.value, takerCover.value));
      if changed.None? {
        return Failed;
      }
      balances := changed.value;
      reservations := Consume(reservations, q.makerOrder, makerUsed);
      reservations := Consume(reservations, q.takerOrder, takerUsed);
      InsertRows(q.trade, entries);
      MarkProcessed(q.event);
      return Settled;
    }
  }

  lemma BookingKeepsUnique(journal: seq<JournalRow>, trade: TradeId, es: seq<Entry>)
    requires DistinctKeys(es) && !TradeBooked(journal, trade)
    ensures UniqueRows(journal) ==> UniqueRows(journal + Booked(trade, es))
  {
    BookedAt(trade, es);
    assert forall row :: row in journal ==> row.trade != trade;
  }
}
