/** Ledger entries: netting them per account and asset, and applying them to balances. */
module Entries {
  import opened Orders
  import opened MapSums

  datatype Key = Key(account: Id, asset: Id)

  datatype Balance = Balance(available: Decimal, locked: Decimal)

  datatype Entry = Entry(key: Key, debit: bool, amount: Decimal) {
    function Delta(): Decimal { if debit then -amount else amount }
  }

  /** The signed sum of the entries at the selected keys. */
  function NetOf(es: seq<Entry>, sel: Key -> bool): Decimal {
    if es == [] then 0.0 else (if sel(es[0].key) then es[0].Delta() else 0.0) + NetOf(es[1..], sel)
  }

  function At(k: Key): Key -> bool { (i: Key) => i == k }

  function OfAsset(asset: Id): Key -> bool { (i: Key) => i.asset == asset }

  ghost predicate DistinctKeys(es: seq<Entry>) {
    forall i, j :: 0 <= i < j < |es| ==> es[i].key != es[j].key
  }

  ghost predicate Positive(es: seq<Entry>) {
    forall e :: e in es ==> e.amount > 0.0
  }

  // ---------- netting ----------

  datatype Agg = Agg(key: Key, net: Decimal)

  function Merge(acc: seq<Agg>, e: Entry): seq<Agg> {
    if acc == [] then [Agg(e.key, e.Delta())]
    else if acc[0].key == e.key then [Agg(e.key, acc[0].net + e.Delta())] + acc[1..]
    else [acc[0]] + Merge(acc[1..], e)
  }

  function MergeAll(acc: seq<Agg>, es: seq<Entry>): seq<Agg>
    decreases |es|
  {
    if es == [] then acc else MergeAll(Merge(acc, es[0]), es[1..])
  }

  /** One entry per key with a non-zero net, a debit when the net is negative. */
  function ToEntries(acc: seq<Agg>): seq<Entry> {
    if acc == [] then []
    else if acc[0].net == 0.0 then ToEntries(acc[1..])
    else if acc[0].net < 0.0 then [Entry(acc[0].key, true, -acc[0].net)] + ToEntries(acc[1..])
    else [Entry(acc[0].key, false, acc[0].net)] + ToEntries(acc[1..])
  }

  function Netted(es: seq<Entry>): seq<Entry> { ToEntries(MergeAll([], es)) }

  function NetAgg(acc: seq<Agg>, sel: Key -> bool): Decimal {
    if acc == [] then 0.0 else (if sel(acc[0].key) then acc[0].net else 0.0) + NetAgg(acc[1..], sel)
  }

  ghost predicate DistinctAgg(acc: seq<Agg>) {
    forall i, j :: 0 <= i < j < |acc| ==> acc[i].key != acc[j].key
  }

  lemma {:induction false} MergeNet(acc: seq<Agg>, e: Entry, sel: Key -> bool)
    ensures NetAgg(Merge(acc, e), sel) == NetAgg(acc, sel) + if sel(e.key) then e.Delta() else 0.0
  {
    if acc == [] {
    } else if acc[0].key == e.key {
      assert ([Agg(e.key, acc[0].net + e.Delta())] + acc[1..])[1..] == acc[1..];
    } else {
      MergeNet(acc[1..], e, sel);
      assert ([acc[0]] + Merge(acc[1..], e))[1..] == Merge(acc[1..], e);
    }
  }

  lemma {:induction false} MergeKeys(acc: seq<Agg>, e: Entry)
    requires DistinctAgg(acc)
    ensures DistinctAgg(Merge(acc, e))
    ensures forall a :: a in Merge(acc, e) ==> a.key == e.key || exists b :: b in acc && b.key == a.key
  {
    if acc != [] && acc[0].key != e.key {
      MergeKeys(acc[1..], e);
      forall a | a in Merge(acc[1..], e) ensures a.key != acc[0].key {
        if a.key != e.key {
          var b :| b in acc[1..] && b.key == a.key;
        }
      }
      assert acc[0] in acc;
      assert forall b :: b in acc[1..] ==> b in acc;
    } else if acc != [] {
      assert acc[0] in acc;
      assert forall b :: b in acc[1..] ==> b in acc;
    }
  }

  lemma {:induction false} MergeAllNet(acc: seq<Agg>, es: seq<Entry>, sel: Key -> bool)
    requires DistinctAgg(acc)
    ensures DistinctAgg(MergeAll(acc, es))
    ensures NetAgg(MergeAll(acc, es), sel) == NetAgg(acc, sel) + NetOf(es, sel)
    decreases |es|
  {
    if es != [] {
      MergeNet(acc, es[0], sel);
      MergeKeys(acc, es[0]);
      MergeAllNet(Merge(acc, es[0]), es[1..], sel);
    }
  }

  lemma {:induction false} ToEntriesNet(acc: seq<Agg>, sel: Key -> bool)
    ensures NetOf(ToEntries(acc), sel) == NetAgg(acc, sel)
  {
    if acc != [] {
      ToEntriesNet(acc[1..], sel);
      var later := ToEntries(acc[1..]);
      var e := if acc[0].net < 0.0 then Entry(acc[0].key, true, -acc[0].net) else Entry(acc[0].key, false, acc[0].net);
      assert ([e] + later)[1..] == later;
    }
  }

  lemma {:induction false} ToEntriesOrigin(acc: seq<Agg>, e: Entry) returns (a: Agg)
    requires e in ToEntries(acc)
    ensures a in acc && a.key == e.key && e.amount > 0.0
  {
    if acc[0].net != 0.0 && e == ToEntries(acc)[0] {
      a := acc[0];
    } else {
      a := ToEntriesOrigin(acc[1..], e);
    }
  }

  lemma {:induction false} ToEntriesDistinct(acc: seq<Agg>)
    requires DistinctAgg(acc)
    ensures DistinctKeys(ToEntries(acc)) && Positive(ToEntries(acc))
  {
    if acc != [] {
      ToEntriesDistinct(acc[1..]);
      forall e | e in ToEntries(acc[1..]) ensures e.key != acc[0].key {
        var a := ToEntriesOrigin(acc[1..], e);
      }
    }
  }

  /** Netting keeps the signed sum of every selection of keys and leaves one positive entry per key. */
  lemma NettingPreserves(es: seq<Entry>, sel: Key -> bool)
    ensures NetOf(Netted(es), sel) == NetOf(es, sel)
    ensures DistinctKeys(Netted(es)) && Positive(Netted(es))
  {
    MergeAllNet([], es, sel);
    ToEntriesNet(MergeAll([], es), sel);
    ToEntriesDistinct(MergeAll([], es));
  }

  lemma {:induction false} NetAway(es: seq<Entry>, k: Key)
    requires forall e :: e in es ==> e.key != k
    ensures NetOf(es, At(k)) == 0.0
  {
    if es != [] { NetAway(es[1..], k); }
  }

  /** Among entries with distinct keys, a key's net is its entry. */
  lemma {:induction false} NetOfEntry(es: seq<Entry>, i: nat)
    requires DistinctKeys(es) && i < |es|
    ensures NetOf(es, At(es[i].key)) == es[i].Delta()
  {
    if i == 0 {
      forall e | e in es[1..] ensures e.key != es[0].key { }
      NetAway(es[1..], es[0].key);
    } else {
      NetOfEntry(es[1..], i - 1);
    }
  }

  /** What netting leaves at a key: nothing exactly when the net is zero, else an entry of that net. */
  lemma NettedAt(es: seq<Entry>, k: Key)
    ensures (forall e :: e in Netted(es) ==> e.key != k) <==> NetOf(es, At(k)) == 0.0
    ensures forall e :: e in Netted(es) && e.key == k ==>
              e.Delta() == NetOf(es, At(k)) && e.debit == (NetOf(es, At(k)) < 0.0)
  {
    hide Netted, NetOf;
    NettingPreserves(es, At(k));
    var n := Netted(es);
    forall e | e in n && e.key == k ensures e.Delta() == NetOf(es, At(k)) && e.amount > 0.0 {
      var i :| 0 <= i < |n| && n[i] == e;
      NetOfEntry(n, i);
    }
    if forall e :: e in n ==> e.key != k {
      NetAway(n, k);
    }
  }

  // ---------- applying ----------

  /** The row of a key, a missing row counting as empty. */
  function BalanceAt(bs: map<Key, Balance>, k: Key): Balance {
    if k in bs then bs[k] else Balance(0.0, 0.0)
  }

  /** What a debit takes from the locked part. */
  function FromLocked(b: Balance, amount: Decimal, useLocked: bool): Decimal {
    if useLocked && b.locked > 0.0 then Min(b.locked, amount) else 0.0
  }

  function ApplyEntry(b: Balance, e: Entry, useLocked: bool): Option<Balance> {
    if e.amount <= 0.0 then None
    else if e.debit then
      var taken := FromLocked(b, e.amount, useLocked);
      var rest := e.amount - taken;
      if rest > 0.0 && b.available < rest then None
      else Checked(Balance(b.available - rest, b.locked - taken))
    else Checked(b.(available := b.available + e.amount))
  }

  function Checked(b: Balance): Option<Balance> {
    if b.available < 0.0 || b.locked < 0.0 then None else Some(b)
  }

  function ApplyAll(bs: map<Key, Balance>, es: seq<Entry>, draws: set<Key>): Option<map<Key, Balance>>
    decreases |es|
  {
    if es == [] then Some(bs)
    else
      match ApplyEntry(BalanceAt(bs, es[0].key), es[0], es[0].key in draws)
      case None => None
      case Some(b) => ApplyAll(bs[es[0].key := b], es[1..], draws)
  }

  /** With distinct keys every entry meets its own row as it was before. */
  lemma {:induction false} ApplyAllPointwise(bs: map<Key, Balance>, es: seq<Entry>, draws: set<Key>)
    requires DistinctKeys(es)
    ensures ApplyAll(bs, es, draws).Some? <==>
            forall e :: e in es ==> ApplyEntry(BalanceAt(bs, e.key), e, e.key in draws).Some?
    ensures ApplyAll(bs, es, draws).Some? ==>
              var bs' := ApplyAll(bs, es, draws).value;
              && (forall e :: e in es ==>
                    e.key in bs' && bs'[e.key] == ApplyEntry(BalanceAt(bs, e.key), e, e.key in draws).value)
              && (forall k :: (forall e :: e in es ==> e.key != k) ==>
                    (k in bs' <==> k in bs) && BalanceAt(bs', k) == BalanceAt(bs, k))
    decreases |es|
  {
    if es != [] {
      var a := ApplyEntry(BalanceAt(bs, es[0].key), es[0], es[0].key in draws);
      assert es[0] in es;
      if a.Some? {
        var bs1 := bs[es[0].key := a.value];
        ApplyAllPointwise(bs1, es[1..], draws);
        assert forall e :: e in es <==> e == es[0] || e in es[1..];
        forall e | e in es[1..] ensures e.key != es[0].key && BalanceAt(bs1, e.key) == BalanceAt(bs, e.key) { }
      }
    }
  }

  /** Entries with distinct keys may be applied in any order: same result, same success. */
  lemma AnyOrder(bs: map<Key, Balance>, es: seq<Entry>, es': seq<Entry>, draws: set<Key>)
    requires DistinctKeys(es) && DistinctKeys(es') && forall e :: e in es <==> e in es'
    ensures ApplyAll(bs, es, draws) == ApplyAll(bs, es', draws)
  {
    hide ApplyAll, ApplyEntry, DistinctKeys;
    ApplyAllPointwise(bs, es, draws);
    ApplyAllPointwise(bs, es', draws);
    var r, r' := ApplyAll(bs, es, draws), ApplyAll(bs, es', draws);
    if r.Some? {
      forall k ensures (k in r.value <==> k in r'.value) && BalanceAt(r.value, k) == BalanceAt(r'.value, k) {
        if e :| e in es && e.key == k {
          assert e in es';
        }
      }
      assert r.value == r'.value;
    }
  }

  // ---------- conservation ----------

  /** What a row holds of an asset. */
  function HeldOf(asset: Id): (Key, Balance) -> Decimal {
    (k: Key, b: Balance) => if k.asset == asset then b.available + b.locked else 0.0
  }

  ghost predicate NonNegative(bs: map<Key, Balance>) {
    forall k :: k in bs ==> bs[k].available >= 0.0 && bs[k].locked >= 0.0
  }

  lemma ApplyEntryMoves(b: Balance, e: Entry, useLocked: bool)
    requires ApplyEntry(b, e, useLocked).Some?
    ensures var b' := ApplyEntry(b, e, useLocked).value;
            && b'.available + b'.locked == b.available + b.locked + e.Delta()
            && b'.available >= 0.0 && b'.locked >= 0.0
            && b'.locked == b.locked - (if e.debit then FromLocked(b, e.amount, useLocked) else 0.0)
  {
  }

  /** Applying entries adds to each asset exactly the entries' net in it, and leaves every row non-negative. */
  lemma {:induction false} ApplyAllConserves(bs: map<Key, Balance>, es: seq<Entry>, draws: set<Key>, asset: Id)
    requires NonNegative(bs) && ApplyAll(bs, es, draws).Some?
    ensures var bs' := ApplyAll(bs, es, draws).value;
            && NonNegative(bs')
            && SumOver(bs', HeldOf(asset)) == SumOver(bs, HeldOf(asset)) + NetOf(es, OfAsset(asset))
    decreases |es|
  {
    hide SumOver, ApplyEntry;
    if es != [] {
      var k, b := es[0].key, BalanceAt(bs, es[0].key);
      var b' := ApplyEntry(b, es[0], k in draws).value;
      ApplyEntryMoves(b, es[0], k in draws);
      SumUpdate(bs, HeldOf(asset), k, b');
      ApplyAllConserves(bs[k := b'], es[1..], draws, asset);
    }
  }

  // ---------- the netting loop ----------

  lemma {:induction false} MergeAbsent(acc: seq<Agg>, e: Entry)
    requires forall a :: a in acc ==> a.key != e.key
    ensures Merge(acc, e) == acc + [Agg(e.key, e.Delta())]
  {
    if acc != [] {
      MergeAbsent(acc[1..], e);
      assert acc == [acc[0]] + acc[1..];
    }
  }

  lemma {:induction false} MergePresent(acc: seq<Agg>, e: Entry, i: nat)
    requires DistinctAgg(acc) && i < |acc| && acc[i].key == e.key
    ensures Merge(acc, e) == acc[i := Agg(e.key, acc[i].net + e.Delta())]
  {
    if i > 0 {
      MergePresent(acc[1..], e, i - 1);
      assert acc == [acc[0]] + acc[1..];
    }
  }

  lemma {:induction false} MergeAllSnoc(acc: seq<Agg>, es: seq<Entry>, e: Entry)
    ensures MergeAll(acc, es + [e]) == Merge(MergeAll(acc, es), e)
    decreases |es|
  {
    if es == [] {
      assert (es + [e])[1..] == [];
    } else {
      assert (es + [e])[1..] == es[1..] + [e];
      MergeAllSnoc(Merge(acc, es[0]), es[1..], e);
    }
  }

  lemma {:induction false} ToEntriesSnoc(acc: seq<Agg>, a: Agg)
    ensures ToEntries(acc + [a]) == ToEntries(acc) + ToEntries([a])
  {
    if acc == [] {
      assert acc + [a] == [a];
    } else {
      assert (acc + [a])[1..] == acc[1..] + [a];
      ToEntriesSnoc(acc[1..], a);
    }
  }

  /** Net the entries per key, in order of first occurrence, with an index from key to position. */
  method AggregateEntries(entries: seq<Entry>) returns (result: seq<Entry>)
    ensures result == Netted(entries)
  {
    hide MergeAll, Merge, ToEntries;
    var index: map<Key, nat> := map[];
    var ordered: seq<Agg> := [];
    NothingToMerge();
    for i := 0 to |entries|
      invariant ordered == MergeAll([], entries[..i]) && DistinctAgg(ordered)
      invariant forall k :: k in index ==> index[k] < |ordered| && ordered[index[k]].key == k
      invariant forall j :: 0 <= j < |ordered| ==> ordered[j].key in index
    {
      var entry := entries[i];
      assert entries[..i + 1] == entries[..i] + [entry];
      MergeAllSnoc([], entries[..i], entry);
      MergeKeys(ordered, entry);
      if entry.key in index {
        var at := index[entry.key];
        MergePresent(ordered, entry, at);
        ordered := ordered[at := Agg(entry.key, ordered[at].net + entry.Delta())];
      } else {
        MergeAbsent(ordered, entry);
        index := index[entry.key := |ordered|];
        ordered := ordered + [Agg(entry.key, entry.Delta())];
      }
    }
    assert entries[..|entries|] == entries;
    result := [];
    for i := 0 to |ordered|
      invariant result == ToEntries(ordered[..i])
    {
      assert ordered[..i + 1] == ordered[..i] + [ordered[i]];
      ToEntriesSnoc(ordered[..i], ordered[i]);
      ToEntriesOne(ordered[i]);
      if ordered[i].net != 0.0 {
        var debit := ordered[i].net < 0.0;
        var amount := if debit then -ordered[i].net else ordered[i].net;
        result := result + [Entry(ordered[i].key, debit, amount)];
      }
    }
    assert ordered[..|ordered|] == ordered;
  }

  lemma NothingToMerge()
    ensures MergeAll([], []) == [] && ToEntries([]) == []
  {
  }

  lemma ToEntriesOne(a: Agg)
    ensures ToEntries([a]) == if a.net == 0.0 then []
                              else if a.net < 0.0 then [Entry(a.key, true, -a.net)]
                              else [Entry(a.key, false, a.net)]
  {
    assert [a][1..] == [];
  }
}
