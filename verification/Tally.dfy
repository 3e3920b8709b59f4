/** Published trades, and sums over them. */
module Tally {
  import opened Orders

  /** A published trade: its id is the taker's id and the trade's position among the taker's trades. */
  datatype TradeEvent = TradeEvent(index: nat, trade: Trade) {
    function Key(): TradeId { (trade.taker, index) }
  }

  function Numbered(trades: seq<Trade>, k: nat): seq<TradeEvent> {
    if trades == [] then [] else [TradeEvent(k, trades[0])] + Numbered(trades[1..], k + 1)
  }

  lemma {:induction false} NumberedAt(trades: seq<Trade>, k: nat)
    ensures |Numbered(trades, k)| == |trades|
    ensures forall i :: 0 <= i < |trades| ==> Numbered(trades, k)[i] == TradeEvent(k + i, trades[i])
  {
    if trades != [] { NumberedAt(trades[1..], k + 1); }
  }

  // ---------- sums ----------

  function Total(log: seq<TradeEvent>, f: Trade -> Decimal): Decimal {
    if log == [] then 0.0 else f(log[0].trade) + Total(log[1..], f)
  }

  /** The same sum over the events whose key has been handled. */
  function TotalOf(log: seq<TradeEvent>, f: Trade -> Decimal, handled: set<TradeId>): Decimal {
    if log == [] then 0.0
    else (if log[0].Key() in handled then f(log[0].trade) else 0.0) + TotalOf(log[1..], f, handled)
  }

  ghost predicate DistinctTradeIds(log: seq<TradeEvent>) {
    forall i, j :: 0 <= i < j < |log| ==> log[i].Key() != log[j].Key()
  }

  lemma {:induction false} TotalConcat(a: seq<TradeEvent>, b: seq<TradeEvent>, f: Trade -> Decimal)
    ensures Total(a + b, f) == Total(a, f) + Total(b, f)
  {
    if a == [] {
      assert a + b == b;
    } else {
      assert (a + b)[1..] == a[1..] + b;
      TotalConcat(a[1..], b, f);
    }
  }

  lemma TotalNumbered(x: Trade, trades: seq<Trade>, k: nat, f: Trade -> Decimal)
    ensures Total(Numbered([x] + trades, k), f) == f(x) + Total(Numbered(trades, k + 1), f)
    ensures Total(Numbered([], k), f) == 0.0
  {
    assert ([x] + trades)[1..] == trades;
    var later := Numbered(trades, k + 1);
    assert Numbered([x] + trades, k) == [TradeEvent(k, x)] + later;
    assert ([TradeEvent(k, x)] + later)[1..] == later;
  }

  lemma {:induction false} TotalZero(log: seq<TradeEvent>, f: Trade -> Decimal)
    requires forall e :: e in log ==> f(e.trade) == 0.0
    ensures Total(log, f) == 0.0
  {
    if log != [] { TotalZero(log[1..], f); }
  }

  /** A pointwise bound is a bound on the sums. */
  lemma {:induction false} TotalBound(log: seq<TradeEvent>, f: Trade -> Decimal, g: Trade -> Decimal, c: Decimal)
    requires forall e :: e in log ==> f(e.trade) <= c * g(e.trade)
    ensures Total(log, f) <= c * Total(log, g)
  {
    if log != [] {
      TotalBound(log[1..], f, g, c);
      assert f(log[0].trade) <= c * g(log[0].trade);
      assert c * Total(log, g) == c * g(log[0].trade) + c * Total(log[1..], g);
    }
  }

  lemma {:induction false} TotalOfBound(log: seq<TradeEvent>, f: Trade -> Decimal, handled: set<TradeId>)
    requires forall e :: e in log ==> f(e.trade) >= 0.0
    ensures 0.0 <= TotalOf(log, f, handled) <= Total(log, f)
  {
    if log != [] { TotalOfBound(log[1..], f, handled); }
  }

  lemma {:induction false} TotalOfAll(log: seq<TradeEvent>, f: Trade -> Decimal, handled: set<TradeId>)
    requires forall e :: e in log ==> e.Key() in handled
    ensures TotalOf(log, f, handled) == Total(log, f)
  {
    if log != [] { TotalOfAll(log[1..], f, handled); }
  }

  lemma {:induction false} TotalOfNone(log: seq<TradeEvent>, f: Trade -> Decimal, handled: set<TradeId>)
    requires forall e :: e in log ==> e.Key() !in handled
    ensures TotalOf(log, f, handled) == 0.0
  {
    if log != [] { TotalOfNone(log[1..], f, handled); }
  }

  lemma {:induction false} TotalOfSame(log: seq<TradeEvent>, f: Trade -> Decimal, handled: set<TradeId>, key: TradeId)
    requires forall e :: e in log ==> e.Key() != key
    ensures TotalOf(log, f, handled + {key}) == TotalOf(log, f, handled)
  {
    if log != [] { TotalOfSame(log[1..], f, handled, key); }
  }

  /** Handling one more event adds exactly its own weight. */
  lemma {:induction false} TotalOfInsert(log: seq<TradeEvent>, f: Trade -> Decimal, handled: set<TradeId>, i: nat)
    requires DistinctTradeIds(log) && i < |log| && log[i].Key() !in handled
    ensures TotalOf(log, f, handled + {log[i].Key()}) == TotalOf(log, f, handled) + f(log[i].trade)
  {
    if i == 0 {
      forall e | e in log[1..] ensures e.Key() != log[0].Key() { }
      TotalOfSame(log[1..], f, handled, log[0].Key());
    } else {
      assert log[1..][i - 1] == log[i] && log[0].Key() != log[i].Key();
      TotalOfInsert(log[1..], f, handled, i - 1);
    }
  }

  /** Events handled before that are not of this log do not count. */
  lemma {:induction false} TotalOfUnion(
    log: seq<TradeEvent>, f: Trade -> Decimal, other: set<TradeId>, handled: set<TradeId>)
    requires forall e :: e in log ==> e.Key() !in other
    ensures TotalOf(log, f, other + handled) == TotalOf(log, f, handled)
  {
    if log != [] { TotalOfUnion(log[1..], f, other, handled); }
  }

  /** What holds of every trade's weights holds of their sums. */
  lemma {:induction false} TotalLinear(
    log: seq<TradeEvent>, w: Trade -> Decimal, f: Trade -> Decimal, g: Trade -> Decimal, c: Decimal)
    requires forall e :: e in log ==> w(e.trade) == c * f(e.trade) - g(e.trade)
    ensures Total(log, w) == c * Total(log, f) - Total(log, g)
  {
    if log != [] {
      assert log[0] in log;
      TotalLinear(log[1..], w, f, g, c);
    }
  }

  // ---------- part of a log ----------

  /** The events of `a` are events of `b`, in the same order. */
  predicate Sublog(a: seq<TradeEvent>, b: seq<TradeEvent>)
    decreases |b|
  {
    a == [] || (b != [] && ((a[0] == b[0] && Sublog(a[1..], b[1..])) || Sublog(a, b[1..])))
  }

  lemma {:induction false} SublogPrefix(log: seq<TradeEvent>, k: nat)
    requires k <= |log|
    ensures Sublog(log[..k], log)
    decreases |log|
  {
    if k > 0 {
      SublogPrefix(log[1..], k - 1);
      assert log[..k][1..] == log[1..][..k - 1];
    }
  }

  lemma {:induction false} SublogConcat(a: seq<TradeEvent>, b: seq<TradeEvent>, c: seq<TradeEvent>, d: seq<TradeEvent>)
    requires Sublog(a, b) && Sublog(c, d)
    ensures Sublog(a + c, b + d)
    decreases |b|
  {
    if b == [] {
      assert a + c == c && b + d == d;
    } else {
      assert (b + d)[1..] == b[1..] + d;
      if a != [] && a[0] == b[0] && Sublog(a[1..], b[1..]) {
        SublogConcat(a[1..], b[1..], c, d);
        assert (a + c)[1..] == a[1..] + c;
      } else {
        SublogConcat(a, b[1..], c, d);
      }
    }
  }

  lemma {:induction false} SublogMember(a: seq<TradeEvent>, b: seq<TradeEvent>, v: TradeEvent)
    requires Sublog(a, b) && v in a
    ensures v in b
    decreases |b|
  {
    if a[0] == b[0] && Sublog(a[1..], b[1..]) {
      if v != a[0] {
        SublogMember(a[1..], b[1..], v);
      }
    } else {
      SublogMember(a, b[1..], v);
    }
  }

  /** Part of a log adds up to no more than the whole. */
  lemma {:induction false} SublogTotal(a: seq<TradeEvent>, b: seq<TradeEvent>, f: Trade -> Decimal)
    requires Sublog(a, b) && forall v :: v in b ==> f(v.trade) >= 0.0
    ensures 0.0 <= Total(a, f) <= Total(b, f)
    decreases |b|
  {
    if b != [] {
      assert b[0] in b;
      if a != [] && a[0] == b[0] && Sublog(a[1..], b[1..]) {
        SublogTotal(a[1..], b[1..], f);
      } else {
        SublogTotal(a, b[1..], f);
      }
    }
  }

  lemma {:induction false} SublogDistinct(a: seq<TradeEvent>, b: seq<TradeEvent>)
    requires Sublog(a, b) && DistinctTradeIds(b)
    ensures DistinctTradeIds(a)
    decreases |b|
  {
    if a != [] {
      if a[0] == b[0] && Sublog(a[1..], b[1..]) {
        SublogDistinct(a[1..], b[1..]);
        forall j | 0 < j < |a| ensures a[0].Key() != a[j].Key() {
          SublogMember(a[1..], b[1..], a[1..][j - 1]);
        }
      } else {
        SublogDistinct(a, b[1..]);
      }
    }
  }
}
