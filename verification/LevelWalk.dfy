/** Visiting a side level by level: each level's queue is one contiguous stretch of the flat sequence,
    and visiting a stretch order by order advances the greedy walk. */
module LevelWalk {
  import opened Orders
  import opened Matching
  import opened PriceQueues

  ghost predicate Ranked(isBuy: bool, ps: seq<Decimal>) {
    forall i, j :: 0 <= i < j < |ps| ==> Better(isBuy, ps[i], ps[j])
  }

  /** The prices are those of the side, each one occurring. */
  ghost predicate Covers(ps: seq<Decimal>, s: seq<Order>) {
    && (forall o :: o in s ==> o.price in ps)
    && (forall p :: p in ps ==> exists o :: o in s && o.price == p)
  }

  /** The first j orders are exactly those of the first k prices. */
  ghost predicate CutAt(s: seq<Order>, j: nat, ps: seq<Decimal>, k: nat) {
    && j <= |s| && k <= |ps|
    && (forall i, m :: 0 <= i < j && k <= m < |ps| ==> s[i].price != ps[m])
    && (forall i, m :: j <= i < |s| && 0 <= m < k ==> s[i].price != ps[m])
  }

  lemma CutStarts(s: seq<Order>, ps: seq<Decimal>)
    ensures CutAt(s, 0, ps, 0) && Apart([], ps, 0)
  {
  }

  lemma FirstOfLevel(isBuy: bool, s: seq<Order>, j: nat, ps: seq<Decimal>, k: nat)
    requires InPriority(isBuy, s) && Ranked(isBuy, ps) && Covers(ps, s) && CutAt(s, j, ps, k) && k < |ps|
    ensures j < |s| && s[j].price == ps[k]
    ensures forall i :: j <= i < |s| ==> !Better(isBuy, s[i].price, ps[k])
  {
    assert ps[k] in ps;
    var o :| o in s && o.price == ps[k];
    var n :| 0 <= n < |s| && s[n] == o;
    assert j <= n;
    assert s[j] in s;
    var m :| 0 <= m < |ps| && ps[m] == s[j].price;
    assert k <= m;
  }

  lemma UnvisitedHasLevel(s: seq<Order>, j: nat, ps: seq<Decimal>, k: nat)
    requires Covers(ps, s) && CutAt(s, j, ps, k)
    ensures j < |s| ==> k < |ps|
  {
    if j < |s| {
      assert s[j] in s;
      var m :| 0 <= m < |ps| && ps[m] == s[j].price;
    }
  }

  lemma CutAdvances(isBuy: bool, s: seq<Order>, j: nat, e: nat, ps: seq<Decimal>, k: nat)
    requires Ranked(isBuy, ps) && CutAt(s, j, ps, k) && k < |ps| && j <= e <= |s|
    requires forall i :: j <= i < e ==> s[i].price == ps[k]
    requires forall i :: e <= i < |s| ==> s[i].price != ps[k]
    ensures CutAt(s, e, ps, k + 1)
  {
  }

  lemma {:induction false} AtPriceAll(s: seq<Order>, price: Decimal)
    requires forall o :: o in s ==> o.price == price
    ensures AtPrice(s, price) == s
  {
    if s != [] { AtPriceAll(s[1..], price); }
  }

  /** In priority order, and with nothing better ahead, the orders at a price come first. */
  lemma {:induction false} QueueIsPrefix(isBuy: bool, s: seq<Order>, price: Decimal)
    requires InPriority(isBuy, s) && forall o :: o in s ==> !Better(isBuy, o.price, price)
    ensures AtPrice(s, price) <= s
    ensures forall i :: |AtPrice(s, price)| <= i < |s| ==> s[i].price != price
  {
    if s == [] {
    } else if s[0].price == price {
      QueueIsPrefix(isBuy, s[1..], price);
      assert s == [s[0]] + s[1..];
    } else {
      forall o | o in s ensures o.price != price {
        assert !Better(isBuy, o.price, s[0].price);
      }
      AtPriceNone(s, price);
    }
  }

  /** The queue of the next level is the next stretch of the side. */
  lemma LevelSlice(isBuy: bool, s: seq<Order>, j: nat, ps: seq<Decimal>, k: nat) returns (e: nat)
    requires InPriority(isBuy, s) && Ranked(isBuy, ps) && Covers(ps, s) && CutAt(s, j, ps, k) && k < |ps|
    ensures j < e <= |s| && s[j..e] == AtPrice(s, ps[k]) && CutAt(s, e, ps, k + 1)
    ensures forall i :: j <= i < e ==> s[i].price == ps[k]
    ensures forall i :: e <= i < |s| ==> s[i].price != ps[k]
  {
    FirstOfLevel(isBuy, s, j, ps, k);
    e := SliceOfPrice(isBuy, s, j, ps[k]);
    CutAdvances(isBuy, s, j, e, ps, k);
  }

  lemma SliceOfPrice(isBuy: bool, s: seq<Order>, j: nat, p: Decimal) returns (e: nat)
    requires InPriority(isBuy, s) && j < |s| && s[j].price == p
    requires forall i :: 0 <= i < j ==> s[i].price != p
    requires forall i :: j <= i < |s| ==> !Better(isBuy, s[i].price, p)
    ensures j < e <= |s| && s[j..e] == AtPrice(s, p)
    ensures forall i :: j <= i < e ==> s[i].price == p
    ensures forall i :: e <= i < |s| ==> s[i].price != p
  {
    QueueIsPrefix(isBuy, s[j..], p);
    AtPriceNone(s[..j], p);
    assert s == s[..j] + s[j..];
    AtPriceConcat(s[..j], s[j..], p);
    var queue := AtPrice(s, p);
    e := j + |queue|;
    assert s[j..][..|queue|] == s[j..e];
    AtPriceMembers(s, p);
    forall i | j <= i < e ensures s[i].price == p { assert s[i] == queue[i - j]; }
    forall i | e <= i < |s| ensures s[i].price != p { assert s[i] == s[j..][i - j]; }
    assert s[j] == s[j..][0];
  }

  /** What is left of a level's queue while it is being visited. */
  lemma QueueTail(s: seq<Order>, i: nat, e: nat, price: Decimal)
    requires i <= e <= |s|
    requires forall x :: i <= x < e ==> s[x].price == price
    requires forall x :: e <= x < |s| ==> s[x].price != price
    ensures AtPrice(s[i..], price) == s[i..e]
  {
    assert s[i..] == s[i..e] + s[e..];
    AtPriceConcat(s[i..e], s[e..], price);
    AtPriceAll(s[i..e], price);
    AtPriceNone(s[e..], price);
  }

  /** A level nobody has touched yet still holds its whole stretch. */
  lemma FreshQueue(done: seq<Order>, s: seq<Order>, j: nat, e: nat, price: Decimal)
    requires j <= e <= |s|
    requires forall o :: o in done ==> o.price != price
    requires forall x :: j <= x < e ==> s[x].price == price
    requires forall x :: e <= x < |s| ==> s[x].price != price
    ensures AtPrice(done + s[j..], price) == s[j..e]
  {
    AtPriceConcat(done, s[j..], price);
    AtPriceNone(done, price);
    QueueTail(s, j, e, price);
  }

  /** Cutting out or replacing the element where two sequences meet. */
  lemma AtSeam<T>(a: seq<T>, b: seq<T>, x: T)
    requires b != []
    ensures (a + b)[|a|] == b[0]
    ensures (a + b)[..|a|] + (a + b)[|a| + 1..] == a + b[1..]
    ensures (a + b)[|a| := x] == a + [x] + b[1..]
    ensures a + b == a + [b[0]] + b[1..]
  {
  }

  /** Past a place of a sequence nothing changes when that place is cut out or replaced. */
  lemma PastPlace<T>(q: seq<T>, place: nat, x: T)
    requires place < |q|
    ensures (q[..place] + q[place + 1..])[place..] == q[place..][1..]
    ensures q[place := x][place + 1..] == q[place..][1..]
  {
  }

  /** Nothing kept so far stands at a price still to be visited. */
  ghost predicate Apart(done: seq<Order>, ps: seq<Decimal>, k: nat) {
    forall o, m :: o in done && k <= m < |ps| ==> o.price != ps[m]
  }

  lemma FreshLevel(done: seq<Order>, s: seq<Order>, j: nat, e: nat, ps: seq<Decimal>, k: nat)
    requires k < |ps| && Apart(done, ps, k) && j <= e <= |s|
    requires forall x :: j <= x < e ==> s[x].price == ps[k]
    requires forall x :: e <= x < |s| ==> s[x].price != ps[k]
    ensures AtPrice(done + s[j..], ps[k]) == s[j..e]
  {
    FreshQueue(done, s, j, e, ps[k]);
  }

  lemma StaysApart(isBuy: bool, done: seq<Order>, done': seq<Order>, ps: seq<Decimal>, k: nat)
    requires Ranked(isBuy, ps) && k < |ps| && Apart(done, ps, k)
    requires forall o :: o in done' ==> o in done || o.price == ps[k]
    ensures Apart(done', ps, k + 1)
  {
  }

  // ---------- the walk, resumed ----------

  /** Having reached position i with these survivors and trades, resuming the walk there completes it. */
  ghost predicate Progress(
    t: Order, s: seq<Order>, total: Fill, done: seq<Order>, i: nat, trades: seq<Trade>, r: Decimal)
  {
    i <= |s| &&
    var w := Walk(t, s, s[i..], r);
    total == Fill(trades + w.trades, done + w.rest, w.remaining)
  }

  lemma ProgressStarts(t: Order, s: seq<Order>, r: Decimal)
    ensures Progress(t, s, Walk(t, s, s, r), [], 0, [], r)
  {
    assert s[0..] == s;
    var w := Walk(t, s, s, r);
    assert [] + w.trades == w.trades && [] + w.rest == w.rest;
  }

  lemma ProgressFill(t: Order, s: seq<Order>, total: Fill, done: seq<Order>, i: nat, trades: seq<Trade>, r: Decimal)
    requires Progress(t, s, total, done, i, trades, r) && i < |s| && r > 0.0
    requires Crosses(t, s[i].price) && !SelfTrade(t, s[i])
    ensures var m, q := s[i], Min(r, s[i].Remaining());
            Progress(t, s, total, if q == m.Remaining() then done else done + [m.(filled := m.filled + q)], i + 1,
                     trades + [TradeOf(t, m, q)], r - q)
  {
    var m, q := s[i], Min(r, s[i].Remaining());
    var w := Walk(t, s, s[i + 1..], r - q);
    assert s[i..][0] == m && s[i..][1..] == s[i + 1..];
    assert trades + ([TradeOf(t, m, q)] + w.trades) == trades + [TradeOf(t, m, q)] + w.trades;
    var kept := if q == m.Remaining() then [] else [m.(filled := m.filled + q)];
    assert done + (kept + w.rest) == done + kept + w.rest;
    assert done + [] == done;
  }

  lemma ProgressOwn(t: Order, s: seq<Order>, total: Fill, done: seq<Order>, i: nat, trades: seq<Trade>, r: Decimal)
    requires Progress(t, s, total, done, i, trades, r) && i < |s| && r > 0.0
    requires Crosses(t, s[i].price) && SelfTrade(t, s[i])
    ensures Progress(t, s, total, if SelfOnly(t, s, s[i].price) then done else done + [s[i]], i + 1, trades, r)
  {
    var w := Walk(t, s, s[i + 1..], r);
    assert s[i..][0] == s[i] && s[i..][1..] == s[i + 1..];
    assert done + ([s[i]] + w.rest) == done + [s[i]] + w.rest;
  }

  /** Where the walk stops: at the end, when satisfied, or at a price that does not cross. */
  lemma ProgressEnds(t: Order, s: seq<Order>, total: Fill, done: seq<Order>, i: nat, trades: seq<Trade>, r: Decimal)
    requires Progress(t, s, total, done, i, trades, r)
    requires i == |s| || r <= 0.0 || !Crosses(t, s[i].price)
    ensures total == Fill(trades, done + s[i..], r)
  {
    assert trades + [] == trades;
  }

  /** Having cut the side at a level, its queue says whether the level is the taker's own. */
  lemma SelfOnlyByQueue(t: Order, s: seq<Order>, j: nat, e: nat, p: Decimal)
    requires j <= e <= |s| && s[j..e] == AtPrice(s, p)
    ensures SelfOnly(t, s, p) <==> forall m :: m in s[j..e] ==> SelfTrade(t, m)
  {
    AtPriceMembers(s, p);
  }
}
