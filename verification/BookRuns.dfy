/** Whole runs of one book: every reachable book is well formed, and the only resting orders
    whose prices cross are those of one and the same account. */
module BookRuns {
  import opened Orders
  import opened Matching
  import opened MatchingLaws
  import opened PriceQueues

  datatype Command = Submit(order: Order) | Withdraw(id: Id)

  const EMPTY := Book([], [])

  ghost function Step(b: Book, c: Command): Book {
    match c
    case Submit(o) => Match(b, o).book
    case Withdraw(id) => Cancel(b, id)
  }

  ghost function Run(b: Book, cs: seq<Command>): Book
    decreases |cs|
  {
    if cs == [] then b else Run(Step(b, cs[0]), cs[1..])
  }

  /** A resting bid and a resting ask whose prices cross belong to the same, named account. */
  ghost predicate Uncrossed(b: Book) {
    forall x, y :: x in b.bids && y in b.asks && x.price >= y.price ==> x.account == y.account && x.account != NONE
  }

  // ---------- sides ----------

  lemma {:induction false} WalkKeepsOrder(t: Order, side: seq<Order>, s: seq<Order>, r: Decimal, isBuy: bool)
    requires InPriority(isBuy, s) && Live(s)
    ensures InPriority(isBuy, Walk(t, side, s, r).rest)
  {
    if s == [] || r <= 0.0 || !Crosses(t, s[0].price) {
    } else {
      var q := if SelfTrade(t, s[0]) then 0.0 else Min(r, s[0].Remaining());
      WalkKeepsOrder(t, side, s[1..], r - q, isBuy);
      forall o' | o' in Walk(t, side, s[1..], r - q).rest ensures !Better(isBuy, o'.price, s[0].price) {
        var o := RestOrigin(t, side, s[1..], r - q, o');
      }
    }
  }

  lemma {:induction false} WalkKeepsIds(t: Order, side: seq<Order>, s: seq<Order>, r: Decimal)
    requires DistinctIds(s) && Live(s)
    ensures DistinctIds(Walk(t, side, s, r).rest)
  {
    if s == [] || r <= 0.0 || !Crosses(t, s[0].price) {
    } else {
      var q := if SelfTrade(t, s[0]) then 0.0 else Min(r, s[0].Remaining());
      WalkKeepsIds(t, side, s[1..], r - q);
      forall o' | o' in Walk(t, side, s[1..], r - q).rest ensures o'.id != s[0].id {
        var o := RestOrigin(t, side, s[1..], r - q, o');
      }
    }
  }

  // ---------- steps ----------

  lemma RestMembers(b: Book, o: Order)
    ensures forall x :: x in Rest(b, o).bids ==> x in b.bids || (x == o && o.side.Buy?)
    ensures forall x :: x in Rest(b, o).asks ==> x in b.asks || (x == o && o.side.Sell?)
  {
    InsertMembers(true, b.bids, o);
    InsertMembers(false, b.asks, o);
  }

  lemma RestKeepsWellFormed(b: Book, o: Order)
    requires WellFormed(b)
    ensures WellFormed(Rest(b, o))
  {
    if Rest(b, o) != b {
      RestMembers(b, o);
      if o.side.Buy? {
        InsertKeepsOrder(true, b.bids, o);
        InsertKeepsIds(true, b.bids, o);
      } else {
        InsertKeepsOrder(false, b.asks, o);
        InsertKeepsIds(false, b.asks, o);
      }
    }
  }

  lemma CancelMembers(b: Book, id: Id)
    ensures forall x :: x in Cancel(b, id).bids ==> x in b.bids
    ensures forall x :: x in Cancel(b, id).asks ==> x in b.asks
  {
    WithoutMembers(b.bids, id);
    WithoutMembers(b.asks, id);
  }

  lemma CancelKeepsShape(b: Book, id: Id)
    requires Shaped(b)
    ensures Shaped(Cancel(b, id))
  {
    CancelMembers(b, id);
    WithoutKeepsOrder(true, b.bids, id);
    WithoutKeepsOrder(false, b.asks, id);
    WithoutKeepsIds(b.bids, id);
    WithoutKeepsIds(b.asks, id);
  }

  /** The book between the walk and the decision to rest. */
  ghost function Walked(b: Book, t: Order): Book {
    WithOpposite(b, t, Walk(t, Opposite(b, t), Opposite(b, t), t.Remaining()).rest)
  }

  function SideOf(b: Book, isBuy: bool): seq<Order> { if isBuy then b.bids else b.asks }

  /** Where an order on the walked book was before. */
  lemma WalkedOrigin(b: Book, t: Order, isBuy: bool, x': Order) returns (x: Order)
    requires Live(SideOf(b, isBuy)) && x' in SideOf(Walked(b, t), isBuy)
    ensures x in SideOf(b, isBuy) && FilledMore(x, x') && x'.Remaining() > 0.0
  {
    if isBuy == t.side.Sell? {
      x := RestOrigin(t, SideOf(b, isBuy), SideOf(b, isBuy), t.Remaining(), x');
    } else {
      x := x';
    }
  }

  lemma WalkedKeepsSide(b: Book, t: Order, isBuy: bool)
    requires var s := SideOf(b, isBuy); InPriority(isBuy, s) && DistinctIds(s) && OnSide(isBuy, s) && Live(s)
    ensures var s := SideOf(Walked(b, t), isBuy); InPriority(isBuy, s) && DistinctIds(s) && OnSide(isBuy, s) && Live(s)
  {
    var s := SideOf(b, isBuy);
    if isBuy == t.side.Sell? {
      WalkKeepsOrder(t, s, s, t.Remaining(), isBuy);
      WalkKeepsIds(t, s, s, t.Remaining());
      forall x' | x' in SideOf(Walked(b, t), isBuy)
        ensures x'.Remaining() > 0.0 && x'.id != NONE && x'.side == (if isBuy then Buy else Sell)
      {
        var x := RestOrigin(t, s, s, t.Remaining(), x');
      }
    }
  }

  lemma WalkedKeepsWellFormed(b: Book, t: Order)
    requires WellFormed(b)
    ensures WellFormed(Walked(b, t))
  {
    WalkedKeepsSide(b, t, true);
    WalkedKeepsSide(b, t, false);
    forall x', y' | x' in Walked(b, t).bids && y' in Walked(b, t).asks ensures x'.id != y'.id {
      var x := WalkedOrigin(b, t, true, x');
      var y := WalkedOrigin(b, t, false, y');
    }
  }

  lemma MatchKeepsWellFormed(b: Book, t: Order)
    requires WellFormed(b)
    ensures WellFormed(Match(b, t).book)
  {
    WalkedKeepsWellFormed(b, t);
    RestKeepsWellFormed(Walked(b, t), Match(b, t).taker);
  }

  lemma WalkedKeepsUncrossed(b: Book, t: Order)
    requires Live(b.bids) && Live(b.asks) && Uncrossed(b)
    ensures Uncrossed(Walked(b, t))
  {
    forall x', y' | x' in Walked(b, t).bids && y' in Walked(b, t).asks && x'.price >= y'.price
      ensures x'.account == y'.account && x'.account != NONE
    {
      var x := WalkedOrigin(b, t, true, x');
      var y := WalkedOrigin(b, t, false, y');
    }
  }

  /** Resting an order that crosses nothing but its own account's orders keeps the book uncrossed. */
  lemma RestKeepsUncrossed(b: Book, o: Order)
    requires Uncrossed(b) && o.kind.Limit?
    requires forall m :: m in Opposite(b, o) && Crosses(o, m.price) ==> SelfTrade(o, m)
    ensures Uncrossed(Rest(b, o))
  {
    RestMembers(b, o);
  }

  lemma MatchKeepsUncrossed(b: Book, t: Order)
    requires WellFormed(b) && Uncrossed(b)
    ensures Uncrossed(Match(b, t).book)
  {
    WalkedKeepsUncrossed(b, t);
    var t' := Match(b, t).taker;
    if MayRest(t') && Refusal(t).None? && !t.tif.FOK? {
      HungryLeavesOnlyOwn(t, Opposite(b, t), Opposite(b, t), t.Remaining());
      assert forall m: Order :: Crosses(t, m.price) == Crosses(t', m.price) && SelfTrade(t, m) == SelfTrade(t', m);
      RestKeepsUncrossed(Walked(b, t), t');
    }
  }

  // ---------- runs ----------

  lemma {:induction false} RunInvariant(b: Book, cs: seq<Command>)
    requires WellFormed(b) && Uncrossed(b)
    ensures WellFormed(Run(b, cs)) && Uncrossed(Run(b, cs))
    decreases |cs|
  {
    if cs != [] {
      match cs[0] {
        case Submit(o) =>
          MatchKeepsWellFormed(b, o);
          MatchKeepsUncrossed(b, o);
        case Withdraw(id) =>
          CancelKeepsShape(b, id);
          CancelMembers(b, id);
      }
      RunInvariant(Step(b, cs[0]), cs[1..]);
    }
  }

  /** Whatever is submitted and withdrawn on an empty book, a crossed pair is one account's own. */
  lemma OnlyOwnOrdersCross(cs: seq<Command>)
    ensures WellFormed(Run(EMPTY, cs)) && Uncrossed(Run(EMPTY, cs))
  {
    RunInvariant(EMPTY, cs);
  }

  // ---------- exactly when a submission crosses the book ----------

  /** Every bid is below every ask. */
  ghost predicate Strict(b: Book) {
    forall x, y :: x in b.bids && y in b.asks ==> x.price < y.price
  }

  /** The taker's price reaches an own order on a level it shares with others. */
  ghost predicate MeetsOwn(t: Order, s: seq<Order>) {
    exists m :: m in s && SelfTrade(t, m) && Crosses(t, m.price) && !SelfOnly(t, s, m.price)
  }

  /** What a taker that wants more than all it can take leaves of the other side: whatever it does not reach, and
      its own orders on levels shared with others. */
  ghost predicate Spared(t: Order, s: seq<Order>, m: Order) {
    m in s && (Crosses(t, m.price) ==> SelfTrade(t, m) && !SelfOnly(t, s, m.price))
  }

  /** No order with the taker's id will be on the book when it comes to rest. */
  ghost predicate IdIsFree(b: Book, t: Order) {
    && t.id != NONE && !HasId(SideOf(b, t.side.Buy?), t.id)
    && forall m :: Spared(t, Opposite(b, t), m) ==> m.id != t.id
  }

  /** The order will rest with something left, and its price reaches an own order that is skipped. */
  ghost predicate CrossesItself(b: Book, t: Order) {
    && Refusal(t).None? && IdIsFree(b, t)
    && t.kind.Limit? && !t.tif.IOC? && !t.tif.FOK?
    && t.Remaining() > Available(t, Opposite(b, t)) && MeetsOwn(t, Opposite(b, t))
  }

  /** A taker that is still hungry has left exactly the spared orders, unchanged. */
  lemma {:induction false} HungryLeavesExactly(t: Order, side: seq<Order>, s: seq<Order>, r: Decimal, o: Order)
    requires InPriority(t.side.Sell?, s) && Live(s) && Walk(t, side, s, r).remaining > 0.0
    ensures o in Walk(t, side, s, r).rest <==>
            o in s && (Crosses(t, o.price) ==> SelfTrade(t, o) && !SelfOnly(t, side, o.price))
  {
    hide SelfOnly, InPriority;
    if s == [] {
    } else if !Crosses(t, s[0].price) {
      forall j | 0 <= j < |s| ensures !Crosses(t, s[j].price) { CrossingIsPrefix(t, s, 0, j); }
    } else if r > 0.0 {
      var q := if SelfTrade(t, s[0]) then 0.0 else Min(r, s[0].Remaining());
      TailInPriority(t.side.Sell?, s);
      HungryLeavesExactly(t, side, s[1..], r - q, o);
      assert o in s <==> o == s[0] || o in s[1..];
    }
  }

  lemma TailInPriority(isBuy: bool, s: seq<Order>)
    requires InPriority(isBuy, s) && s != []
    ensures InPriority(isBuy, s[1..])
  {
  }

  lemma WalkedKeepsStrict(b: Book, t: Order)
    requires Live(b.bids) && Live(b.asks) && Strict(b)
    ensures Strict(Walked(b, t))
  {
    hide Walked;
    forall x', y' | x' in Walked(b, t).bids && y' in Walked(b, t).asks ensures x'.price < y'.price {
      var x := WalkedOrigin(b, t, true, x');
      var y := WalkedOrigin(b, t, false, y');
    }
  }

  /** A limit order that rests keeps the book strict exactly when it crosses nothing on the other side. */
  lemma RestKeepsStrictIff(b: Book, o: Order)
    requires Strict(b) && Rest(b, o) != b && o.kind.Limit?
    ensures Strict(Rest(b, o)) <==> forall m :: m in Opposite(b, o) ==> !Crosses(o, m.price)
  {
    InsertMembers(true, b.bids, o);
    InsertMembers(false, b.asks, o);
    assert o in (if o.side.Buy? then Rest(b, o).bids else Rest(b, o).asks);
  }

  lemma HungryIffWantsMore(b: Book, t: Order)
    requires WellFormed(b)
    ensures var s := Opposite(b, t);
            Walk(t, s, s, t.Remaining()).remaining > 0.0 <==> t.Remaining() > Available(t, s)
  {
    WalkRemaining(t, Opposite(b, t), Opposite(b, t), t.Remaining());
    AvailableNonNegative(t, Opposite(b, t));
  }

  lemma HungryLeavesSpared(b: Book, t: Order, o: Order)
    requires WellFormed(b) && t.Remaining() > Available(t, Opposite(b, t))
    ensures var s := Opposite(b, t); o in Walk(t, s, s, t.Remaining()).rest <==> Spared(t, s, o)
  {
    hide Walk, Available;
    HungryIffWantsMore(b, t);
    HungryLeavesExactly(t, Opposite(b, t), Opposite(b, t), t.Remaining(), o);
  }

  /** The id test when the order comes to rest, in terms of the book before. */
  lemma FreeIdRests(b: Book, t: Order)
    requires WellFormed(b) && t.Remaining() > Available(t, Opposite(b, t)) && !t.side.UnknownSide?
    ensures IdIsFree(b, t) <==>
            t.id != NONE && !HasId(Walked(b, t).bids, t.id) && !HasId(Walked(b, t).asks, t.id)
  {
    hide Walk, Available, Spared, WellFormed;
    forall o ensures o in Opposite(Walked(b, t), t) <==> Spared(t, Opposite(b, t), o) {
      HungryLeavesSpared(b, t, o);
    }
  }

  /** The book after the match: the remainder rests, or the walk is all there is. */
  lemma RestsAfterWalk(b: Book, t: Order)
    requires WellFormed(b)
    ensures var t' := t.(filled := t.quantity - Walk(t, Opposite(b, t), Opposite(b, t), t.Remaining()).remaining);
            if Refusal(t).None? && t.kind.Limit? && !t.tif.IOC? && !t.tif.FOK?
               && t.Remaining() > Available(t, Opposite(b, t)) && IdIsFree(b, t)
            then Match(b, t).book == Rest(Walked(b, t), t') != Walked(b, t)
            else Match(b, t).book == b || Match(b, t).book == Walked(b, t)
  {
    hide Walk, Available, HasId, Insert, WellFormed, IdIsFree;
    HungryIffWantsMore(b, t);
    if Refusal(t).None? && t.Remaining() > Available(t, Opposite(b, t)) {
      FreeIdRests(b, t);
      InsertIsLonger(t.side.Buy?, SideOf(Walked(b, t), t.side.Buy?), Match(b, t).taker);
    }
  }

  lemma {:induction false} InsertIsLonger(isBuy: bool, s: seq<Order>, o: Order)
    ensures |Insert(isBuy, s, o)| == |s| + 1
  {
    if s != [] { InsertIsLonger(isBuy, s[1..], o); }
  }

  /** A submission crosses a strict book if and only if it wants more than all it can take, may rest, and its price
      reaches an own order that shares its level with others. */
  lemma MatchKeepsStrictIff(b: Book, t: Order)
    requires WellFormed(b) && Strict(b)
    ensures Strict(Match(b, t).book) <==> !CrossesItself(b, t)
  {
    hide Match, Walk, Walked, Rest, Available, IdIsFree, SelfOnly, Live, InPriority, Strict;
    var s := Opposite(b, t);
    WalkedKeepsStrict(b, t);
    RestsAfterWalk(b, t);
    var t' := t.(filled := t.quantity - Walk(t, s, s, t.Remaining()).remaining);
    if t.Remaining() > Available(t, s) && t.kind.Limit? && Match(b, t).book == Rest(Walked(b, t), t') != Walked(b, t) {
      RestKeepsStrictIff(Walked(b, t), t');
      WalkedOpposite(b, t, t');
      forall o ensures o in Opposite(Walked(b, t), t') <==> Spared(t, s, o) {
        HungryLeavesSpared(b, t, o);
      }
    }
  }

  lemma WalkedOpposite(b: Book, t: Order, t': Order)
    requires t' == t.(filled := t'.filled)
    ensures Opposite(Walked(b, t), t') == Walk(t, Opposite(b, t), Opposite(b, t), t.Remaining()).rest
    ensures forall m: Order :: Crosses(t', m.price) == Crosses(t, m.price)
  {
  }

  /** Along a run: is every book on the way strict? */
  ghost predicate StaysStrict(b: Book, cs: seq<Command>)
    decreases |cs|
  {
    Strict(b) && (cs == [] || StaysStrict(Step(b, cs[0]), cs[1..]))
  }

  /** Along a run: no submission crosses its own account's orders. */
  ghost predicate NeverCrossesItself(b: Book, cs: seq<Command>)
    decreases |cs|
  {
    cs == [] || ((cs[0].Submit? ==> !CrossesItself(b, cs[0].order)) && NeverCrossesItself(Step(b, cs[0]), cs[1..]))
  }

  /** Every book of a run is strict if and only if no submission of it crosses its own account's orders. */
  lemma {:induction false} StrictRunIff(b: Book, cs: seq<Command>)
    requires WellFormed(b) && Strict(b)
    ensures StaysStrict(b, cs) <==> NeverCrossesItself(b, cs)
    decreases |cs|
  {
    hide WellFormed, Strict, CrossesItself, Match, Cancel;
    if cs != [] {
      match cs[0] {
        case Submit(o) =>
          MatchKeepsWellFormed(b, o);
          MatchKeepsStrictIff(b, o);
        case Withdraw(id) =>
          CancelKeepsStrict(b, id);
      }
      if Strict(Step(b, cs[0])) {
        StrictRunIff(Step(b, cs[0]), cs[1..]);
      } else {
        assert !StaysStrict(Step(b, cs[0]), cs[1..]);
      }
    }
  }

  lemma CancelKeepsStrict(b: Book, id: Id)
    requires WellFormed(b) && Strict(b)
    ensures WellFormed(Cancel(b, id)) && Strict(Cancel(b, id))
  {
    CancelKeepsShape(b, id);
    CancelMembers(b, id);
  }

  // ---------- and own orders do cross ----------

  lemma RunThree(b: Book, x: Command, y: Command, z: Command)
    ensures Run(b, [x, y, z]) == Step(Step(Step(b, x), y), z)
  {
    hide Step;
    assert [x, y, z][1..] == [y, z] && [y, z][1..] == [z];
    assert Run(Step(Step(b, x), y), [z]) == Step(Step(Step(b, x), y), z);
  }

  lemma NobodyOpposite(b: Book, o: Order)
    requires Opposite(b, o) == [] && Refusal(o).None? && MayRest(o) && o.id != NONE
    ensures Match(b, o).book == Rest(b, o)
  {
    assert o.(filled := o.quantity - o.Remaining()) == o;
  }

  /** A bid meets an own order that is ahead of another's at the same price: it skips the one and takes the other. */
  lemma SkipsOwn(own: Order, other: Order, bid: Order)
    requires own.price == other.price == bid.price && bid.kind.Limit? && bid.side.Buy?
    requires SelfTrade(bid, own) && !SelfTrade(bid, other) && 0.0 < other.Remaining() < bid.Remaining()
    ensures Walk(bid, [own, other], [own, other], bid.Remaining()) ==
            Fill([TradeOf(bid, other, other.Remaining())], [own], bid.Remaining() - other.Remaining())
  {
    var side := [own, other];
    assert other in side && side[1..] == [other] && [other][1..] == [];
    assert Walk(bid, side, [other], bid.Remaining()) ==
           Fill([TradeOf(bid, other, other.Remaining())], [], bid.Remaining() - other.Remaining());
  }

  /** An own order that shares its level with others is skipped and stays, so an account can come to cross itself. */
  lemma OwnOrdersCanCross(symbol: Id, one: Id, two: Id) returns (cs: seq<Command>)
    requires one != NONE && one != two
    ensures var b := Run(EMPTY, cs); b.bids != [] && b.asks != [] && b.bids[0].price >= b.asks[0].price
  {
    hide Run, Walk, Insert;
    var own := Order(Name(1), one, symbol, Sell, Limit, 10.0, 1.0, 0.0, GTC);
    var other := own.(id := Name(2), account := two);
    var bid := Order(Name(3), one, symbol, Buy, Limit, 10.0, 2.0, 0.0, GTC);
    cs := [Submit(own), Submit(other), Submit(bid)];
    RunThree(EMPTY, cs[0], cs[1], cs[2]);
    var b1, b2 := Book([], [own]), Book([], [own, other]);
    InsertBehind(own, other);
    assert Step(EMPTY, cs[0]) == b1 by { NobodyOpposite(EMPTY, own); }
    assert Step(b1, cs[1]) == b2 by { NobodyOpposite(b1, other); }
    assert Step(b2, cs[2]) == Book([bid.(filled := 1.0)], [own]) by {
      SkipsOwn(own, other, bid);
      InsertFirst(bid.(filled := 1.0));
    }
  }

  lemma InsertBehind(a: Order, b: Order)
    requires a.price == b.price
    ensures Insert(false, [], a) == [a] && Insert(false, [a], b) == [a, b]
  {
    assert [a][1..] == [];
  }

  lemma InsertFirst(o: Order)
    ensures Insert(true, [], o) == [o]
  {
  }
}
