/** What the greedy walk amounts to: the waterfall, all-or-nothing orders, and which orders are left. */
module MatchingLaws {
  import opened Orders
  import opened Matching

  // ---------- availability ----------

  lemma {:induction false} AvailableConcat(t: Order, a: seq<Order>, b: seq<Order>)
    ensures Available(t, a + b) == Available(t, a) + Available(t, b)
  {
    if a == [] {
      assert a + b == b;
    } else {
      assert (a + b)[1..] == a[1..] + b;
      AvailableConcat(t, a[1..], b);
    }
  }

  lemma {:induction false} AvailableNonNegative(t: Order, s: seq<Order>)
    ensures Available(t, s) >= 0.0 && (s == [] ==> Available(t, s) == 0.0)
  {
    if s != [] { AvailableNonNegative(t, s[1..]); }
  }

  lemma AvailableStep(t: Order, s: seq<Order>, i: nat)
    requires i < |s|
    ensures Available(t, s[..i + 1]) == Available(t, s[..i]) + Offer(t, s[i])
  {
    assert s[..i + 1] == s[..i] + [s[i]];
    AvailableConcat(t, s[..i], [s[i]]);
    assert [s[i]][1..] == [];
  }

  lemma {:induction false} AvailableNoCross(t: Order, s: seq<Order>)
    requires forall o :: o in s ==> !Crosses(t, o.price)
    ensures Available(t, s) == 0.0
  {
    if s != [] { AvailableNoCross(t, s[1..]); }
  }

  /** Once an order does not cross, nothing behind it does. */
  lemma CrossingIsPrefix(t: Order, s: seq<Order>, i: nat, j: nat)
    requires InPriority(t.side.Sell?, s) && i <= j < |s| && !Crosses(t, s[i].price)
    ensures !Crosses(t, s[j].price)
  {
  }

  /** Behind an order that does not cross there is nothing to take. */
  lemma NothingBehind(t: Order, s: seq<Order>, j: nat)
    requires InPriority(t.side.Sell?, s) && j <= |s| && (j < |s| ==> !Crosses(t, s[j].price))
    ensures Available(t, s) == Available(t, s[..j])
  {
    hide Available, InPriority, Crosses;
    assert s == s[..j] + s[j..];
    AvailableConcat(t, s[..j], s[j..]);
    forall o | o in s[j..] ensures !Crosses(t, o.price) {
      var i :| 0 <= i < |s[j..]| && s[j..][i] == o;
      CrossingIsPrefix(t, s, j, j + i);
    }
    AvailableNoCross(t, s[j..]);
  }

  // ---------- the walk is the waterfall ----------

  /** From the point where the taker is satisfied, or prices stop crossing, nothing happens any more. */
  lemma {:induction false} Idle(t: Order, s: seq<Order>, quantity: Decimal, i: nat)
    requires Live(s) && i <= |s|
    requires Available(t, s[..i]) >= quantity || forall j :: i <= j < |s| ==> !Crosses(t, s[j].price)
    ensures SharedTrades(t, s, quantity, i) == [] && Survivors(t, s, quantity, i) == s[i..]
    decreases |s| - i
  {
    if i < |s| {
      AvailableStep(t, s, i);
      assert s[i] in s;
      assert s[i].(filled := s[i].filled + 0.0) == s[i];
      Idle(t, s, quantity, i + 1);
      assert s[i..] == [s[i]] + s[i + 1..];
    }
  }

  ghost predicate Leftover(t: Order, s: seq<Order>, quantity: Decimal, i: nat, r: Decimal)
    requires i <= |s|
  {
    var left := quantity - Available(t, s[..i]);
    if left > 0.0 then r == left else r <= 0.0
  }

  lemma LeftoverSpent(t: Order, s: seq<Order>, quantity: Decimal, i: nat, r: Decimal)
    requires i <= |s| && Leftover(t, s, quantity, i, r)
    ensures r <= 0.0 ==> Available(t, s[..i]) >= quantity
  {
  }

  /** One visited order, in the terms of the waterfall. */
  lemma VisitStep(t: Order, s: seq<Order>, quantity: Decimal, i: nat, r: Decimal)
    requires Live(s) && i < |s| && r > 0.0 && Leftover(t, s, quantity, i, r) && Crosses(t, s[i].price)
    ensures SelfTrade(t, s[i]) ==>
              && Leftover(t, s, quantity, i + 1, r)
              && Share(t, s, quantity, i) == 0.0
              && Cancelled(t, s, quantity, i) == SelfOnly(t, s, s[i].price)
    ensures !SelfTrade(t, s[i]) ==>
              && Leftover(t, s, quantity, i + 1, r - Min(r, s[i].Remaining()))
              && Share(t, s, quantity, i) == Min(r, s[i].Remaining()) > 0.0
              && !Cancelled(t, s, quantity, i)
  {
    AvailableStep(t, s, i);
    AvailableNonNegative(t, s[..i]);
    assert s[i] in s;
  }

  lemma {:induction false} WalkFrom(t: Order, s: seq<Order>, quantity: Decimal, i: nat, r: Decimal)
    requires InPriority(t.side.Sell?, s) && Live(s) && i <= |s| && Leftover(t, s, quantity, i, r)
    ensures var w := Walk(t, s, s[i..], r);
            w.trades == SharedTrades(t, s, quantity, i) && w.rest == Survivors(t, s, quantity, i)
    decreases |s| - i
  {
    hide Share, Cancelled, Leftover, Available, SelfOnly, InPriority;
    if i == |s| || r <= 0.0 {
      assert r <= 0.0 ==> Available(t, s[..i]) >= quantity by { LeftoverSpent(t, s, quantity, i, r); }
      Idle(t, s, quantity, i);
    } else if !Crosses(t, s[i].price) {
      forall j | i <= j < |s| ensures !Crosses(t, s[j].price) { CrossingIsPrefix(t, s, i, j); }
      Idle(t, s, quantity, i);
    } else {
      assert s[i] in s && s[i..][0] == s[i] && s[i..][1..] == s[i + 1..];
      VisitStep(t, s, quantity, i, r);
      WalkFrom(t, s, quantity, i + 1, if SelfTrade(t, s[i]) then r else r - Min(r, s[i].Remaining()));
    }
  }

  lemma {:induction false} WalkRemaining(t: Order, side: seq<Order>, s: seq<Order>, r: Decimal)
    requires InPriority(t.side.Sell?, s) && Live(s)
    ensures Walk(t, side, s, r).remaining ==
            if r <= 0.0 then r else if r > Available(t, s) then r - Available(t, s) else 0.0
  {
    AvailableNonNegative(t, s);
    if s == [] || r <= 0.0 {
    } else if !Crosses(t, s[0].price) {
      forall o | o in s ensures !Crosses(t, o.price) {
        var j :| 0 <= j < |s| && s[j] == o;
        CrossingIsPrefix(t, s, 0, j);
      }
      AvailableNoCross(t, s);
    } else {
      AvailableNonNegative(t, s[1..]);
      WalkRemaining(t, side, s[1..], if SelfTrade(t, s[0]) then r else r - Min(r, s[0].Remaining()));
    }
  }

  /** The greedy walk equals the declarative waterfall: each maker's share depends only on
      what is available ahead of it. */
  lemma WalkIsWaterfall(t: Order, s: seq<Order>, quantity: Decimal)
    requires InPriority(t.side.Sell?, s) && Live(s)
    ensures var w := Walk(t, s, s, quantity);
            && w.trades == SharedTrades(t, s, quantity, 0)
            && w.rest == Survivors(t, s, quantity, 0)
            && (quantity > 0.0 ==>
                  w.remaining == if quantity > Available(t, s) then quantity - Available(t, s) else 0.0)
            && (quantity <= 0.0 ==> w.remaining == quantity)
  {
    assert s[..0] == [] && s[0..] == s;
    WalkFrom(t, s, quantity, 0, quantity);
    WalkRemaining(t, s, s, quantity);
  }

  // ---------- all or nothing ----------

  /** The dry run agrees with the walk. */
  lemma CanFillIffWalkFills(b: Book, t: Order)
    requires WellFormed(b)
    ensures CanFill(b, t) <==> Walk(t, Opposite(b, t), Opposite(b, t), t.Remaining()).remaining <= 0.0
  {
    WalkRemaining(t, Opposite(b, t), Opposite(b, t), t.Remaining());
  }

  /** A fill-or-kill order takes its whole quantity, if the book has that much for it, and leaves no trace otherwise. */
  lemma FillOrKill(b: Book, t: Order)
    requires WellFormed(b) && t.tif.FOK?
    ensures var r, s, q := Match(b, t), Opposite(b, t), t.Remaining();
            if Refusal(t).None? && 0.0 < q <= Available(t, s) then
              && r.taker == t.(filled := t.quantity)
              && r.trades == SharedTrades(t, s, q, 0) && r.book == WithOpposite(b, t, Survivors(t, s, q, 0))
            else
              r.book == b && r.taker == t && r.trades == []
  {
    hide SharedTrades, Survivors, Available;
    WalkIsWaterfall(t, Opposite(b, t), t.Remaining());
  }

  // ---------- what is left on the book ----------

  /** A resting order after matching is one of before, possibly filled a little more. */
  ghost predicate FilledMore(o: Order, o': Order) {
    o' == o.(filled := o'.filled) && o.filled <= o'.filled
  }

  lemma {:induction false} RestOrigin(t: Order, side: seq<Order>, s: seq<Order>, r: Decimal, o': Order)
    returns (o: Order)
    requires Live(s) && o' in Walk(t, side, s, r).rest
    ensures o in s && FilledMore(o, o') && o'.Remaining() > 0.0
  {
    if s == [] || r <= 0.0 || !Crosses(t, s[0].price) {
      o := o';
    } else {
      var q := if SelfTrade(t, s[0]) then 0.0 else Min(r, s[0].Remaining());
      if o' in Walk(t, side, s[1..], r - q).rest {
        o := RestOrigin(t, side, s[1..], r - q, o');
      } else {
        o := s[0];
      }
    }
  }

  /** A taker that is still hungry has left nothing it could trade with. */
  lemma {:induction false} HungryLeavesOnlyOwn(t: Order, side: seq<Order>, s: seq<Order>, r: Decimal)
    requires InPriority(t.side.Sell?, s) && Live(s)
    requires Walk(t, side, s, r).remaining > 0.0
    ensures forall o :: o in Walk(t, side, s, r).rest && Crosses(t, o.price) ==> SelfTrade(t, o)
  {
    if s == [] {
    } else if !Crosses(t, s[0].price) {
      forall o | o in s ensures !Crosses(t, o.price) {
        var j :| 0 <= j < |s| && s[j] == o;
        CrossingIsPrefix(t, s, 0, j);
      }
    } else if r > 0.0 {
      var q := if SelfTrade(t, s[0]) then 0.0 else Min(r, s[0].Remaining());
      HungryLeavesOnlyOwn(t, side, s[1..], r - q);
    }
  }
}
