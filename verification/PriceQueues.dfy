/** How a side's flat priority sequence relates to the first-in-first-out queue kept per price. */
module PriceQueues {
  import opened Orders
  import opened Matching

  // ---------- inserting and removing ----------

  lemma {:induction false} InsertMembers(isBuy: bool, s: seq<Order>, o: Order)
    ensures forall x :: x in Insert(isBuy, s, o) <==> x in s || x == o
  {
    if s != [] && !Better(isBuy, o.price, s[0].price) {
      InsertMembers(isBuy, s[1..], o);
      assert forall x :: x in s <==> x == s[0] || x in s[1..];
    }
  }

  lemma {:induction false} InsertKeepsOrder(isBuy: bool, s: seq<Order>, o: Order)
    requires InPriority(isBuy, s)
    ensures InPriority(isBuy, Insert(isBuy, s, o))
  {
    if s != [] && !Better(isBuy, o.price, s[0].price) {
      InsertKeepsOrder(isBuy, s[1..], o);
      InsertMembers(isBuy, s[1..], o);
      forall x | x in s[1..] ensures !Better(isBuy, x.price, s[0].price) { }
    }
  }

  lemma {:induction false} InsertKeepsIds(isBuy: bool, s: seq<Order>, o: Order)
    requires DistinctIds(s) && forall x :: x in s ==> x.id != o.id
    ensures DistinctIds(Insert(isBuy, s, o))
  {
    if s != [] && !Better(isBuy, o.price, s[0].price) {
      forall x | x in s[1..] ensures x in s && x.id != s[0].id { }
      InsertKeepsIds(isBuy, s[1..], o);
      InsertMembers(isBuy, s[1..], o);
    }
  }

  lemma {:induction false} WithoutMembers(s: seq<Order>, id: Id)
    ensures forall x :: x in Without(s, id) <==> x in s && x.id != id
  {
    if s != [] {
      WithoutMembers(s[1..], id);
      assert forall x :: x in s <==> x == s[0] || x in s[1..];
    }
  }

  lemma {:induction false} WithoutKeepsOrder(isBuy: bool, s: seq<Order>, id: Id)
    requires InPriority(isBuy, s)
    ensures InPriority(isBuy, Without(s, id))
  {
    if s != [] {
      WithoutKeepsOrder(isBuy, s[1..], id);
      WithoutMembers(s[1..], id);
      forall x | x in s[1..] ensures !Better(isBuy, x.price, s[0].price) { }
    }
  }

  lemma {:induction false} WithoutKeepsIds(s: seq<Order>, id: Id)
    requires DistinctIds(s)
    ensures DistinctIds(Without(s, id))
  {
    if s != [] {
      WithoutKeepsIds(s[1..], id);
      WithoutMembers(s[1..], id);
      forall x | x in s[1..] ensures x.id != s[0].id { }
    }
  }

  lemma {:induction false} WithoutAbsent(s: seq<Order>, id: Id)
    requires !HasId(s, id)
    ensures Without(s, id) == s
  {
    if s != [] {
      assert s[0] in s;
      assert forall x :: x in s[1..] ==> x in s;
      WithoutAbsent(s[1..], id);
    }
  }

  /** With distinct ids, removing an order removes just that one. */
  lemma {:induction false} WithoutAt(s: seq<Order>, k: nat)
    requires DistinctIds(s) && k < |s|
    ensures Without(s, s[k].id) == s[..k] + s[k + 1..]
  {
    if k == 0 {
      assert !HasId(s[1..], s[0].id);
      WithoutAbsent(s[1..], s[0].id);
    } else {
      WithoutAt(s[1..], k - 1);
    }
  }

  // ---------- queues ----------

  function AtPrice(s: seq<Order>, price: Decimal): seq<Order> {
    if s == [] then []
    else if s[0].price == price then [s[0]] + AtPrice(s[1..], price)
    else AtPrice(s[1..], price)
  }

  lemma {:induction false} AtPriceConcat(a: seq<Order>, b: seq<Order>, price: Decimal)
    ensures AtPrice(a + b, price) == AtPrice(a, price) + AtPrice(b, price)
  {
    if a == [] {
      assert a + b == b;
    } else {
      assert (a + b)[1..] == a[1..] + b;
      AtPriceConcat(a[1..], b, price);
    }
  }

  lemma {:induction false} AtPriceMembers(s: seq<Order>, price: Decimal)
    ensures forall o :: o in AtPrice(s, price) <==> o in s && o.price == price
  {
    if s != [] {
      AtPriceMembers(s[1..], price);
      assert forall o :: o in s <==> o == s[0] || o in s[1..];
    }
  }

  lemma {:induction false} AtPriceNone(s: seq<Order>, price: Decimal)
    requires forall o :: o in s ==> o.price != price
    ensures AtPrice(s, price) == []
  {
    if s != [] { AtPriceNone(s[1..], price); }
  }

  lemma {:induction false} AtPriceInsert(isBuy: bool, s: seq<Order>, o: Order, price: Decimal)
    requires InPriority(isBuy, s)
    ensures AtPrice(Insert(isBuy, s, o), price) == AtPrice(s, price) + (if price == o.price then [o] else [])
  {
    if s == [] {
    } else if Better(isBuy, o.price, s[0].price) {
      assert ([o] + s)[1..] == s;
      if price == o.price {
        forall i | 0 <= i < |s| ensures s[i].price != price { assert !Better(isBuy, s[i].price, s[0].price); }
        AtPriceNone(s, price);
      }
    } else {
      AtPriceInsert(isBuy, s[1..], o, price);
      assert ([s[0]] + Insert(isBuy, s[1..], o))[1..] == Insert(isBuy, s[1..], o);
    }
  }

  lemma {:induction false} AtPriceWithout(s: seq<Order>, id: Id, price: Decimal)
    ensures AtPrice(Without(s, id), price) == Without(AtPrice(s, price), id)
  {
    if s != [] {
      AtPriceWithout(s[1..], id, price);
      var tail := Without(s[1..], id);
      assert ([s[0]] + tail)[1..] == tail;
      assert ([s[0]] + AtPrice(s[1..], price))[1..] == AtPrice(s[1..], price);
    }
  }

  lemma UpdateMembers(s: seq<Order>, k: nat, o: Order)
    requires k < |s|
    ensures forall x :: x in s[k := o] ==> x == o || x in s
    ensures forall x :: x in s ==> x == s[k] || x in s[k := o]
    ensures o in s[k := o] && s[k] in s
  {
    forall x | x in s ensures x == s[k] || x in s[k := o] {
      var i :| 0 <= i < |s| && s[i] == x;
      assert s[k := o][i] in s[k := o];
    }
    assert s[k := o][k] == o;
  }

  /** Changing an order in place, not its price, changes one place of one queue. */
  lemma AtPriceUpdate(s: seq<Order>, k: nat, o: Order)
    requires k < |s| && o.price == s[k].price
    ensures var place, queue := |AtPrice(s[..k], o.price)|, AtPrice(s, o.price);
            && place < |queue| && queue[place] == s[k]
            && AtPrice(s[k := o], o.price) == queue[place := o]
  {
    assert s == s[..k] + ([s[k]] + s[k + 1..]) && s[k := o] == s[..k] + ([o] + s[k + 1..]);
    AtPriceConcat(s[..k], [s[k]] + s[k + 1..], o.price);
    AtPriceConcat(s[..k], [o] + s[k + 1..], o.price);
  }

  lemma {:induction false} AtPriceKeepsIds(s: seq<Order>, price: Decimal)
    requires DistinctIds(s)
    ensures DistinctIds(AtPrice(s, price))
  {
    if s != [] {
      AtPriceKeepsIds(s[1..], price);
      AtPriceMembers(s[1..], price);
      forall x | x in s[1..] ensures x.id != s[0].id { }
    }
  }

  /** With distinct ids, an order has one place in its queue. */
  lemma PlaceInQueue(s: seq<Order>, k: nat, place: nat)
    requires DistinctIds(s) && k < |s| && place < |AtPrice(s, s[k].price)| && AtPrice(s, s[k].price)[place] == s[k]
    ensures place == |AtPrice(s[..k], s[k].price)|
  {
    AtPriceUpdate(s, k, s[k]);
    AtPriceKeepsIds(s, s[k].price);
  }

  lemma AtPriceUpdateElsewhere(s: seq<Order>, k: nat, o: Order, price: Decimal)
    requires k < |s| && o.price == s[k].price && price != o.price
    ensures AtPrice(s[k := o], price) == AtPrice(s, price)
  {
    assert s == s[..k] + ([s[k]] + s[k + 1..]) && s[k := o] == s[..k] + ([o] + s[k + 1..]);
    AtPriceConcat(s[..k], [s[k]] + s[k + 1..], price);
    AtPriceConcat(s[..k], [o] + s[k + 1..], price);
  }

  lemma SomeQueue(s: seq<Order>)
    ensures s != [] ==> exists p :: AtPrice(s, p) != []
  {
    if s != [] { assert AtPrice(s, s[0].price) != []; }
  }

  /** A side in priority order is determined by its queues: two sides with the same queue at every price are equal. */
  lemma {:induction false} QueuesDetermineSide(isBuy: bool, s: seq<Order>, s': seq<Order>)
    requires InPriority(isBuy, s) && InPriority(isBuy, s')
    requires forall p :: AtPrice(s, p) == AtPrice(s', p)
    ensures s == s'
  {
    SomeQueue(s);
    SomeQueue(s');
    if s != [] {
      var p := s[0].price;
      AtPriceMembers(s, s'[0].price);
      AtPriceMembers(s', p);
      assert AtPrice(s, p)[0] in s';
      assert AtPrice(s', s'[0].price)[0] in s;
      assert !Better(isBuy, s'[0].price, p);
      assert !Better(isBuy, p, s'[0].price);
      assert s[0] == AtPrice(s, p)[0] == AtPrice(s', p)[0] == s'[0];
      forall q ensures AtPrice(s[1..], q) == AtPrice(s'[1..], q) {
        assert AtPrice(s, q) == AtPrice(s', q);
        var head := if q == p then [s[0]] else [];
        assert AtPrice(s, q) == head + AtPrice(s[1..], q);
        assert AtPrice(s', q) == head + AtPrice(s'[1..], q);
        assert AtPrice(s[1..], q) == AtPrice(s, q)[|head|..];
        assert AtPrice(s'[1..], q) == AtPrice(s', q)[|head|..];
      }
      QueuesDetermineSide(isBuy, s[1..], s'[1..]);
    }
  }
}
