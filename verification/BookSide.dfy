/** One side of the book as it is stored: price levels by price, and a binary heap of the levels in which
    every level knows its own position. A reference to a level is the level's price, its key. */
module BookSides {
  import opened Orders
  import opened Matching
  import opened PriceQueues
  import opened LevelWalk

  datatype PriceLevel = PriceLevel(price: Decimal, orders: seq<Order>, index: int)

  function Parent(i: nat): nat { if i == 0 then 0 else (i - 1) / 2 }

  /** No element of the first n is better than its parent, except perhaps at one position. */
  ghost predicate HeapBut(isBuy: bool, h: seq<Decimal>, n: nat, hole: int)
    requires n <= |h|
  {
    forall i :: 0 <= i < n && i != hole ==> !Better(isBuy, h[i], h[Parent(i)])
  }

  /** The children of a position do not beat its parent. */
  ghost predicate Bridged(isBuy: bool, h: seq<Decimal>, n: nat, j: nat)
    requires n <= |h| && j < n
  {
    j != 0 ==> forall c :: 0 < c < n && Parent(c) == j ==> !Better(isBuy, h[c], h[Parent(j)])
  }

  ghost predicate IsHeap(isBuy: bool, h: seq<Decimal>) {
    HeapBut(isBuy, h, |h|, -1)
  }

  /** The root of a heap is its extreme price. */
  lemma {:induction false} RootIsBest(isBuy: bool, h: seq<Decimal>, i: nat)
    requires IsHeap(isBuy, h) && i < |h|
    ensures !Better(isBuy, h[i], h[0])
  {
    if i != 0 {
      RootIsBest(isBuy, h, Parent(i));
    }
  }

  ghost predicate SameQueues(a: map<Decimal, PriceLevel>, b: map<Decimal, PriceLevel>) {
    a.Keys == b.Keys && forall p :: p in a ==> a[p].price == b[p].price && a[p].orders == b[p].orders
  }

  /** Heap positions and the levels' index fields are inverse to each other. */
  ghost predicate Linked(levels: map<Decimal, PriceLevel>, heap: seq<Decimal>) {
    && (forall i :: 0 <= i < |heap| ==> heap[i] in levels && levels[heap[i]].index == i)
    && (forall p :: p in levels ==> 0 <= levels[p].index < |heap| && heap[levels[p].index] == p)
  }

  /** The levels are exactly the non-empty queues of the flat sequence. */
  ghost predicate Queued(isBuy: bool, levels: map<Decimal, PriceLevel>, flat: seq<Order>) {
    && InPriority(isBuy, flat)
    && (forall p :: p in levels ==>
          levels[p].price == p && levels[p].orders != [] && levels[p].orders == AtPrice(flat, p))
    && (forall o :: o in flat ==> o.price in levels)
  }

  /** One order gets filled a little more, in the flat sequence and in its queue. */
  lemma FillKeepsQueues(isBuy: bool, levels: map<Decimal, PriceLevel>, flat: seq<Order>, k: nat, place: nat, o: Order)
    requires Queued(isBuy, levels, flat) && DistinctIds(flat)
    requires k < |flat| && o.price == flat[k].price && o.price in levels
    requires place < |levels[o.price].orders| && levels[o.price].orders[place] == flat[k]
    ensures var level := levels[o.price];
            Queued(isBuy, levels[o.price := level.(orders := level.orders[place := o])], flat[k := o])
  {
    PlaceInQueue(flat, k, place);
    AtPriceUpdate(flat, k, o);
    UpdateMembers(flat, k, o);
    forall p' | p' in levels && p' != o.price ensures AtPrice(flat[k := o], p') == levels[p'].orders {
      hide AtPrice;
      AtPriceUpdateElsewhere(flat, k, o, p');
    }
  }

  lemma RemoveKeepsQueues(isBuy: bool, levels: map<Decimal, PriceLevel>, flat: seq<Order>, p: Decimal, id: Id)
    requires Queued(isBuy, levels, flat) && p in levels
    requires forall o :: o in flat && o.id == id ==> o.price == p
    ensures var left := Without(levels[p].orders, id);
            var levels' := if left == [] then levels - {p} else levels[p := levels[p].(orders := left)];
            Queued(isBuy, levels', Without(flat, id))
  {
    hide AtPrice, Without, InPriority;
    WithoutKeepsOrder(isBuy, flat, id);
    WithoutMembers(flat, id);
    AtPriceWithout(flat, id, p);
    forall q | q in levels && q != p ensures AtPrice(Without(flat, id), q) == levels[q].orders {
      AtPriceWithout(flat, id, q);
      AtPriceMembers(flat, q);
      WithoutAbsent(levels[q].orders, id);
    }
    AtPriceMembers(Without(flat, id), p);
  }

  lemma SameQueuesStayQueued(isBuy: bool, a: map<Decimal, PriceLevel>, b: map<Decimal, PriceLevel>, flat: seq<Order>)
    requires Queued(isBuy, a, flat) && SameQueues(a, b)
    ensures Queued(isBuy, b, flat)
    ensures forall p :: p in a <==> p in b
  {
    hide AtPrice, InPriority;
  }

  lemma QueueChangeKeepsLinks(levels: map<Decimal, PriceLevel>, heap: seq<Decimal>, p: Decimal, queue: seq<Order>)
    requires Linked(levels, heap) && p in levels
    ensures Linked(levels[p := levels[p].(orders := queue)], heap)
  {
  }

  function InsertPrice(isBuy: bool, ps: seq<Decimal>, p: Decimal): (r: seq<Decimal>)
    requires Ranked(isBuy, ps) && p !in ps
    ensures Ranked(isBuy, r) && forall q :: q in r <==> q in ps || q == p
  {
    if ps == [] then [p]
    else if Better(isBuy, p, ps[0]) then [p] + ps
    else
      var rest := InsertPrice(isBuy, ps[1..], p);
      assert forall q :: q in ps <==> q == ps[0] || q in ps[1..];
      assert forall q :: q in rest ==> Better(isBuy, ps[0], q);
      [ps[0]] + rest
  }

  /** Whatever order the keys are read in, the result is sorted. */
  method SortPrices(isBuy: bool, keys: set<Decimal>) returns (ps: seq<Decimal>)
    ensures Ranked(isBuy, ps) && forall p :: p in ps <==> p in keys
  {
    ps := [];
    var unread := keys;
    while exists p :: p in unread
      invariant unread <= keys && Ranked(isBuy, ps)
      invariant forall p :: p in ps <==> p in keys && p !in unread
      decreases unread
    {
      var p :| p in unread;
      ps := InsertPrice(isBuy, ps, p);
      unread := unread - {p};
    }
  }

  lemma ShorterHeap(isBuy: bool, h: seq<Decimal>)
    requires IsHeap(isBuy, h) && h != []
    ensures HeapBut(isBuy, h, |h| - 1, -1)
  {
  }

  lemma SameQueuesCompose(a: map<Decimal, PriceLevel>, b: map<Decimal, PriceLevel>, c: map<Decimal, PriceLevel>)
    ensures SameQueues(a, a)
    ensures SameQueues(a, b) && SameQueues(b, c) ==> SameQueues(a, c)
  {
  }

  /** A new level goes to the end of the heap. */
  lemma NewLevel(isBuy: bool, levels: map<Decimal, PriceLevel>, heap: seq<Decimal>, p: Decimal)
    requires Linked(levels, heap) && IsHeap(isBuy, heap) && p !in levels
    ensures Linked(levels[p := PriceLevel(p, [], |heap|)], heap + [p])
    ensures HeapBut(isBuy, heap + [p], |heap| + 1, |heap|) && Bridged(isBuy, heap + [p], |heap| + 1, |heap|)
  {
  }

  /** Where the new level's position does not matter. */
  lemma NewLevelQueues(a: map<Decimal, PriceLevel>, b: map<Decimal, PriceLevel>, p: Decimal, index: nat)
    requires SameQueues(a[p := PriceLevel(p, [], index)], b)
    ensures SameQueues(a[p := PriceLevel(p, [], 0)], b) && p in b
  {
  }

  class BookSide {
    const isBuy: bool
    var levels: map<Decimal, PriceLevel>
    var heap: seq<Decimal>
    ghost var flat: seq<Order>

    ghost predicate Valid()
      reads this
    {
      Linked(levels, heap) && IsHeap(isBuy, heap) && Queued(isBuy, levels, flat)
    }

    /** The orders resting at a price, oldest first. */
    function Queue(p: Decimal): seq<Order>
      reads this
    {
      if p in levels then levels[p].orders else []
    }

    lemma QueueIsAtPrice(p: Decimal)
      requires Valid()
      ensures Queue(p) == AtPrice(flat, p)
    {
      if p !in levels { AtPriceNone(flat, p); }
    }

    constructor (isBuy: bool)
      ensures Valid() && this.isBuy == isBuy && flat == [] && levels == map[]
    {
      this.isBuy := isBuy;
      levels, heap, flat := map[], [], [];
    }

    // ---------- the heap ----------

    method Swap(i: nat, j: nat)
      requires Linked(levels, heap) && i < |heap| && j < |heap|
      modifies this`levels, this`heap
      ensures Linked(levels, heap) && heap == old(heap)[i := old(heap[j])][j := old(heap[i])]
      ensures SameQueues(old(levels), levels)
    {
      var p, q := heap[i], heap[j];
      heap := heap[i := q][j := p];
      levels := levels[q := levels[q].(index := i)];
      levels := levels[p := levels[p].(index := j)];
    }

    method Up(start: nat, ghost n: nat)
      requires Linked(levels, heap) && start < n <= |heap|
      requires HeapBut(isBuy, heap, n, start) && Bridged(isBuy, heap, n, start)
      modifies this`levels, this`heap
      ensures Linked(levels, heap) && SameQueues(old(levels), levels)
      ensures |heap| == old(|heap|) && heap[n..] == old(heap[n..]) && HeapBut(isBuy, heap, n, -1)
    {
      var j: nat := start;
      while true
        invariant Linked(levels, heap) && j < n <= |heap| == old(|heap|)
        invariant HeapBut(isBuy, heap, n, j) && Bridged(isBuy, heap, n, j)
        invariant SameQueues(old(levels), levels) && heap[n..] == old(heap[n..])
        decreases j
      {
        var i := Parent(j);
        if i == j || !Better(isBuy, heap[j], heap[i]) {
          break;
        }
        ghost var h := heap;
        Swap(i, j);
        UpStep(isBuy, h, n, j);
        j := i;
      }
    }

    method Down(start: nat, n: nat) returns (moved: bool)
      requires Linked(levels, heap) && start < n <= |heap|
      requires DownHole(isBuy, heap, n, start, true) && Bridged(isBuy, heap, n, start)
      modifies this`levels, this`heap
      ensures Linked(levels, heap) && SameQueues(old(levels), levels)
      ensures |heap| == old(|heap|) && heap[n..] == old(heap[n..])
      ensures moved ==> HeapBut(isBuy, heap, n, -1)
      ensures !moved ==> heap == old(heap) && HeapBut(isBuy, heap, n, start)
    {
      var i: nat := start;
      while true
        invariant Linked(levels, heap) && start <= i < n <= |heap| == old(|heap|)
        invariant SameQueues(old(levels), levels) && heap[n..] == old(heap[n..])
        invariant DownHole(isBuy, heap, n, i, i == start) && Bridged(isBuy, heap, n, i)
        invariant i == start ==> heap == old(heap)
        decreases n - i
      {
        if 2 * i + 1 >= n {
          break;
        }
        var j := BestChild(isBuy, heap, n, i);
        if !Better(isBuy, heap[j], heap[i]) {
          break;
        }
        ghost var h := heap;
        Swap(i, j);
        DownStep(isBuy, h, n, i, j, i == start);
        i := j;
      }
      DownStop(isBuy, heap, n, i, i == start);
      moved := i > start;
    }

    /** Move the level at a heap position to the end, keeping the rest a heap. */
    method MoveToEnd(i: nat)
      requires Linked(levels, heap) && IsHeap(isBuy, heap) && i < |heap|
      modifies this`levels, this`heap
      ensures Linked(levels, heap) && SameQueues(old(levels), levels)
      ensures |heap| == old(|heap|) && heap[|heap| - 1] == old(heap[i]) && HeapBut(isBuy, heap, |heap| - 1, -1)
    {
      hide SameQueues, Linked, HeapBut, Bridged, DownHole, Better;
      ShorterHeap(isBuy, heap);
      var n := |heap| - 1;
      ghost var first := levels;
      SameQueuesCompose(first, levels, levels);
      if i != n {
        DisplacedLast(isBuy, heap, i);
        Swap(i, n);
        assert heap[n..][0] == old(heap[i]);
        ghost var second := levels;
        var moved := Down(i, n);
        SameQueuesCompose(first, second, levels);
        if !moved {
          ghost var third := levels;
          Up(i, n);
          SameQueuesCompose(first, third, levels);
        }
        assert heap[n..][0] == old(heap[i]);
      }
    }

    /** Drop a level: heap removal at the level's own position, then deletion from the map. */
    method RemoveLevel(p: Decimal)
      requires Linked(levels, heap) && IsHeap(isBuy, heap) && p in levels
      modifies this`levels, this`heap
      ensures Linked(levels, heap) && IsHeap(isBuy, heap) && SameQueues(old(levels) - {p}, levels)
    {
      MoveToEnd(levels[p].index);
      levels := levels[p := levels[p].(index := -1)];
      heap := heap[..|heap| - 1];
      levels := levels - {p};
    }

    // ---------- the side ----------

    /** The prices of the levels, best first. */
    method SortedPrices() returns (ps: seq<Decimal>)
      requires Valid()
      ensures Ranked(isBuy, ps) && Covers(ps, flat)
      ensures forall p :: p in ps <==> p in levels
    {
      ps := SortPrices(isBuy, levels.Keys);
      forall p | p in ps ensures exists o :: o in flat && o.price == p {
        AtPriceMembers(flat, p);
        assert levels[p].orders[0] in flat;
      }
    }

    method Best() returns (best: Option<PriceLevel>)
      requires Valid()
      ensures best.None? <==> flat == []
      ensures best.Some? ==> best.value.price == flat[0].price && best.value.orders == AtPrice(flat, flat[0].price)
      ensures best.Some? ==> forall p :: p in levels ==> !Better(isBuy, p, best.value.price)
    {
      assert flat != [] ==> flat[0] in flat && 0 <= levels[flat[0].price].index < |heap|;
      if |heap| == 0 {
        best := None;
      } else {
        best := Some(levels[heap[0]]);
        forall p | p in levels ensures !Better(isBuy, p, heap[0]) {
          RootIsBest(isBuy, heap, levels[p].index);
        }
        AtPriceMembers(flat, heap[0]);
        assert AtPrice(flat, heap[0])[0] in flat;
        assert flat[0] in flat;
      }
    }

    /** Make sure there is a level at this price, empty if it is new. */
    method NeedLevel(p: Decimal)
      requires Linked(levels, heap) && IsHeap(isBuy, heap)
      modifies this`levels, this`heap
      ensures Linked(levels, heap) && IsHeap(isBuy, heap) && p in levels
      ensures SameQueues(if p in old(levels) then old(levels) else old(levels)[p := PriceLevel(p, [], 0)], levels)
    {
      hide Linked, HeapBut, Bridged, SameQueues;
      SameQueuesCompose(levels, levels, levels);
      if p !in levels {
        NewLevel(isBuy, levels, heap, p);
        levels := levels[p := PriceLevel(p, [], |heap|)];
        heap := heap + [p];
        Up(|heap| - 1, |heap|);
        NewLevelQueues(old(levels), levels, p, old(|heap|));
      }
    }

    method Add(o: Order)
      requires Valid()
      modifies this
      ensures Valid() && flat == Insert(isBuy, old(flat), o)
    {
      var p := o.price;
      if p !in levels {
        AtPriceNone(flat, p);
      }
      NeedLevel(p);
      levels := levels[p := levels[p].(orders := levels[p].orders + [o])];
      InsertKeepsOrder(isBuy, flat, o);
      InsertMembers(isBuy, flat, o);
      forall q ensures AtPrice(Insert(isBuy, flat, o), q) == AtPrice(flat, q) + (if q == p then [o] else []) {
        AtPriceInsert(isBuy, flat, o, q);
      }
      flat := Insert(isBuy, flat, o);
    }

    method Remove(p: Decimal, id: Id)
      requires Valid() && p in levels
      requires forall o :: o in flat && o.id == id ==> o.price == p
      modifies this
      ensures Valid() && flat == Without(old(flat), id) && Queue(p) == Without(old(Queue(p)), id)
    {
      hide Linked, IsHeap, Queued, Without, SameQueues;
      var left := Without(levels[p].orders, id);
      RemoveKeepsQueues(isBuy, levels, flat, p, id);
      QueueChangeKeepsLinks(levels, heap, p, left);
      levels := levels[p := levels[p].(orders := left)];
      ghost var before := levels;
      if left == [] {
        RemoveLevel(p);
        assert before - {p} == old(levels) - {p};
        SameQueuesStayQueued(isBuy, before - {p}, levels, Without(flat, id));
      }
      flat := Without(flat, id);
    }

    /** Add to the filled quantity of the order at a place of a level's queue; k is its place in the side. */
    method AddFill(p: Decimal, place: nat, q: Decimal, ghost k: nat) returns (maker: Order)
      requires Valid() && DistinctIds(flat) && k < |flat| && flat[k].price == p
      requires place < |Queue(p)| && Queue(p)[place] == flat[k]
      modifies this`levels, this`flat
      ensures Valid() && maker == old(flat)[k].(filled := old(flat)[k].filled + q) && flat == old(flat)[k := maker]
      ensures Queue(p) == old(Queue(p))[place := maker]
    {
      hide Linked, IsHeap, Queued, DistinctIds;
      var level := levels[p];
      maker := level.orders[place].(filled := level.orders[place].filled + q);
      FillKeepsQueues(isBuy, levels, flat, k, place, maker);
      QueueChangeKeepsLinks(levels, heap, p, level.orders[place := maker]);
      levels := levels[p := level.(orders := level.orders[place := maker])];
      flat := flat[k := maker];
    }
  }

  /** Swapping the last level into a gap leaves a heap but for that one position. */
  lemma DisplacedLast(isBuy: bool, h: seq<Decimal>, i: nat)
    requires IsHeap(isBuy, h) && i < |h| - 1
    ensures var n := |h| - 1; var h' := h[i := h[n]][n := h[i]];
            DownHole(isBuy, h', n, i, true) && Bridged(isBuy, h', n, i)
  {
  }

  /** Position i may fail against its children and, when it is also the start, against its parent. */
  ghost predicate DownHole(isBuy: bool, h: seq<Decimal>, n: nat, i: nat, atStart: bool)
    requires n <= |h|
  {
    forall c :: 0 <= c < n && Parent(c) != i && !(atStart && c == i) ==> !Better(isBuy, h[c], h[Parent(c)])
  }

  lemma UpStep(isBuy: bool, h: seq<Decimal>, n: nat, j: nat)
    requires 0 < j < n <= |h| && HeapBut(isBuy, h, n, j) && Bridged(isBuy, h, n, j)
    requires Better(isBuy, h[j], h[Parent(j)])
    ensures var i := Parent(j); var h' := h[i := h[j]][j := h[i]];
            HeapBut(isBuy, h', n, i) && Bridged(isBuy, h', n, i)
  {
  }

  /** The child that beats its sibling. */
  function BestChild(isBuy: bool, h: seq<Decimal>, n: nat, i: nat): (j: nat)
    requires n <= |h| && 2 * i + 1 < n
    ensures i < j < n && Parent(j) == i
    ensures forall c :: 0 < c < n && Parent(c) == i ==> !Better(isBuy, h[c], h[j])
  {
    if 2 * i + 2 < n && Better(isBuy, h[2 * i + 2], h[2 * i + 1]) then 2 * i + 2 else 2 * i + 1
  }

  lemma DownStop(isBuy: bool, h: seq<Decimal>, n: nat, i: nat, atStart: bool)
    requires i < n <= |h| && DownHole(isBuy, h, n, i, atStart)
    requires 2 * i + 1 >= n || !Better(isBuy, h[BestChild(isBuy, h, n, i)], h[i])
    ensures HeapBut(isBuy, h, n, if atStart then i else -1)
  {
  }

  lemma DownStep(isBuy: bool, h: seq<Decimal>, n: nat, i: nat, j: nat, atStart: bool)
    requires n <= |h| && 2 * i + 1 < n && j == BestChild(isBuy, h, n, i) && Better(isBuy, h[j], h[i])
    requires DownHole(isBuy, h, n, i, atStart) && Bridged(isBuy, h, n, i)
    ensures var h' := h[i := h[j]][j := h[i]];
            DownHole(isBuy, h', n, j, false) && Bridged(isBuy, h', n, j)
  {
  }
}
