/** The engine object: a book per symbol, made on demand, and the published trades. */
module MatchingEngines {
  import opened Orders
  import opened Matching
  import opened BookRuns
  import opened BookSides
  import opened OrderBooks
  import opened Tally
  import Runs = EngineRuns

  /** The book of a symbol owns its objects, so no two books share one. */
  ghost predicate Owned(owner: map<object, Id>, book: OrderBook, symbol: Id) {
    && book in owner && book.buys in owner && book.sells in owner
    && owner[book] == symbol && owner[book.buys] == symbol && owner[book.sells] == symbol
  }

  ghost predicate AllOwned(owner: map<object, Id>, books: map<Id, OrderBook>) {
    forall s :: s in books ==> Owned(owner, books[s], s)
  }

  ghost function Owning(owner: map<object, Id>, book: OrderBook, name: Id): map<object, Id> {
    owner[book := name][book.buys := name][book.sells := name]
  }

  lemma OwnMore(owner: map<object, Id>, books: map<Id, OrderBook>, name: Id, book: OrderBook)
    requires AllOwned(owner, books) && book !in owner && book.buys !in owner && book.sells !in owner
    ensures AllOwned(Owning(owner, book, name), books[name := book])
    ensures Owning(owner, book, name).Keys == owner.Keys + {book, book.buys, book.sells}
  {
  }

  lemma OwnedParts(owner: map<object, Id>, books: map<Id, OrderBook>, name: Id)
    requires AllOwned(owner, books) && name in books
    ensures books[name] in owner && books[name].buys in owner && books[name].sells in owner
  {
  }

  ghost predicate Shows(book: OrderBook, view: Book)
    reads book, book.buys, book.sells
  {
    book.Valid() && book.View() == view
  }

  method MatchBook(book: OrderBook, ghost view: Book, o: Order) returns (trades: seq<Trade>)
    requires Shows(book, view)
    modifies book, book.buys, book.sells
    ensures Shows(book, Match(view, o).book) && trades == Match(view, o).trades
  {
    var taker, problem;
    taker, trades, problem := book.MatchOrder(o);
  }

  method RemoveFrom(book: OrderBook, ghost view: Book, id: Id) returns (removed: bool)
    requires Shows(book, view)
    modifies book, book.buys, book.sells
    ensures Shows(book, Cancel(view, id)) && (removed <==> id != NONE && (HasId(view.bids, id) || HasId(view.asks, id)))
  {
    removed := book.RemoveOrder(id);
  }

  lemma FirstOfAll(trades: seq<Trade>, k: nat)
    ensures |trades| <= k ==> Runs.First(Numbered(trades, 0), k) == Numbered(trades, 0)
  {
    NumberedAt(trades, 0);
  }

  class MatchingEngine {
    var books: map<Id, OrderBook>
    var published: seq<TradeEvent>
    ghost var placed: map<Id, Order>
    ghost var views: map<Id, Book>
    ghost var owner: map<object, Id>

    ghost predicate Valid()
      reads this, owner.Keys
    {
      && this !in owner && views.Keys == books.Keys
      && AllOwned(owner, books)
      && (forall s :: s in books ==> Shows(books[s], views[s]))
    }

    ghost function View(): Runs.Engine
      reads this
    {
      Runs.Engine(views, placed, published)
    }

    constructor ()
      ensures Valid() && View() == Runs.START && fresh(owner.Keys)
    {
      books, published, placed, views, owner := map[], [], map[], map[], map[];
    }

    method GetOrderBook(symbol: Id) returns (book: OrderBook)
      requires Valid()
      modifies this`books, this`views, this`owner
      ensures Valid() && fresh(owner.Keys - old(owner.Keys))
      ensures var name := Runs.BookName(symbol);
              && name in books && books[name] == book
              && views == old(views)[name := Runs.BookOf(old(View()), name)]
    {
      hide Shows;
      var name := if symbol == NONE then Runs.UNKNOWN else symbol;
      if name in books {
        book := books[name];
      } else {
        book := NewBook();
        Enter(name, book, EMPTY);
      }
    }

    method Enter(name: Id, book: OrderBook, view: Book)
      requires Valid() && name !in books && this != book as object && Shows(book, view)
      requires book !in owner && book.buys !in owner && book.sells !in owner
      modifies this`books, this`views, this`owner
      ensures Valid() && books == old(books)[name := book] && views == old(views)[name := view]
      ensures owner.Keys == old(owner.Keys) + {book, book.buys, book.sells}
    {
      hide Shows, Owned, AllOwned, Owning;
      OwnMore(owner, books, name, book);
      owner := Owning(owner, book, name);
      books := books[name := book];
      views := views[name := view];
    }

    method NewBook() returns (book: OrderBook)
      ensures fresh(book) && fresh(book.buys) && fresh(book.sells) && Shows(book, EMPTY)
    {
      book := new OrderBook();
    }

    /** The other books stay as they are when one book's own objects change. */
    twostate lemma OthersStay(name: Id)
      requires old(Valid()) && name in books && books == old(books) && owner == old(owner)
      requires forall x :: x in owner && owner[x] != name ==> unchanged(x)
      ensures forall s :: s in books && s != name ==> Shows(books[s], old(views)[s])
    {
      hide Shows;
      forall s | s in books && s != name ensures Shows(books[s], old(views)[s]) {
        assert Owned(owner, books[s], s);
      }
    }

    method MatchIn(name: Id, o: Order) returns (trades: seq<Trade>)
      requires Valid() && name in books
      modifies this`views, books[name], books[name].buys, books[name].sells
      ensures Valid() && views == old(views)[name := Match(old(views)[name], o).book]
      ensures trades == Match(old(views)[name], o).trades
    {
      hide Shows, Match;
      assert Owned(owner, books[name], name);
      trades := MatchBook(books[name], views[name], o);
      OthersStay(name);
      views := views[name := Match(views[name], o).book];
    }

    method RemoveIn(name: Id, id: Id) returns (removed: bool)
      requires Valid() && name in books
      modifies this`views, books[name], books[name].buys, books[name].sells
      ensures Valid() && views == old(views)[name := Cancel(old(views)[name], id)]
      ensures var b := old(views)[name]; removed <==> id != NONE && (HasId(b.bids, id) || HasId(b.asks, id))
    {
      hide Shows, Cancel, HasId;
      assert Owned(owner, books[name], name);
      removed := RemoveFrom(books[name], views[name], id);
      OthersStay(name);
      views := views[name := Cancel(views[name], id)];
    }

    /** Publish the trades in order, numbered from zero, until one of them fails; `k` of them would succeed. */
    method Publish(trades: seq<Trade>, k: nat) returns (ok: bool)
      modifies this`published
      ensures ok <==> |trades| <= k
      ensures published == old(published) + Runs.First(Numbered(trades, 0), k)
    {
      NumberedAt(trades, 0);
      ghost var events := Numbered(trades, 0);
      for i := 0 to |trades|
        invariant i <= k && published == old(published) + events[..i]
      {
        if i == k {
          return false;
        }
        published := published + [TradeEvent(i, trades[i])];
        assert events[..i + 1] == events[..i] + [events[i]];
      }
      assert events[..|trades|] == events;
      return true;
    }

    method MatchOnDemand(o: Order) returns (trades: seq<Trade>)
      requires Valid() && o.symbol != NONE
      modifies this`books, this`views, this`owner, owner.Keys
      ensures Valid() && fresh(owner.Keys - old(owner.Keys))
      ensures var r := Match(Runs.BookOf(old(View()), o.symbol), o);
              views == old(views)[o.symbol := r.book] && trades == r.trades
    {
      hide Shows, Match, AllOwned;
      var book := GetOrderBook(o.symbol);
      OwnedParts(owner, books, o.symbol);
      trades := MatchIn(o.symbol, o);
    }

    /** `k` publishes succeed; an error after matching leaves the match done. */
    method ProcessOrder(o: Order, k: nat) returns (trades: seq<Trade>, error: bool)
      requires Valid()
      modifies this, owner.Keys
      ensures Valid() && fresh(owner.Keys - old(owner.Keys))
      ensures (View(), !error) == Runs.Attempt(old(View()), o, k)
      ensures trades == if error then [] else Match(Runs.BookOf(old(View()), o.symbol), o).trades
    {
      hide Shows, Match, Refusal, AllOwned, Numbered, Runs.BookOf, Runs.First;
      if !Runs.Acceptable(o) {
        return [], true;
      }
      trades := MatchOnDemand(o);
      placed := placed[o.id := o];
      FirstOfAll(trades, k);
      var ok := Publish(trades, k);
      if !ok {
        return [], true;
      }
      error := false;
    }

    method CancelOrder(symbol: Id, id: Id) returns (removed: bool)
      requires Valid()
      modifies this, owner.Keys
      ensures Valid() && fresh(owner.Keys - old(owner.Keys))
      ensures View() == Runs.Step(old(View()), Runs.Recall(symbol, id))
      ensures var b := Runs.BookOf(old(View()), Runs.BookName(symbol));
              removed <==> id != NONE && (HasId(b.bids, id) || HasId(b.asks, id))
    {
      hide Shows, Cancel, AllOwned, HasId, Runs.Process;
      var book := GetOrderBook(symbol);
      OwnedParts(owner, books, Runs.BookName(symbol));
      removed := RemoveIn(Runs.BookName(symbol), id);
    }
  }
}
