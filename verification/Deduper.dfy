/** The bounded memory of handled events. */
module Dedupers {
  import opened Orders

  const DEFAULT_SIZE := 10000

  /** The last `n` of a history. */
  function Window(history: seq<Id>, n: nat): seq<Id> {
    if |history| <= n then history else history[|history| - n..]
  }

  /** The first-time marks after one more: blank ids and ids still remembered add nothing. */
  function Marked(history: seq<Id>, n: nat, id: Id): seq<Id> {
    if id == NONE || id in Window(history, n) then history else history + [id]
  }

  /** Whatever returns to a history had left the window: equal entries are more than `n` apart. */
  ghost predicate Apart(history: seq<Id>, n: nat) {
    forall i, j :: 0 <= i < j < |history| && history[i] == history[j] ==> j - i > n
  }

  predicate NoDuplicates(s: seq<Id>) {
    forall i, j :: 0 <= i < j < |s| ==> s[i] != s[j]
  }

  lemma RecentIsInWindow(history: seq<Id>, n: nat, i: nat)
    requires i < |history| <= i + n
    ensures history[i] in Window(history, n)
  {
    var w := Window(history, n);
    assert w[i - (|history| - |w|)] == history[i];
  }

  lemma MarkedKeepsApart(history: seq<Id>, n: nat, id: Id)
    requires Apart(history, n)
    ensures Apart(Marked(history, n, id), n)
  {
    forall i | 0 <= i < |history| <= i + n ensures history[i] in Window(history, n) {
      RecentIsInWindow(history, n, i);
    }
  }

  lemma WindowHasNoDuplicates(history: seq<Id>, n: nat)
    requires Apart(history, n)
    ensures NoDuplicates(Window(history, n))
  {
    var w := Window(history, n);
    forall i, j | 0 <= i < j < |w| ensures w[i] != w[j] {
      var k := |history| - |w|;
      assert w[i] == history[i + k] && w[j] == history[j + k];
    }
  }

  /** A new id enters the window at its end, and the oldest leaves if the window is full. */
  lemma WindowAfterMark(history: seq<Id>, n: nat, id: Id)
    requires n > 0
    ensures var w := Window(history, n); var w' := Window(Marked(history, n, id), n);
            w' == if id == NONE || id in w then w else (if |w| == n then w[1..] else w) + [id]
  {
  }

  class EventDeduper {
    const maxSize: nat
    var order: seq<Id>
    var seenByID: set<Id>
    ghost var history: seq<Id>

    /** An exact sliding window over the first-time marks. */
    ghost predicate Valid()
      reads this
    {
      && maxSize > 0 && Apart(history, maxSize)
      && order == Window(history, maxSize)
      && (forall id :: id in seenByID <==> id in order)
    }

    constructor (max: int)
      ensures Valid() && history == [] && maxSize == if max <= 0 then DEFAULT_SIZE else max
    {
      maxSize := if max <= 0 then DEFAULT_SIZE else max;
      order, seenByID, history := [], {}, [];
    }

    method Seen(id: Id) returns (seen: bool)
      requires Valid()
      ensures seen <==> id != NONE && id in Window(history, maxSize)
    {
      return id != NONE && id in seenByID;
    }

    method Mark(id: Id)
      requires Valid()
      modifies this
      ensures Valid() && history == Marked(old(history), maxSize, id)
    {
      if id == NONE || id in seenByID {
        return;
      }
      MarkedKeepsApart(history, maxSize, id);
      WindowHasNoDuplicates(Marked(history, maxSize, id), maxSize);
      WindowHasNoDuplicates(history, maxSize);
      ghost var before := order;
      history := history + [id];
      seenByID := seenByID + {id};
      order := order + [id];
      if |order| > maxSize {
        var oldest := order[0];
        order := order[1..];
        seenByID := seenByID - {oldest};
        assert order == before[1..] + [id] && before == [oldest] + before[1..];
        assert oldest !in before[1..];
        assert order == Window(history, maxSize);
      }
    }
  }
}
