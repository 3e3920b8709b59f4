/** The order consumer: messages, deduplicated twice, drive the engine. */
module Consumers {
  import opened Orders
  import opened Dedupers
  import opened MatchingEngines
  import opened Matching
  import opened Tally
  import opened PublishRuns
  import Engine = EngineRuns

  const EVENT_WINDOW := 100000
  const ORDER_WINDOW := 200000

  /** A message: an accepted order, or a cancellation. `valid` says whether it decodes and validates, `parses` whether
      its numbers do, and `publishes` how many trades can be published before one fails. */
  datatype Message =
    | Accepted(event: Id, order: Order, valid: bool, parses: bool, publishes: nat)
    | Cancelled(event: Id, symbol: Id, id: Id, valid: bool)

  datatype Outcome = DeadLettered | Skipped | EngineFailed | Handled

  /** The first-time marks of both dedupers, the orders processed with success, and the engine. */
  datatype Consumer = Consumer(events: seq<Id>, orders: seq<Id>, processed: seq<Id>, engine: Engine.Engine)

  const IDLE := Consumer([], [], [], Engine.START)

  predicate Remembered(history: seq<Id>, n: nat, id: Id) { id != NONE && id in Window(history, n) }

  ghost function Handle(c: Consumer, m: Message): (Consumer, Outcome) {
    if !m.valid then (c, DeadLettered)
    else if Remembered(c.events, EVENT_WINDOW, m.event) then (c, Skipped)
    else
      var events := Marked(c.events, EVENT_WINDOW, m.event);
      match m
      case Cancelled(_, symbol, id, _) =>
        (c.(events := events, engine := Engine.Step(c.engine, Engine.Recall(symbol, id))), Handled)
      case Accepted(_, o, _, parses, publishes) =>
        if o.id == NONE then (c, DeadLettered)
        else if Remembered(c.orders, ORDER_WINDOW, o.id) then (c, Skipped)
        else if !parses then (c, DeadLettered)
        else
          var (engine, ok) := Engine.Attempt(c.engine, Engine.Unfilled(o), publishes);
          if !ok then (c.(engine := engine), EngineFailed)
          else (Consumer(events, Marked(c.orders, ORDER_WINDOW, o.id), c.processed + [o.id], engine), Handled)
  }

  ghost function HandleAll(c: Consumer, ms: seq<Message>): Consumer
    decreases |ms|
  {
    if ms == [] then c else HandleAll(Handle(c, ms[0]).0, ms[1..])
  }

  /** The processed orders are exactly the marked ones. */
  ghost predicate Consistent(c: Consumer) {
    && c.processed == c.orders && Apart(c.orders, ORDER_WINDOW) && Apart(c.events, EVENT_WINDOW)
    && NONE !in c.orders
  }

  lemma HandleConsistent(c: Consumer, m: Message)
    requires Consistent(c)
    ensures Consistent(Handle(c, m).0) && c.processed <= Handle(c, m).0.processed
  {
    hide Engine.Attempt, Engine.Step;
    MarkedKeepsApart(c.events, EVENT_WINDOW, m.event);
    if m.Accepted? {
      MarkedKeepsApart(c.orders, ORDER_WINDOW, m.order.id);
    }
  }

  lemma {:induction false} HandleAllConsistent(c: Consumer, ms: seq<Message>)
    requires Consistent(c)
    ensures Consistent(HandleAll(c, ms)) && c.processed <= HandleAll(c, ms).processed
    decreases |ms|
  {
    hide Handle, Consistent;
    if ms != [] {
      HandleConsistent(c, ms[0]);
      HandleAllConsistent(Handle(c, ms[0]).0, ms[1..]);
    }
  }

  /** In every run, whatever is delivered and redelivered: between two times the engine processes the same order with
      success, at least ORDER_WINDOW other orders are processed, no two of them the same. */
  lemma NoOrderTwiceInWindow(ms: seq<Message>, i: nat, j: nat)
    requires i < j < |HandleAll(IDLE, ms).processed|
    requires HandleAll(IDLE, ms).processed[i] == HandleAll(IDLE, ms).processed[j]
    ensures j - i > ORDER_WINDOW
    ensures NoDuplicates(HandleAll(IDLE, ms).processed[i + 1..i + 1 + ORDER_WINDOW])
  {
    hide HandleAll;
    HandleAllConsistent(IDLE, ms);
  }

  /** A processed order delivered again, under whatever event id, before ORDER_WINDOW more orders are processed:
      nothing happens. */
  lemma RedeliveryIsSkipped(c: Consumer, m: Message, more: seq<Message>, again: Message)
    requires Consistent(c) && m.Accepted? && Handle(c, m).1.Handled?
    requires again.Accepted? && again.valid && again.order.id == m.order.id
    requires var c' := HandleAll(Handle(c, m).0, more); |c'.processed| - |c.processed| <= ORDER_WINDOW
    ensures var c' := HandleAll(Handle(c, m).0, more); Handle(c', again) == (c', Skipped)
  {
    hide HandleAll, Engine.Attempt, Engine.Step;
    var c1 := Handle(c, m).0;
    HandleConsistent(c, m);
    HandleAllConsistent(c1, more);
    RecentIsInWindow(HandleAll(c1, more).orders, ORDER_WINDOW, |c.processed|);
  }

  // ---------- what each message comes to ----------

  /** The message gets as far as the engine: it is valid, its event is not remembered, and an order has an id that is
      not remembered either and numbers that parse. */
  predicate Passes(c: Consumer, m: Message) {
    && m.valid && !(m.event != NONE && m.event in Window(c.events, EVENT_WINDOW))
    && (m.Accepted? ==> m.order.id != NONE && m.order.id !in Window(c.orders, ORDER_WINDOW) && m.parses)
  }

  /** The four outcomes of a message, each exactly when. */
  lemma OutcomeIs(c: Consumer, m: Message)
    ensures var out := Handle(c, m).1;
            var eventSeen := m.event != NONE && m.event in Window(c.events, EVENT_WINDOW);
            var orderSeen := m.Accepted? && m.order.id != NONE && m.order.id in Window(c.orders, ORDER_WINDOW);
            && (out.Skipped? <==> m.valid && (eventSeen || orderSeen))
            && (out.Handled? <==>
                  Passes(c, m) && (m.Accepted? ==> Engine.Acceptable(m.order) && Publishes(c.engine, m)))
            && (out.EngineFailed? <==>
                  Passes(c, m) && m.Accepted? && !(Engine.Acceptable(m.order) && Publishes(c.engine, m)))
            && (out.DeadLettered? <==>
                  !m.valid || (m.Accepted? && !eventSeen && !orderSeen && (m.order.id == NONE || !m.parses)))
  {
    hide Match, Marked, Window, Engine.Step;
    if m.Accepted? {
      UnfilledIsSame(c.engine, m.order);
    }
  }

  /** A handled message marks its event, and an order its id; a failed order changes the engine only; any other message
      changes nothing. */
  lemma EffectIs(c: Consumer, m: Message)
    ensures var (c', out) := Handle(c, m);
            && (out.Skipped? || out.DeadLettered? ==> c' == c)
            && (out.EngineFailed? ==>
                  c' == c.(engine := Engine.Attempt(c.engine, m.order.(filled := 0.0), m.publishes).0))
            && (out.Handled? ==>
                  && c'.events == (if m.event == NONE then c.events else c.events + [m.event])
                  && c'.orders == (if m.Accepted? then c.orders + [m.order.id] else c.orders)
                  && c'.processed == (if m.Accepted? then c.processed + [m.order.id] else c.processed)
                  && c'.engine == if m.Accepted? then Engine.Attempt(c.engine, m.order.(filled := 0.0), m.publishes).0
                                  else Engine.Step(c.engine, Engine.Recall(m.symbol, m.id)))
  {
    hide Engine.Attempt, Window, Engine.Step;
  }

  /** Whatever was handled, order or cancellation: a valid message with the same event delivered next is skipped. */
  lemma EventRedeliveryIsSkipped(c: Consumer, m: Message, again: Message)
    requires Handle(c, m).1.Handled? && m.event != NONE && again.valid && again.event == m.event
    ensures Handle(Handle(c, m).0, again) == (Handle(c, m).0, Skipped)
  {
    hide Engine.Attempt, Engine.Step, Window;
    EffectIs(c, m);
    var events := Handle(c, m).0.events;
    RecentIsInWindow(events, EVENT_WINDOW, |events| - 1);
  }

  // ---------- the engine behind the consumer ----------

  /** Every trade of every processed order gets published. */
  ghost predicate AllPublished(c: Consumer, ms: seq<Message>)
    decreases |ms|
  {
    ms == [] || (Publishes(c.engine, ms[0]) && AllPublished(Handle(c, ms[0]).0, ms[1..]))
  }

  ghost predicate Publishes(e: Engine.Engine, m: Message) {
    m.Accepted? ==> |Match(Engine.BookOf(e, m.order.symbol), Engine.Unfilled(m.order)).trades| <= m.publishes
  }

  function CommandOf(m: Message): Engine.Command {
    match m
    case Accepted(_, o, _, _, _) => Engine.Accept(o)
    case Cancelled(_, symbol, id, _) => Engine.Recall(symbol, id)
  }

  /** The message changes the engine: a cancellation, or an acceptable order, that is not turned away before. */
  ghost predicate Reaches(c: Consumer, m: Message) {
    Handle(c, m).1.Handled? || (m.Accepted? && Handle(c, m).1.EngineFailed? && Engine.Acceptable(m.order))
  }

  /** The messages that reached the engine, as it was given them. */
  ghost function TriesOf(c: Consumer, ms: seq<Message>): seq<Try>
    decreases |ms|
  {
    if ms == [] then []
    else
      var later := TriesOf(Handle(c, ms[0]).0, ms[1..]);
      if Reaches(c, ms[0]) then [Try(CommandOf(ms[0]), if ms[0].Accepted? then ms[0].publishes else 0)] + later
      else later
  }

  lemma HandledIsTry(c: Consumer, m: Message)
    ensures Handle(c, m).0.engine ==
            if Reaches(c, m) then TryStep(c.engine, Try(CommandOf(m), if m.Accepted? then m.publishes else 0))
            else c.engine
  {
    hide Match, Marked, Window, Engine.Step;
  }

  /** In every run, whatever fails to be published, the consumer's engine has run the messages that reached it. */
  lemma {:induction false} EngineRunsTries(c: Consumer, ms: seq<Message>)
    ensures HandleAll(c, ms).engine == TryRun(c.engine, TriesOf(c, ms))
    decreases |ms|
  {
    hide Handle, Reaches, TryStep;
    if ms != [] {
      HandledIsTry(c, ms[0]);
      EngineRunsTries(Handle(c, ms[0]).0, ms[1..]);
      if Reaches(c, ms[0]) {
        assert TriesOf(c, ms)[1..] == TriesOf(Handle(c, ms[0]).0, ms[1..]);
      }
    }
  }

  lemma HandledIsStep(c: Consumer, m: Message)
    requires Publishes(c.engine, m)
    ensures Handle(c, m).0.engine == if Handle(c, m).1.Handled? then Engine.Step(c.engine, CommandOf(m)) else c.engine
    ensures Reaches(c, m) <==> Handle(c, m).1.Handled?
    ensures Handle(c, m).0.processed ==
            if Handle(c, m).1.Handled? && m.Accepted? then c.processed + [m.order.id] else c.processed
  {
    hide Match, Engine.Process, Engine.Attempt;
    if m.Accepted? {
      Engine.AttemptIsProcess(c.engine, Engine.Unfilled(m.order), m.publishes);
      UnfilledIsSame(c.engine, m.order);
    }
  }

  /** The engine looks at an order without its fills; an unacceptable one changes nothing. */
  lemma UnfilledIsSame(e: Engine.Engine, o: Order)
    ensures Engine.Process(e, Engine.Unfilled(o)) == Engine.Process(e, o)
    ensures Engine.Acceptable(Engine.Unfilled(o)) == Engine.Acceptable(o)
    ensures !Engine.Acceptable(o) ==> Engine.Process(e, o) == e
  {
    hide Match;
    assert Engine.Unfilled(Engine.Unfilled(o)) == Engine.Unfilled(o);
  }

  function AcceptedIds(cs: seq<Engine.Command>): seq<Id>
    decreases |cs|
  {
    if cs == [] then []
    else if cs[0].Accept? then [cs[0].order.id] + AcceptedIds(cs[1..])
    else AcceptedIds(cs[1..])
  }

  lemma {:induction false} EngineRunsCommands(c: Consumer, ms: seq<Message>)
    requires AllPublished(c, ms)
    ensures HandleAll(c, ms).engine == Engine.Run(c.engine, CommandsIn(TriesOf(c, ms)))
    ensures HandleAll(c, ms).processed == c.processed + AcceptedIds(CommandsIn(TriesOf(c, ms)))
    decreases |ms|
  {
    hide Handle, Engine.Step, Publishes, Reaches;
    if ms != [] {
      var (c', out) := Handle(c, ms[0]);
      HandledIsStep(c, ms[0]);
      EngineRunsCommands(c', ms[1..]);
      if out.Handled? {
        var later := TriesOf(c', ms[1..]);
        assert TriesOf(c, ms)[1..] == later;
        assert CommandsIn(TriesOf(c, ms)) == [CommandOf(ms[0])] + CommandsIn(later);
        assert CommandsIn(TriesOf(c, ms))[1..] == CommandsIn(later);
      }
    }
  }

  lemma {:induction false} DistinctIsOnce(cs: seq<Engine.Command>, seen: set<Id>)
    requires NoDuplicates(AcceptedIds(cs)) && forall id :: id in AcceptedIds(cs) ==> id !in seen
    ensures Engine.Once(cs, seen)
    decreases |cs|
  {
    if cs != [] {
      var ids, later := AcceptedIds(cs), AcceptedIds(cs[1..]);
      if cs[0].Accept? {
        assert ids[0] == cs[0].order.id && later == ids[1..];
        DistinctIsOnce(cs[1..], seen + {cs[0].order.id});
      } else {
        DistinctIsOnce(cs[1..], seen);
      }
    }
  }

  /** What the engine's run theorems ask for: whatever is delivered and redelivered, with every trade published and up
      to ORDER_WINDOW + 1 orders processed, the engine behind the consumer is in the state of a run in which no order
      id is accepted twice. */
  lemma EngineSeesEachOrderOnce(ms: seq<Message>)
    requires AllPublished(IDLE, ms) && |HandleAll(IDLE, ms).processed| <= ORDER_WINDOW + 1
    ensures var cs := CommandsIn(TriesOf(IDLE, ms));
            HandleAll(IDLE, ms).engine == Engine.Run(Engine.START, cs) && Engine.Once(cs, {})
  {
    hide HandleAll, AllPublished, TriesOf, Engine.Run, Engine.Once;
    EngineRunsCommands(IDLE, ms);
    HandleAllConsistent(IDLE, ms);
    var cs := CommandsIn(TriesOf(IDLE, ms));
    assert HandleAll(IDLE, ms).processed == AcceptedIds(cs);
    DistinctIsOnce(cs, {});
  }

  // ---------- when a publish fails ----------

  /** An order that reaches the engine is skipped when it is delivered again if and only if all its trades were
      published the first time. */
  lemma SkippedIffPublished(c: Consumer, m: Message, again: Message)
    requires m.Accepted? && m.valid && m.parses && Engine.Acceptable(m.order)
    requires !Remembered(c.events, EVENT_WINDOW, m.event) && !Remembered(c.orders, ORDER_WINDOW, m.order.id)
    requires again.Accepted? && again.valid && again.order.id == m.order.id
    requires !Remembered(c.events, EVENT_WINDOW, again.event)
    ensures Handle(Handle(c, m).0, again).1.Skipped? <==> Publishes(c.engine, m)
  {
    hide Match;
    UnfilledIsSame(c.engine, m.order);
    if Publishes(c.engine, m) {
      var orders := Handle(c, m).0.orders;
      RecentIsInWindow(orders, ORDER_WINDOW, |orders| - 1);
    }
  }

  /** Along a run: no order reaches the engine again after some of its trades could not be published. */
  ghost predicate NeverRetried(c: Consumer, ms: seq<Message>, failed: set<Id>)
    decreases |ms|
  {
    ms == [] ||
    (&& (Reaches(c, ms[0]) && ms[0].Accepted? ==> ms[0].order.id !in failed)
     && NeverRetried(Handle(c, ms[0]).0, ms[1..], failed + Unpublished(c, ms[0])))
  }

  ghost function Unpublished(c: Consumer, m: Message): set<Id> {
    if m.Accepted? && Reaches(c, m) && Handle(c, m).1.EngineFailed? then {m.order.id} else {}
  }

  function Ids(s: seq<Id>): set<Id> { set i | 0 <= i < |s| :: s[i] }

  lemma IdsSnoc(s: seq<Id>, id: Id)
    ensures Ids(s + [id]) == Ids(s) + {id}
  {
    forall x ensures x in Ids(s) <==> x in s { }
    forall x ensures x in Ids(s + [id]) <==> x in s + [id] { }
  }

  /** What one message adds to the orders the engine has seen, processed or not. */
  lemma SeenStep(c: Consumer, m: Message)
    requires Consistent(c) && |c.processed| <= ORDER_WINDOW
    ensures Reaches(c, m) && m.Accepted? ==> m.order.id !in Ids(c.processed)
    ensures Ids(Handle(c, m).0.processed) + Unpublished(c, m) ==
            Ids(c.processed) + if Reaches(c, m) && m.Accepted? then {m.order.id} else {}
  {
    hide Engine.Attempt, Engine.Step, Apart;
    if m.Accepted? && Handle(c, m).1.Handled? {
      IdsSnoc(c.processed, m.order.id);
    }
  }

  /** Up to ORDER_WINDOW processed orders: the engine is given no order id twice if and only if no order is retried. */
  lemma {:induction false} OnceIffNeverRetried(c: Consumer, ms: seq<Message>, failed: set<Id>)
    requires Consistent(c) && |HandleAll(c, ms).processed| <= ORDER_WINDOW
    ensures Engine.Once(CommandsIn(TriesOf(c, ms)), Ids(c.processed) + failed) <==> NeverRetried(c, ms, failed)
    decreases |ms|
  {
    hide Handle, Consistent, Reaches, Unpublished, Ids;
    if ms != [] {
      var c', m := Handle(c, ms[0]).0, ms[0];
      HandleConsistent(c, m);
      HandleAllConsistent(c', ms[1..]);
      SeenStep(c, m);
      OnceIffNeverRetried(c', ms[1..], failed + Unpublished(c, m));
      var seen := Ids(c.processed) + failed;
      assert Ids(c'.processed) + (failed + Unpublished(c, m)) ==
             seen + if Reaches(c, m) && m.Accepted? then {m.order.id} else {};
      if Reaches(c, m) {
        assert TriesOf(c, ms)[1..] == TriesOf(c', ms[1..]);
        assert CommandsIn(TriesOf(c, ms)) == [CommandOf(m)] + CommandsIn(TriesOf(c', ms[1..]));
        assert CommandsIn(TriesOf(c, ms))[1..] == CommandsIn(TriesOf(c', ms[1..]));
        assert seen + {} == seen;
      } else {
        assert seen + {} == seen;
      }
    }
  }

  /** So, failed publishes or not, as long as no order is retried after one: the engine behind the consumer has
      published, for every order, trades of at most its quantity and of at most what was reserved for it. */
  lemma ConsumerFillsBounded(ms: seq<Message>, id: Id)
    requires |HandleAll(IDLE, ms).processed| <= ORDER_WINDOW && NeverRetried(IDLE, ms, {})
    requires id in HandleAll(IDLE, ms).engine.placed
    ensures var e := HandleAll(IDLE, ms).engine; var o := e.placed[id];
            && Total(e.log, Engine.QtyFor(id)) <= o.quantity
            && (o.side.Sell? || o.kind.Limit? ==> Total(e.log, Engine.UseFor(o)) <= Engine.Required(o))
  {
    hide HandleAll, NeverRetried, TriesOf, TryRun, Total, Engine.Once;
    EngineRunsTries(IDLE, ms);
    OnceIffNeverRetried(IDLE, ms, {});
    assert Ids(IDLE.processed) + {} == {};
    PublishedFillsBounded(TriesOf(IDLE, ms));
    var o := HandleAll(IDLE, ms).engine.placed[id];
    if o.side.Sell? || o.kind.Limit? {
      PublishedWithinReserved(TriesOf(IDLE, ms), id);
    }
  }

  // ---------- the object ----------

  class OrderConsumer {
    const engine: MatchingEngine
    const deduper: EventDeduper
    const orderDeduper: EventDeduper
    ghost var processed: seq<Id>

    ghost predicate Valid()
      reads this, deduper, orderDeduper, engine, engine.owner.Keys
    {
      && deduper != orderDeduper && deduper.Valid() && orderDeduper.Valid() && engine.Valid()
      && {this, deduper, orderDeduper} !! engine.owner.Keys
      && deduper.maxSize == EVENT_WINDOW && orderDeduper.maxSize == ORDER_WINDOW
    }

    ghost function View(): Consumer
      reads this, deduper, orderDeduper, engine
    {
      Consumer(deduper.history, orderDeduper.history, processed, engine.View())
    }

    constructor ()
      ensures Valid() && View() == IDLE
    {
      engine := new MatchingEngine();
      deduper := new EventDeduper(EVENT_WINDOW);
      orderDeduper := new EventDeduper(ORDER_WINDOW);
      processed := [];
    }

    method HandleMessage(m: Message) returns (outcome: Outcome)
      requires Valid()
      modifies this, deduper, orderDeduper, engine, engine.owner.Keys
      ensures Valid() && (View(), outcome) == Handle(old(View()), m)
    {
      hide MatchingEngine.Valid, EventDeduper.Valid, Engine.Attempt, Engine.Step, Marked, Window, Match;
      if !m.valid {
        return DeadLettered;
      }
      var seen := deduper.Seen(m.event);
      if seen {
        return Skipped;
      }
      match m {
        case Cancelled(event, symbol, id, _) =>
          var removed := engine.CancelOrder(symbol, id);
          deduper.Mark(event);
          return Handled;
        case Accepted(event, o, _, parses, publishes) =>
          if o.id == NONE {
            return DeadLettered;
          }
          var handled := orderDeduper.Seen(o.id);
          if handled {
            return Skipped;
          }
          if !parses {
            return DeadLettered;
          }
          var trades, failed := engine.ProcessOrder(o.(filled := 0.0), publishes);
          if failed {
            return EngineFailed;
          }
          processed := processed + [o.id];
          deduper.Mark(event);
          orderDeduper.Mark(o.id);
          return Handled;
      }
    }
  }
}
