/** Runs of the engine in which publishing trades may fail: the match stays done, and the trades from the failing one
    on are never published. */
module PublishRuns {
  import opened Orders
  import opened Matching
  import opened Tally
  import opened EngineRuns

  /** A command, and how many trades can be published for it before one fails. */
  datatype Try = Try(command: Command, publishes: nat)

  ghost function TryStep(e: Engine, t: Try): Engine {
    match t.command
    case Accept(o) => Attempt(e, Unfilled(o), t.publishes).0
    case Recall(_, _) => Step(e, t.command)
  }

  ghost function TryRun(e: Engine, ts: seq<Try>): Engine
    decreases |ts|
  {
    if ts == [] then e else TryRun(TryStep(e, ts[0]), ts[1..])
  }

  function CommandsIn(ts: seq<Try>): seq<Command> {
    if ts == [] then [] else [ts[0].command] + CommandsIn(ts[1..])
  }

  /** The same books and orders, and published trades that are part of the trades made. */
  ghost predicate Follows(e: Engine, full: Engine) {
    e.books == full.books && e.placed == full.placed && Sublog(e.log, full.log)
  }

  lemma TryFollows(e: Engine, full: Engine, t: Try)
    requires Follows(e, full)
    ensures Follows(TryStep(e, t), Step(full, t.command))
  {
    hide Match, Numbered, Sublog;
    if t.command.Accept? && Acceptable(t.command.order) {
      var o := Unfilled(t.command.order);
      assert Unfilled(o) == o;
      var events := Numbered(Match(BookOf(e, o.symbol), o).trades, 0);
      NumberedAt(Match(BookOf(e, o.symbol), o).trades, 0);
      var k := if t.publishes < |events| then t.publishes else |events|;
      SublogPrefix(events, k);
      assert events[..|events|] == events;
      SublogConcat(e.log, full.log, events[..k], events);
    }
  }

  /** Whatever fails to be published, in every run of any commands: the engine matches as if nothing had failed. */
  lemma {:induction false} RunFollows(e: Engine, full: Engine, ts: seq<Try>)
    requires Follows(e, full)
    ensures Follows(TryRun(e, ts), Run(full, CommandsIn(ts)))
    decreases |ts|
  {
    hide Follows, TryStep, Step;
    if ts != [] {
      TryFollows(e, full, ts[0]);
      RunFollows(TryStep(e, ts[0]), Step(full, ts[0].command), ts[1..]);
      assert CommandsIn(ts)[1..] == CommandsIn(ts[1..]);
    }
  }

  lemma StartFollows()
    ensures Follows(START, START)
  {
  }

  /** With each order id processed once, whatever fails to be published: the published trades of every order add up to
      at most its quantity, and to at most the fill of a resting order; each is sound, and their ids are distinct. */
  lemma PublishedFillsBounded(ts: seq<Try>)
    requires Once(CommandsIn(ts), {})
    ensures var e := TryRun(START, ts);
            && (forall id :: id in e.placed ==> 0.0 <= Total(e.log, QtyFor(id)) <= e.placed[id].quantity)
            && (forall s, o :: s in e.books && (o in e.books[s].bids || o in e.books[s].asks) ==>
                  Total(e.log, QtyFor(o.id)) <= o.filled)
            && (forall v :: v in e.log ==> Sound(e.placed, v.trade))
            && DistinctTradeIds(e.log)
  {
    hide TryRun, Run, Total, Sublog, DistinctTradeIds;
    StartFollows();
    RunFollows(START, START, ts);
    var e, full := TryRun(START, ts), Run(START, CommandsIn(ts));
    FillsAddUp(CommandsIn(ts));
    forall v | v in e.log ensures Sound(e.placed, v.trade) { SublogMember(e.log, full.log, v); }
    SublogDistinct(e.log, full.log);
    forall id ensures 0.0 <= Total(e.log, QtyFor(id)) <= Total(full.log, QtyFor(id)) {
      SublogTotal(e.log, full.log, QtyFor(id));
    }
  }

  /** And what the published trades of an order use up fits in what was reserved for it. */
  lemma PublishedWithinReserved(ts: seq<Try>, id: Id)
    requires Once(CommandsIn(ts), {}) && id in TryRun(START, ts).placed
    requires var o := TryRun(START, ts).placed[id]; o.side.Sell? || o.kind.Limit?
    ensures var e := TryRun(START, ts); Total(e.log, UseFor(e.placed[id])) <= Required(e.placed[id])
  {
    hide TryRun, Run, Total, Sublog, Inv, Required;
    StartFollows();
    RunFollows(START, START, ts);
    var e, full := TryRun(START, ts), Run(START, CommandsIn(ts));
    ReachableInv(CommandsIn(ts));
    ReservationsSuffice(CommandsIn(ts), id);
    forall v | v in full.log ensures UseFor(full.placed[id])(v.trade) >= 0.0 { UseNonNegative(full, v, id); }
    SublogTotal(e.log, full.log, UseFor(e.placed[id]));
  }
}
