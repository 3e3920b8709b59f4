/** The fixed-window limiter, with its periodic purge of expired entries. Times are whole time units. */
module Limiters {
  import opened Orders

  datatype Entry = Entry(count: int, reset: int)

  datatype Call = Call(key: Id, now: int)

  /** How many calls a window allows, and how long it lasts; neither need be positive. */
  datatype Rule = Rule(limit: int, window: int) {
    /** The first call of a window always passes. */
    function Quota(): int { if limit < 1 then 1 else limit }

    /** The most calls of a key that get through in a closed interval of the window's length. */
    function Most(): int { if window < 0 then 0 else if window == 0 then Quota() else 2 * Quota() - 1 }
  }

  // ---------- a limiter that never purges ----------

  function Decide(entries: map<Id, Entry>, rule: Rule, c: Call): (map<Id, Entry>, bool) {
    if c.key !in entries || c.now > entries[c.key].reset then
      (entries[c.key := Entry(1, c.now + rule.window)], true)
    else if entries[c.key].count >= rule.limit then (entries, false)
    else (entries[c.key := entries[c.key].(count := entries[c.key].count + 1)], true)
  }

  function Answers(entries: map<Id, Entry>, rule: Rule, cs: seq<Call>): (answers: seq<bool>)
    ensures |answers| == |cs|
    decreases |cs|
  {
    if cs == [] then []
    else
      var (entries', ok) := Decide(entries, rule, cs[0]);
      [ok] + Answers(entries', rule, cs[1..])
  }

  // ---------- the limiter that does ----------

  function Purged(entries: map<Id, Entry>, now: int): map<Id, Entry> {
    map k | k in entries && now <= entries[k].reset :: entries[k]
  }

  datatype State = State(entries: map<Id, Entry>, lastCleanup: int)

  function Cleaned(s: State, window: int, now: int): State {
    if now - s.lastCleanup >= window then State(Purged(s.entries, now), now) else s
  }

  function Allowed(s: State, rule: Rule, c: Call): (State, bool) {
    var s' := Cleaned(s, rule.window, c.now);
    var (entries', ok) := Decide(s'.entries, rule, c);
    (State(entries', s'.lastCleanup), ok)
  }

  function CleaningAnswers(s: State, rule: Rule, cs: seq<Call>): (answers: seq<bool>)
    ensures |answers| == |cs|
    decreases |cs|
  {
    if cs == [] then []
    else
      var (s', ok) := Allowed(s, rule, cs[0]);
      [ok] + CleaningAnswers(s', rule, cs[1..])
  }

  /** The clock does not run backwards. */
  ghost predicate Ordered(cs: seq<Call>, from: int) {
    && (forall i :: 0 <= i < |cs| ==> from <= cs[i].now)
    && (forall i, j :: 0 <= i < j < |cs| ==> cs[i].now <= cs[j].now)
  }

  /** The purged entries are some of all entries, and the missing ones have expired. */
  ghost predicate Thinned(few: map<Id, Entry>, all: map<Id, Entry>, now: int) {
    && (forall k :: k in few ==> k in all && few[k] == all[k])
    && (forall k :: k in all && k !in few ==> all[k].reset < now)
  }

  /** From any state, purging never changes an answer. */
  lemma {:induction false} PurgingNeverShows(s: State, all: map<Id, Entry>, rule: Rule, cs: seq<Call>, now: int)
    requires Thinned(s.entries, all, now) && Ordered(cs, now)
    ensures CleaningAnswers(s, rule, cs) == Answers(all, rule, cs)
    decreases |cs|
  {
    if cs != [] {
      var c := cs[0];
      assert Thinned(Cleaned(s, rule.window, c.now).entries, all, c.now);
      var s', all' := Allowed(s, rule, c).0, Decide(all, rule, c).0;
      assert Thinned(s'.entries, all', c.now);
      PurgingNeverShows(s', all', rule, cs[1..], c.now);
    }
  }

  /** The purge comes with the first call a window's length after the last one; it keeps exactly the entries that have
      not expired, and otherwise nothing changes before the call is decided. */
  lemma CleanedIs(s: State, window: int, now: int, key: Id)
    ensures var s' := Cleaned(s, window, now); var due := now >= s.lastCleanup + window;
            && s'.lastCleanup == (if due then now else s.lastCleanup)
            && (key in s'.entries <==> key in s.entries && (due ==> now <= s.entries[key].reset))
            && (key in s'.entries ==> s'.entries[key] == s.entries[key])
  {
  }

  /** A call passes exactly when its key has no running window, or one with calls to spare; it opens a window of one
      call, or uses one up; a refused call and the other keys leave no trace. */
  lemma DecideIs(entries: map<Id, Entry>, rule: Rule, c: Call, other: Id)
    ensures var (entries', ok) := Decide(entries, rule, c);
            var running := c.key in entries && c.now <= entries[c.key].reset;
            && (ok <==> !running || entries[c.key].count < rule.limit)
            && (!ok ==> entries' == entries)
            && (ok ==> c.key in entries'
                       && entries'[c.key] == if running then Entry(entries[c.key].count + 1, entries[c.key].reset)
                                             else Entry(1, c.now + rule.window))
            && (other != c.key ==> (other in entries' <==> other in entries))
            && (other != c.key && other in entries ==> entries'[other] == entries[other])
  {
  }

  // ---------- how many calls get through ----------

  /** The calls of a key answered yes, at times in [from, to]. */
  function Through(cs: seq<Call>, answers: seq<bool>, key: Id, from: int, to: int): nat
    requires |answers| == |cs|
    decreases |cs|
  {
    if cs == [] then 0
    else
      var later := Through(cs[1..], answers[1..], key, from, to);
      if answers[0] && cs[0].key == key && from <= cs[0].now <= to then 1 + later else later
  }

  /** Through in the interval of the window's length from `a` on, for the limiter that never purges. */
  function Passing(entries: map<Id, Entry>, rule: Rule, cs: seq<Call>, key: Id, a: int): nat {
    Through(cs, Answers(entries, rule, cs), key, a, a + rule.window)
  }

  lemma PassingStep(entries: map<Id, Entry>, rule: Rule, cs: seq<Call>, key: Id, a: int)
    requires cs != []
    ensures var (entries', ok) := Decide(entries, rule, cs[0]);
            Passing(entries, rule, cs, key, a) ==
            Passing(entries', rule, cs[1..], key, a)
            + if ok && cs[0].key == key && a <= cs[0].now <= a + rule.window then 1 else 0
  {
    var (entries', ok) := Decide(entries, rule, cs[0]);
    assert Answers(entries, rule, cs)[1..] == Answers(entries', rule, cs[1..]);
  }

  /** How many of a key's calls may have got through in the interval, given its entry: the call that opened
      the entry counts only if it lies in the interval itself. */
  ghost predicate Within(entries: map<Id, Entry>, rule: Rule, key: Id, a: int, seen: int, now: int) {
    && (now < a || rule.window < 0 ==> seen == 0)
    && if key !in entries then seen == 0
       else
         var e := entries[key];
         var started := e.reset - rule.window;
         && 1 <= e.count <= rule.Quota() && started <= now
         && seen <= if started < a then (if rule.window <= 0 then 0 else e.count - 1)
                    else if started <= a + rule.window then (if rule.window <= 0 then 0 else rule.Quota() - 1) + e.count
                    else rule.Most()
  }

  lemma DecideWithin(entries: map<Id, Entry>, rule: Rule, c: Call, key: Id, a: int, seen: int, now: int)
    requires Within(entries, rule, key, a, seen, now) && now <= c.now && 0 <= seen
    ensures var (entries', ok) := Decide(entries, rule, c);
            Within(entries', rule, key, a,
                   if ok && c.key == key && a <= c.now <= a + rule.window then seen + 1 else seen, c.now)
  {
  }

  lemma WithinBound(entries: map<Id, Entry>, rule: Rule, key: Id, a: int, seen: int, now: int)
    requires Within(entries, rule, key, a, seen, now)
    ensures seen <= rule.Most()
  {
  }

  lemma {:induction false} PassingFrom(
    entries: map<Id, Entry>, rule: Rule, cs: seq<Call>, key: Id, a: int, seen: int, now: int)
    requires Within(entries, rule, key, a, seen, now) && Ordered(cs, now) && 0 <= seen
    ensures seen + Passing(entries, rule, cs, key, a) <= rule.Most()
    decreases |cs|
  {
    hide Within, Passing;
    if cs == [] {
      WithinBound(entries, rule, key, a, seen, now);
      NonePass(entries, rule, key, a);
    } else {
      var c := cs[0];
      var (entries', ok) := Decide(entries, rule, c);
      DecideWithin(entries, rule, c, key, a, seen, now);
      PassingStep(entries, rule, cs, key, a);
      var seen' := if ok && c.key == key && a <= c.now <= a + rule.window then seen + 1 else seen;
      PassingFrom(entries', rule, cs[1..], key, a, seen', c.now);
    }
  }

  lemma NonePass(entries: map<Id, Entry>, rule: Rule, key: Id, a: int)
    ensures Passing(entries, rule, [], key, a) == 0
  {
  }

  lemma SameWithPurge(rule: Rule, cs: seq<Call>, key: Id, a: int, now: int, clock: int)
    requires Ordered(cs, now)
    ensures Through(cs, CleaningAnswers(State(map[], clock), rule, cs), key, a, a + rule.window) ==
            Passing(map[], rule, cs, key, a)
  {
    PurgingNeverShows(State(map[], clock), map[], rule, cs, now);
  }

  /** Of the purging limiter: in any closed interval of the window's length at most 2 * max(limit, 1) - 1 calls of a
      key get through, at most max(limit, 1) if the window is an instant, and none if it is negative. */
  lemma BurstBound(rule: Rule, cs: seq<Call>, key: Id, a: int, now: int, clock: int)
    requires Ordered(cs, now)
    ensures Through(cs, CleaningAnswers(State(map[], clock), rule, cs), key, a, a + rule.window) <= rule.Most()
  {
    SameWithPurge(rule, cs, key, a, now, clock);
    PassingFrom(map[], rule, cs, key, a, 0, if now < a then now else a);
  }

  // ---------- the bound is reached ----------

  function Repeat(c: Call, n: nat): seq<Call> {
    if n == 0 then [] else [c] + Repeat(c, n - 1)
  }

  function Fuller(entries: map<Id, Entry>, key: Id, n: nat): map<Id, Entry>
    requires key in entries
  {
    entries[key := entries[key].(count := entries[key].count + n)]
  }

  /** Calls that fit under the limit all get through, and the run goes on with a fuller entry. */
  lemma {:induction false} RepeatPasses(
    entries: map<Id, Entry>, rule: Rule, c: Call, n: nat, more: seq<Call>, a: int)
    requires c.key in entries && c.now <= entries[c.key].reset && (n > 0 ==> entries[c.key].count + n <= rule.limit)
    requires a <= c.now <= a + rule.window
    ensures Passing(entries, rule, Repeat(c, n) + more, c.key, a) ==
            n + Passing(Fuller(entries, c.key, n), rule, more, c.key, a)
    decreases n
  {
    hide Passing;
    if n == 0 {
      assert Repeat(c, n) + more == more;
      assert Fuller(entries, c.key, 0) == entries;
    } else {
      assert (Repeat(c, n) + more)[1..] == Repeat(c, n - 1) + more;
      var entries' := Decide(entries, rule, c).0;
      PassingStep(entries, rule, Repeat(c, n) + more, c.key, a);
      RepeatPasses(entries', rule, c, n - 1, more, a);
      assert Fuller(entries', c.key, n - 1) == Fuller(entries, c.key, n);
    }
  }

  /** A full quota of calls at one time that opens a new window. */
  lemma FullQuotaPasses(entries: map<Id, Entry>, rule: Rule, c: Call, a: int)
    requires rule.window >= 0 && a <= c.now <= a + rule.window && (c.key in entries ==> c.now > entries[c.key].reset)
    ensures Passing(entries, rule, [c] + Repeat(c, rule.Quota() - 1), c.key, a) == rule.Quota()
  {
    hide Passing, Repeat;
    var cs := [c] + Repeat(c, rule.Quota() - 1);
    assert cs[1..] == Repeat(c, rule.Quota() - 1) + [];
    PassingStep(entries, rule, cs, c.key, a);
    var open := Decide(entries, rule, c).0;
    RepeatPasses(open, rule, c, rule.Quota() - 1, [], a);
    NonePass(Fuller(open, c.key, rule.Quota() - 1), rule, c.key, a);
  }

  /** A call that opens a window, the rest of the quota at its end, and a full quota right after it; for a window of
      an instant just a full quota. */
  function Burst(rule: Rule, key: Id): seq<Call> {
    var late, next := Call(key, rule.window), Call(key, rule.window + 1);
    if rule.window < 0 then []
    else if rule.window == 0 then [late] + Repeat(late, rule.Quota() - 1)
    else [Call(key, 0)] + (Repeat(late, rule.Quota() - 1) + ([next] + Repeat(next, rule.Quota() - 1)))
  }

  lemma {:induction false} RepeatIsConstant(c: Call, n: nat)
    ensures |Repeat(c, n)| == n && forall i :: 0 <= i < n ==> Repeat(c, n)[i] == c
  {
    if n > 0 {
      RepeatIsConstant(c, n - 1);
    }
  }

  lemma BurstIsOrdered(rule: Rule, key: Id)
    ensures Ordered(Burst(rule, key), 0)
  {
    RepeatIsConstant(Call(key, rule.window), rule.Quota() - 1);
    RepeatIsConstant(Call(key, rule.window + 1), rule.Quota() - 1);
  }

  lemma BurstPasses(rule: Rule, key: Id)
    requires rule.window >= 1
    ensures Passing(map[], rule, Burst(rule, key), key, rule.window) == 2 * rule.Quota() - 1
  {
    hide Passing, Repeat;
    var late, next := Call(key, rule.window), Call(key, rule.window + 1);
    var tail := [next] + Repeat(next, rule.Quota() - 1);
    var cs := Burst(rule, key);
    var first := map[key := Entry(1, rule.window)];
    assert cs[1..] == Repeat(late, rule.Quota() - 1) + tail;
    PassingStep(map[], rule, cs, key, rule.window);
    RepeatPasses(first, rule, late, rule.Quota() - 1, tail, rule.window);
    FullQuotaPasses(Fuller(first, key, rule.Quota() - 1), rule, next, rule.window);
  }

  /** For every limit and every window, positive or not, the purging limiter does let that many calls through. */
  lemma BurstIsReached(rule: Rule, key: Id, clock: int)
    ensures Ordered(Burst(rule, key), 0)
    ensures var cs := Burst(rule, key);
            var answers := CleaningAnswers(State(map[], clock), rule, cs);
            Through(cs, answers, key, rule.window, 2 * rule.window) == rule.Most()
  {
    hide Passing, Repeat, Ordered, Through, CleaningAnswers;
    BurstIsOrdered(rule, key);
    SameWithPurge(rule, Burst(rule, key), key, rule.window, 0, clock);
    if rule.window < 0 {
      NonePass(map[], rule, key, rule.window);
    } else if rule.window == 0 {
      FullQuotaPasses(map[], rule, Call(key, 0), 0);
    } else {
      BurstPasses(rule, key);
    }
  }

  // ---------- the object ----------

  class MemoryLimiter {
    const limit: int
    const window: int
    const cleanupEvery: int
    var entries: map<Id, Entry>
    var lastCleanup: int

    ghost predicate Valid() { cleanupEvery == window }

    ghost function View(): State
      reads this
    {
      State(entries, lastCleanup)
    }

    constructor (limit: int, window: int, clock: int)
      ensures Valid() && this.limit == limit && this.window == window && View() == State(map[], clock)
    {
      this.limit, this.window, cleanupEvery := limit, window, window;
      entries, lastCleanup := map[], clock;
    }

    method Purge(now: int)
      modifies this`entries
      ensures entries == Purged(old(entries), now)
    {
      var unread := entries.Keys;
      while exists k :: k in unread
        invariant unread <= old(entries).Keys
        invariant forall k :: k in entries <==> k in old(entries) && (k in unread || now <= old(entries)[k].reset)
        invariant forall k :: k in entries ==> entries[k] == old(entries)[k]
        decreases unread
      {
        var k :| k in unread;
        unread := unread - {k};
        if now > entries[k].reset {
          entries := entries - {k};
        }
      }
    }

    /** `clock` is the wall clock at the end of a refused call. */
    method Allow(key: Id, now: int, clock: int) returns (ok: bool, retryAfter: int)
      requires Valid()
      modifies this
      ensures Valid() && (View(), ok) == Allowed(old(View()), Rule(limit, window), Call(key, now))
      ensures ok ==> retryAfter == 0
      ensures !ok ==> key in entries
      ensures !ok ==> retryAfter == if entries[key].reset < clock then 0 else entries[key].reset - clock
    {
      if now - lastCleanup >= cleanupEvery {
        Purge(now);
        lastCleanup := now;
      }
      if key !in entries || now > entries[key].reset {
        entries := entries[key := Entry(1, now + window)];
        return true, 0;
      }
      if entries[key].count >= limit {
        retryAfter := entries[key].reset - clock;
        if retryAfter < 0 {
          retryAfter := 0;
        }
        return false, retryAfter;
      }
      entries := entries[key := entries[key].(count := entries[key].count + 1)];
      return true, 0;
    }
  }
}
