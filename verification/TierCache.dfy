/** The fee tiers by trading volume: a cache searched by bisection, against the linear query of the store. */
module TierCaches {
  import opened Orders

  /** A tier whose minimum volume is None has an unreadable volume. */
  datatype Tier = Tier(id: Id, makerBps: int, takerBps: int, minVolume: Option<Decimal>)

  // ---------- the query ----------

  predicate Qualifies(tier: Tier, volume: Decimal) {
    tier.minVolume.Some? && tier.minVolume.value <= volume
  }

  /** What the store may answer: a qualifying row of the greatest minimum volume, or nothing when no row qualifies. */
  ghost predicate QueryAnswer(rows: seq<Tier>, volume: Decimal, answer: Option<Tier>) {
    match answer
    case None => forall i :: 0 <= i < |rows| ==> !Qualifies(rows[i], volume)
    case Some(tier) =>
      && tier in rows && Qualifies(tier, volume)
      && forall i :: 0 <= i < |rows| && Qualifies(rows[i], volume) ==> rows[i].minVolume.value <= tier.minVolume.value
  }

  // ---------- the cache ----------

  /** What the cache answers: the tier of the greatest cached threshold not above the volume. */
  ghost predicate CacheAnswer(tiers: map<Decimal, Tier>, volume: Decimal, answer: Option<Tier>) {
    match answer
    case None => forall v :: v in tiers ==> v > volume
    case Some(tier) =>
      exists v :: v in tiers && v <= volume && tiers[v] == tier && forall u :: u in tiers && u <= volume ==> u <= v
  }

  function Put(tiers: map<Decimal, Tier>, volume: Option<Decimal>, tier: Tier): map<Decimal, Tier> {
    if volume.None? then tiers else tiers[volume.value := tier.(minVolume := volume)]
  }

  /** The readable rows by volume, a later row replacing an earlier one of the same volume. */
  function Loaded(rows: seq<Tier>): map<Decimal, Tier> {
    if rows == [] then map[] else Put(Loaded(rows[..|rows| - 1]), rows[|rows| - 1].minVolume, rows[|rows| - 1])
  }

  lemma {:induction false} LoadedIsLastRow(rows: seq<Tier>, v: Decimal)
    ensures v in Loaded(rows) <==> exists i :: 0 <= i < |rows| && rows[i].minVolume == Some(v)
    ensures v in Loaded(rows) ==>
      exists i :: 0 <= i < |rows| && rows[i] == Loaded(rows)[v] && rows[i].minVolume == Some(v)
                  && forall j :: i < j < |rows| ==> rows[j].minVolume != Some(v)
  {
    if rows != [] {
      var n := |rows| - 1;
      LoadedIsLastRow(rows[..n], v);
      if rows[n].minVolume == Some(v) {
        assert rows[n] == Loaded(rows)[v];
      } else if v in Loaded(rows) {
        var i :| 0 <= i < n && rows[..n][i] == Loaded(rows[..n])[v] && rows[..n][i].minVolume == Some(v)
                 && forall j :: i < j < n ==> rows[..n][j].minVolume != Some(v);
        assert forall j :: i < j < n ==> rows[..n][j] == rows[j];
        assert rows[i] == Loaded(rows)[v];
      } else {
        assert forall i :: 0 <= i < n ==> rows[..n][i] == rows[i];
      }
    }
  }

  /** After a load the cache gives an answer of the query. */
  lemma CacheAnswersQuery(rows: seq<Tier>, volume: Decimal, answer: Option<Tier>)
    requires CacheAnswer(Loaded(rows), volume, answer)
    ensures QueryAnswer(rows, volume, answer)
  {
    var tiers := Loaded(rows);
    forall i | 0 <= i < |rows| && rows[i].minVolume.Some? ensures rows[i].minVolume.value in tiers {
      LoadedIsLastRow(rows, rows[i].minVolume.value);
    }
    if answer.Some? {
      var v :| v in tiers && v <= volume && tiers[v] == answer.value
               && forall u :: u in tiers && u <= volume ==> u <= v;
      LoadedIsLastRow(rows, v);
    }
  }

  /** All answers of the query have the same minimum volume, and are the same where that volume has one row. */
  lemma QueryAnswersAgree(rows: seq<Tier>, volume: Decimal, a: Option<Tier>, b: Option<Tier>)
    requires QueryAnswer(rows, volume, a) && QueryAnswer(rows, volume, b)
    ensures a.Some? <==> b.Some?
    ensures a.Some? ==> a.value.minVolume == b.value.minVolume
    ensures a.Some? && (forall i, j :: 0 <= i < j < |rows| ==> rows[i].minVolume != rows[j].minVolume) ==> a == b
  {
    if a.Some? {
      var i :| 0 <= i < |rows| && rows[i] == a.value;
      assert b.Some?;
      var j :| 0 <= j < |rows| && rows[j] == b.value;
    }
  }

  // ---------- sorted thresholds ----------

  ghost predicate Descending(s: seq<Decimal>) {
    forall i, j :: 0 <= i < j < |s| ==> s[i] >= s[j]
  }

  function InsertThreshold(s: seq<Decimal>, v: Decimal): (r: seq<Decimal>)
    requires Descending(s)
    ensures r != [] && r[0] == if s == [] || v > s[0] then v else s[0]
    ensures Descending(r) && forall u :: u in r <==> u in s || u == v
  {
    if s == [] || v > s[0] then [v] + s
    else
      var later := InsertThreshold(s[1..], v);
      assert forall u :: u in s <==> u == s[0] || u in s[1..];
      [s[0]] + later
  }

  function SortThresholds(s: seq<Decimal>): (r: seq<Decimal>)
    ensures Descending(r) && forall u :: u in r <==> u in s
  {
    if s == [] then []
    else
      assert forall u :: u in s <==> u == s[0] || u in s[1..];
      InsertThreshold(SortThresholds(s[1..]), s[0])
  }

  lemma {:induction false} InsertPermutes(s: seq<Decimal>, v: Decimal)
    requires Descending(s)
    ensures multiset(InsertThreshold(s, v)) == multiset([v] + s)
  {
    if s != [] && v <= s[0] {
      InsertPermutes(s[1..], v);
      assert s == [s[0]] + s[1..];
    }
  }

  /** Sorting keeps every threshold, equal ones too. */
  lemma {:induction false} SortPermutes(s: seq<Decimal>)
    ensures multiset(SortThresholds(s)) == multiset(s)
  {
    if s != [] {
      SortPermutes(s[1..]);
      InsertPermutes(SortThresholds(s[1..]), s[0]);
      assert s == [s[0]] + s[1..];
    }
  }

  /** The smallest index from which on the thresholds are not above the volume, by bisection. */
  method Search(thresholds: seq<Decimal>, volume: Decimal) returns (index: nat)
    requires Descending(thresholds)
    ensures index <= |thresholds|
    ensures forall i :: 0 <= i < |thresholds| ==> (thresholds[i] <= volume <==> index <= i)
  {
    index := 0;
    var end := |thresholds|;
    while index < end
      invariant 0 <= index <= end <= |thresholds|
      invariant forall i :: 0 <= i < index ==> thresholds[i] > volume
      invariant forall i :: end <= i < |thresholds| ==> thresholds[i] <= volume
    {
      var middle := (index + end) / 2;
      if thresholds[middle] <= volume {
        end := middle;
      } else {
        index := middle + 1;
      }
    }
  }

  /** The first threshold that is not above the volume names the cache's answer. */
  lemma FirstIsAnswer(tiers: map<Decimal, Tier>, thresholds: seq<Decimal>, volume: Decimal, index: nat)
    requires Descending(thresholds) && index < |thresholds| && (forall v :: v in tiers <==> v in thresholds)
    requires forall i :: 0 <= i < |thresholds| ==> (thresholds[i] <= volume <==> index <= i)
    ensures thresholds[index] in tiers && CacheAnswer(tiers, volume, Some(tiers[thresholds[index]]))
  {
    var v := thresholds[index];
    forall u | u in tiers && u <= volume ensures u <= v {
      var i :| 0 <= i < |thresholds| && thresholds[i] == u;
    }
  }

  class TierCache {
    var tiers: map<Decimal, Tier>
    var thresholds: seq<Decimal>

    ghost predicate Valid()
      reads this
    {
      && Descending(thresholds)
      && (forall v :: v in tiers <==> v in thresholds)
      && (forall v :: v in tiers ==> tiers[v].minVolume == Some(v))
    }

    constructor ()
      ensures Valid() && tiers == map[]
    {
      tiers, thresholds := map[], [];
    }

    method Load(rows: seq<Tier>)
      modifies this
      ensures Valid() && tiers == Loaded(rows)
    {
      tiers, thresholds := map[], [];
      for n := 0 to |rows|
        invariant tiers == Loaded(rows[..n])
        invariant forall v :: v in tiers <==> v in thresholds
        invariant forall v :: v in tiers ==> tiers[v].minVolume == Some(v)
      {
        assert rows[..n + 1][..n] == rows[..n];
        var volume := rows[n].minVolume;
        if volume.Some? {
          tiers := tiers[volume.value := rows[n].(minVolume := volume)];
          thresholds := thresholds + [volume.value];
        }
      }
      assert rows[..|rows|] == rows;
      Resort();
    }

    /** Put the thresholds back in order. */
    method Resort()
      modifies this`thresholds
      ensures Descending(thresholds) && multiset(thresholds) == multiset(old(thresholds))
      ensures forall v :: v in thresholds <==> v in old(thresholds)
    {
      SortPermutes(thresholds);
      thresholds := SortThresholds(thresholds);
    }

    method SetTierByVolume(volume: Option<Decimal>, tier: Tier)
      requires Valid()
      modifies this
      ensures Valid() && tiers == Put(old(tiers), volume, tier)
    {
      if volume.None? {
        return;
      }
      tiers := tiers[volume.value := tier.(minVolume := volume)];
      var known := false;
      for i := 0 to |thresholds|
        invariant known <==> volume.value in thresholds[..i]
      {
        if thresholds[i] == volume.value {
          known := true;
        }
      }
      assert thresholds[..|thresholds|] == thresholds;
      if !known {
        thresholds := thresholds + [volume.value];
        Resort();
      }
    }

    method GetTierByVolume(volume: Option<Decimal>) returns (answer: Option<Tier>)
      requires Valid()
      ensures volume.None? ==> answer.None?
      ensures volume.Some? ==> CacheAnswer(tiers, volume.value, answer)
    {
      if volume.None? || |thresholds| == 0 {
        return None;
      }
      var index := Search(thresholds, volume.value);
      if index >= |thresholds| {
        return None;
      }
      FirstIsAnswer(tiers, thresholds, volume.value, index);
      answer := Some(tiers[thresholds[index]]);
    }
  }
}
