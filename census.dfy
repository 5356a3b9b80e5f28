/**
 * The two queries of `Census`: the top three ages of one region, and of
 * several regions combined. A region's source is its stream of ages, or
 * `None` when opening, reading or closing it failed.
 */
module Census {
  import opened Wrappers
  import opened Tables
  import opened Merge
  import opened Ranking

  /** What one region's task yields: its age table, or nothing when its source failed. */
  function RegionOutcome(source: Option<seq<int>>): Option<map<int, int>>
  {
    match source
    case None => None
    case Some(ages) => Some(Tally(ages))
  }

  function Outcomes(sources: seq<Option<seq<int>>>): seq<Option<map<int, int>>>
  {
    seq(|sources|, i requires 0 <= i < |sources| => RegionOutcome(sources[i]))
  }

  /** The combined age table of the regions whose source succeeded. */
  function CombinedTally(sources: seq<Option<seq<int>>>): map<int, int>
  {
    SumTables(Successes(Outcomes(sources)))
  }

  /**
   * The sources that succeeded, in order: the filter `Successes` applies to
   * task outcomes, applied to the sources instead (`SucceededOutcomes` shows
   * the two keep the same tables).
   */
  function Succeeded(sources: seq<Option<seq<int>>>): seq<Option<seq<int>>>
  {
    if sources == [] then []
    else
      var rest := Succeeded(sources[..|sources| - 1]);
      if sources[|sources| - 1].Some? then rest + [sources[|sources| - 1]] else rest
  }

  /** All the ages of the regions that succeeded, one region after another. */
  function SucceededAges(sources: seq<Option<seq<int>>>): seq<int>
  {
    if sources == [] then []
    else
      var rest := SucceededAges(sources[..|sources| - 1]);
      match sources[|sources| - 1]
      case None => rest
      case Some(ages) => rest + ages
  }

  /**
   * One region's task: a fresh table filled by `process`; a failed source
   * makes the whole task fail, with no partial table.
   */
  method RegionTask(source: Option<seq<int>>) returns (outcome: Option<map<int, int>>)
    ensures outcome.Some? <==> source.Some?
    ensures outcome.Some? ==> outcome.value == Tally(source.value)
  {
    match source
    case None =>
      outcome := None;
    case Some(ages) =>
      var table := new AgeCounts();
      Process(ages, table);
      AddEmptyTable(Tally(ages));
      outcome := Some(table.counts);
  }

  /**
   * `top3Ages(String)`: aggregate the region from an empty table and rank the
   * result; a failed source fails the query.
   */
  method Top3AgesOfRegion(source: Option<seq<int>>) returns (result: Option<seq<Row>>)
    ensures result.Some? <==> source.Some?
    ensures result.Some? ==> IsTop3Ranking(Tally(source.value), result.value)
    ensures result.Some? ==> (result.value == [] <==> forall age | age in source.value :: age < 0)
  {
    var outcome := RegionTask(source);
    match outcome
    case None =>
      result := None;
    case Some(counts) =>
      var rows := ComputeTop3(counts);
      result := Some(rows);
      if rows != [] {
        assert exists age :: age in counts;
      } else {
        forall age | age in source.value
          ensures age < 0
        {
          TallyAt(source.value, age);
        }
      }
  }

  /**
   * `top3Ages(List<String>)`: one task per region, the tables of the tasks
   * that succeeded merged into one, and that table ranked.
   */
  method Top3AgesOfRegions(sources: seq<Option<seq<int>>>) returns (rows: seq<Row>)
    ensures IsTop3Ranking(CombinedTally(sources), rows)
  {
    var outcomes: seq<Option<map<int, int>>> := [];
    for i := 0 to |sources|
      invariant |outcomes| == i
      invariant forall j | 0 <= j < i :: outcomes[j] == RegionOutcome(sources[j])
    {
      var outcome := RegionTask(sources[i]);
      outcomes := outcomes + [outcome];
    }
    assert outcomes == Outcomes(sources);
    var combined := Combine(outcomes);
    forall t | t in Successes(outcomes)
      ensures IsFrequencyTable(t)
    {
      SuccessesAreTallies(sources, t);
    }
    SumTablesIsFrequencyTable(Successes(outcomes));
    rows := ComputeTop3(combined);
  }

  lemma {:induction false} SuccessesAreTallies(sources: seq<Option<seq<int>>>, t: map<int, int>)
    requires t in Successes(Outcomes(sources))
    ensures exists ages :: t == Tally(ages)
  {
    var n := |sources|;
    var init := sources[..n - 1];
    assert Outcomes(sources)[..n - 1] == Outcomes(init);
    if t in Successes(Outcomes(init)) {
      SuccessesAreTallies(init, t);
    }
  }

  /** The combined table is the table of all succeeding regions' ages taken as one stream. */
  lemma {:induction false} CombinedTallyIsTallyOfAllAges(sources: seq<Option<seq<int>>>)
    ensures CombinedTally(sources) == Tally(SucceededAges(sources))
  {
    if sources != [] {
      var n := |sources|;
      var init := sources[..n - 1];
      assert Outcomes(sources)[..n - 1] == Outcomes(init);
      CombinedTallyIsTallyOfAllAges(init);
      match sources[n - 1]
      case None =>
      case Some(ages) =>
        TallyAppend(SucceededAges(init), ages);
    }
  }

  /** Failed regions contribute nothing: combining only the succeeding regions gives the same table. */
  lemma {:induction false} FailedRegionsContributeNothing(sources: seq<Option<seq<int>>>)
    ensures CombinedTally(Succeeded(sources)) == CombinedTally(sources)
  {
    SucceededSameAges(sources);
    CombinedTallyIsTallyOfAllAges(sources);
    CombinedTallyIsTallyOfAllAges(Succeeded(sources));
  }

  lemma {:induction false} SucceededSameAges(sources: seq<Option<seq<int>>>)
    ensures SucceededAges(Succeeded(sources)) == SucceededAges(sources)
  {
    if sources != [] {
      var n := |sources|;
      var init := sources[..n - 1];
      SucceededSameAges(init);
      if sources[n - 1].Some? {
        var kept := Succeeded(init) + [sources[n - 1]];
        assert kept[..|kept| - 1] == Succeeded(init);
      }
    }
  }

  /**
   * A query over regions some of which fail returns exactly the ranking of a
   * query over the succeeding regions alone.
   */
  lemma FailedRegionsDoNotChangeRanking(sources: seq<Option<seq<int>>>, rows: seq<Row>, others: seq<Row>)
    requires IsTop3Ranking(CombinedTally(sources), rows)
    requires IsTop3Ranking(CombinedTally(Succeeded(sources)), others)
    ensures rows == others
  {
    FailedRegionsContributeNothing(sources);
    RankingIsUnique(CombinedTally(sources), rows, others);
  }

  /** The combined count of an age is the total number of its observations across succeeding regions. */
  lemma CombinedCount(sources: seq<Option<seq<int>>>, age: int)
    ensures Get(CombinedTally(sources), age) == if age >= 0 then multiset(SucceededAges(sources))[age] else 0
  {
    CombinedTallyIsTallyOfAllAges(sources);
    TallyAt(SucceededAges(sources), age);
  }

  /** Filtering failed sources first leaves the same successful tables as filtering failed outcomes. */
  lemma {:induction false} SucceededOutcomes(sources: seq<Option<seq<int>>>)
    ensures Successes(Outcomes(Succeeded(sources))) == Successes(Outcomes(sources))
  {
    if sources != [] {
      var n := |sources|;
      var init := sources[..n - 1];
      SucceededOutcomes(init);
      assert Outcomes(sources)[..n - 1] == Outcomes(init);
      if sources[n - 1].Some? {
        var kept := Succeeded(init) + [sources[n - 1]];
        assert kept[..|kept| - 1] == Succeeded(init);
        assert Outcomes(kept)[..|kept| - 1] == Outcomes(Succeeded(init));
      }
    }
  }

  /**
   * Region A saw age 7 five times, region B failed, region C saw age 7 three
   * times and age 9 five times: the ranking is 1:7=8, 2:9=5.
   */
  lemma TwoRegionRanking()
    ensures IsTop3Ranking(SumTables(Successes([Some(map[7 := 5]), None, Some(map[7 := 3, 9 := 5])])),
                          [Row(1, 7, 8), Row(2, 9, 5)])
  {
    TwoRegionTotals();
    var m := map[7 := 8, 9 := 5];
    var sorted := [Entry(7, 8), Entry(9, 5)];
    assert Lists(sorted, m) by {
      assert m.Keys == {7, 9};
    }
    assert RankAt(sorted, 0) == 1;
    assert RankAt(sorted, 1) == 2;
    EmittedRowsAreRanking(m, sorted, [Row(1, 7, 8), Row(2, 9, 5)]);
  }
}
