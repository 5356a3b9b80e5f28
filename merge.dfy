/**
 * The collection loop of the multi-region query: every region's task either
 * produced an age table or failed, and the tables of the tasks that
 * succeeded are folded, in collection order, into one combined table.
 */
module Merge {
  import opened Wrappers
  import opened Tables

  /** The tables of the tasks that succeeded, in collection order; a failed task is dropped. */
  function Successes(outcomes: seq<Option<map<int, int>>>): seq<map<int, int>>
  {
    if outcomes == [] then []
    else
      var rest := Successes(outcomes[..|outcomes| - 1]);
      match outcomes[|outcomes| - 1]
      case None => rest
      case Some(t) => rest + [t]
  }

  /** Left fold of `AddTables` over `tables`, starting from the empty table. */
  function SumTables(tables: seq<map<int, int>>): map<int, int>
  {
    if tables == [] then map[]
    else AddTables(SumTables(tables[..|tables| - 1]), tables[|tables| - 1])
  }

  /** The count of `age` summed over `tables`, table by table (the reference definition). */
  function CountAcross(tables: seq<map<int, int>>, age: int): int
  {
    if tables == [] then 0 else Get(tables[0], age) + CountAcross(tables[1..], age)
  }

  lemma {:induction false} CountAcrossSnoc(tables: seq<map<int, int>>, t: map<int, int>, age: int)
    ensures CountAcross(tables + [t], age) == CountAcross(tables, age) + Get(t, age)
  {
    if tables != [] {
      assert (tables + [t])[1..] == tables[1..] + [t];
      CountAcrossSnoc(tables[1..], t, age);
    }
  }

  /**
   * The combined count of an age is the sum of its counts over all tables,
   * and an age is in the combined table exactly when some table has it.
   */
  lemma {:induction false} SumTablesAt(tables: seq<map<int, int>>, age: int)
    ensures Get(SumTables(tables), age) == CountAcross(tables, age)
    ensures age in SumTables(tables) <==> exists t | t in tables :: age in t
  {
    if tables != [] {
      var init, last := tables[..|tables| - 1], tables[|tables| - 1];
      assert tables == init + [last];
      SumTablesAt(init, age);
      CountAcrossSnoc(init, last, age);
      AddTablesAt(SumTables(init), last, age);
      if age in SumTables(tables) && age !in last {
        var t :| t in init && age in t;
        assert t in tables;
      }
    }
  }

  /** Merging well-formed tables gives a well-formed table. */
  lemma {:induction false} SumTablesIsFrequencyTable(tables: seq<map<int, int>>)
    requires forall t | t in tables :: IsFrequencyTable(t)
    ensures IsFrequencyTable(SumTables(tables))
  {
    if tables != [] {
      var init := tables[..|tables| - 1];
      assert forall t | t in init :: t in tables;
      SumTablesIsFrequencyTable(init);
      AddTablesIsFrequencyTable(SumTables(init), tables[|tables| - 1]);
    }
  }

  /** Taking one table out of any position and merging it last gives the same result. */
  lemma {:induction false} SumTablesExtract(tables: seq<map<int, int>>, j: nat)
    requires j < |tables|
    ensures SumTables(tables) == AddTables(SumTables(tables[..j] + tables[j + 1..]), tables[j])
  {
    var n := |tables|;
    if j < n - 1 {
      var init, last := tables[..n - 1], tables[n - 1];
      assert init[..j] + init[j + 1..] + [last] == tables[..j] + tables[j + 1..];
      assert init[j] == tables[j];
      SumTablesExtract(init, j);
      var rest := SumTables(init[..j] + init[j + 1..]);
      AddTablesAssociate(rest, tables[j], last);
      AddTablesCommute(tables[j], last);
      AddTablesAssociate(rest, last, tables[j]);
    } else {
      assert tables[..j] + tables[j + 1..] == tables[..n - 1];
    }
  }

  lemma RemoveMatching(init: seq<map<int, int>>, last: map<int, int>, others: seq<map<int, int>>, j: nat)
    requires multiset(init + [last]) == multiset(others)
    requires j < |others| && others[j] == last
    ensures multiset(init) == multiset(others[..j] + others[j + 1..])
  {
    var rest := others[..j] + others[j + 1..];
    assert others == others[..j] + [others[j]] + others[j + 1..];
    assert multiset(others) == multiset(rest) + multiset{last};
    assert multiset(init + [last]) == multiset(init) + multiset{last};
    forall t ensures multiset(init)[t] == multiset(rest)[t] {
      assert (multiset(init) + multiset{last})[t] == (multiset(rest) + multiset{last})[t];
    }
  }

  /** The combined table does not depend on the order in which tables are merged. */
  lemma {:induction false} SumTablesPermutation(tables: seq<map<int, int>>, others: seq<map<int, int>>)
    requires multiset(tables) == multiset(others)
    ensures SumTables(tables) == SumTables(others)
  {
    if tables != [] {
      var n := |tables|;
      var init, last := tables[..n - 1], tables[n - 1];
      assert tables == init + [last];
      assert last in multiset(others);
      var j :| 0 <= j < |others| && others[j] == last;
      RemoveMatching(init, last, others, j);
      SumTablesPermutation(init, others[..j] + others[j + 1..]);
      SumTablesExtract(others, j);
    } else {
      assert |others| == |multiset(others)| == 0;
    }
  }

  /** How many times `t` is merged is how many tasks succeeded with `t`. */
  lemma {:induction false} SuccessesMultiplicity(outcomes: seq<Option<map<int, int>>>, t: map<int, int>)
    ensures multiset(Successes(outcomes))[t] == multiset(outcomes)[Some(t)]
  {
    if outcomes != [] {
      var init := outcomes[..|outcomes| - 1];
      assert outcomes == init + [outcomes[|outcomes| - 1]];
      SuccessesMultiplicity(init, t);
    }
  }

  /** Collecting the same task outcomes in another order gives the same combined table. */
  lemma CombinedOrderIrrelevant(outcomes: seq<Option<map<int, int>>>, others: seq<Option<map<int, int>>>)
    requires multiset(outcomes) == multiset(others)
    ensures SumTables(Successes(outcomes)) == SumTables(Successes(others))
  {
    forall t ensures multiset(Successes(outcomes))[t] == multiset(Successes(others))[t] {
      SuccessesMultiplicity(outcomes, t);
      SuccessesMultiplicity(others, t);
    }
    assert multiset(Successes(outcomes)) == multiset(Successes(others));
    SumTablesPermutation(Successes(outcomes), Successes(others));
  }

  /** A failed task contributes nothing: dropping it leaves the combined table unchanged. */
  lemma {:induction false} FailureContributesNothing(outcomes: seq<Option<map<int, int>>>, i: nat)
    requires i < |outcomes| && outcomes[i] == None
    ensures Successes(outcomes) == Successes(outcomes[..i] + outcomes[i + 1..])
  {
    var n := |outcomes|;
    if i < n - 1 {
      var init := outcomes[..n - 1];
      var dropped := init[..i] + init[i + 1..];
      assert dropped + [outcomes[n - 1]] == outcomes[..i] + outcomes[i + 1..];
      assert (dropped + [outcomes[n - 1]])[..|dropped|] == dropped;
      FailureContributesNothing(init, i);
    } else {
      assert outcomes[..i] + outcomes[i + 1..] == outcomes[..n - 1];
    }
  }

  /** Region A saw age 7 five times; region B saw age 7 three times and age 9 five times. */
  lemma TwoRegionTotals()
    ensures SumTables(Successes([Some(map[7 := 5]), None, Some(map[7 := 3, 9 := 5])])) == map[7 := 8, 9 := 5]
  {
    var outcomes := [Some(map[7 := 5]), None, Some(map[7 := 3, 9 := 5])];
    assert outcomes[..2][..1] == [Some(map[7 := 5])];
    assert outcomes[..2] == [Some(map[7 := 5]), None];
    assert Successes(outcomes[..1]) == [map[7 := 5]];
    assert Successes(outcomes) == [map[7 := 5], map[7 := 3, 9 := 5]];
    var tables := [map[7 := 5], map[7 := 3, 9 := 5]];
    assert tables[..1] == [map[7 := 5]];
    assert SumTables(tables[..1]) == map[7 := 5];
  }

  /**
   * The collection loop: start from an empty table and merge in the table of
   * every task that succeeded; a failed task is reported and skipped.
   */
  method Combine(outcomes: seq<Option<map<int, int>>>) returns (combined: map<int, int>)
    ensures combined == SumTables(Successes(outcomes))
  {
    var table := new AgeCounts();
    for i := 0 to |outcomes|
      invariant table.counts == SumTables(Successes(outcomes[..i]))
    {
      assert outcomes[..i + 1][..i] == outcomes[..i];
      match outcomes[i]
      case Some(t) =>
        table.MergeTable(t);
      case None =>
    }
    assert outcomes[..|outcomes|] == outcomes;
    combined := table.counts;
  }
}
