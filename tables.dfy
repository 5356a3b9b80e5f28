/**
 * Age frequency tables: the `Map<Integer, Integer>` that maps an age to the
 * number of times it was observed, and the aggregation step
 * `AgeInputIterator.process` that fills one in place from a stream of ages.
 */
module Tables {

  /** The count recorded for `age`; 0 when the age is absent, as `Map.merge` treats it. */
  function Get(m: map<int, int>, age: int): int
  {
    if age in m then m[age] else 0
  }

  /** A well-formed frequency table: only non-negative ages, every count at least 1. */
  predicate IsFrequencyTable(m: map<int, int>)
  {
    forall age | age in m :: age >= 0 && m[age] >= 1
  }

  /**
   * Per-age sum of two tables: what folding `b` into `a` with
   * `a.merge(age, count, Integer::sum)` for every entry of `b` leaves in `a`.
   */
  function AddTables(a: map<int, int>, b: map<int, int>): (r: map<int, int>)
    ensures r.Keys == a.Keys + b.Keys
  {
    map age | age in a.Keys + b.Keys :: Get(a, age) + Get(b, age)
  }

  /**
   * The reference frequency table of a stream: every non-negative age of the
   * stream mapped to its number of occurrences; negative ages are absent.
   */
  function Tally(ages: seq<int>): (r: map<int, int>)
    ensures IsFrequencyTable(r)
  {
    map age | age in ages && age >= 0 :: multiset(ages)[age]
  }

  lemma TallyAt(ages: seq<int>, age: int)
    ensures age in Tally(ages) <==> age >= 0 && age in ages
    ensures Get(Tally(ages), age) == if age >= 0 then multiset(ages)[age] else 0
  {
  }

  lemma AddTablesAt(a: map<int, int>, b: map<int, int>, age: int)
    ensures Get(AddTables(a, b), age) == Get(a, age) + Get(b, age)
  {
  }

  /** Merging is commutative. */
  lemma AddTablesCommute(a: map<int, int>, b: map<int, int>)
    ensures AddTables(a, b) == AddTables(b, a)
  {
  }

  /** Merging is associative. */
  lemma AddTablesAssociate(a: map<int, int>, b: map<int, int>, c: map<int, int>)
    ensures AddTables(AddTables(a, b), c) == AddTables(a, AddTables(b, c))
  {
  }

  /** Merging an empty table changes nothing, on either side. */
  lemma AddEmptyTable(a: map<int, int>)
    ensures AddTables(a, map[]) == a && AddTables(map[], a) == a
  {
  }

  /** Merging two well-formed tables gives a well-formed table. */
  lemma AddTablesIsFrequencyTable(a: map<int, int>, b: map<int, int>)
    requires IsFrequencyTable(a) && IsFrequencyTable(b)
    ensures IsFrequencyTable(AddTables(a, b))
  {
  }

  /** Counting two streams one after the other is merging their tables. */
  lemma TallyAppend(xs: seq<int>, ys: seq<int>)
    ensures Tally(xs + ys) == AddTables(Tally(xs), Tally(ys))
  {
  }

  /** One more observation: a negative one changes nothing, any other adds 1 to its age. */
  lemma TallySnoc(xs: seq<int>, age: int)
    ensures Tally(xs + [age]) == if age < 0 then Tally(xs) else AddTables(Tally(xs), map[age := 1])
  {
  }

  /**
   * A non-empty set of ages has an element to pick. Called before each
   * `var age :| age in s` because, when contradictory assumptions are being
   * reported, the verifier does not find that witness unaided.
   */
  lemma HasElement(s: set<int>)
    requires s != {}
    ensures exists age :: age in s
  {
    if forall age :: age !in s {
      assert false;
    }
  }

  /**
   * A mutable age table: the `HashMap` that `process` and the merge loop
   * update in place.
   */
  class AgeCounts {
    var counts: map<int, int>

    constructor ()
      ensures counts == map[]
    {
      counts := map[];
    }

    /** `counts.merge(age, n, Integer::sum)`: put `n` when absent, add `n` otherwise. */
    method Merge(age: int, n: int)
      modifies this
      ensures counts == AddTables(old(counts), map[age := n])
    {
      counts := counts[age := Get(counts, age) + n];
    }

    /** `t.forEach((age, count) -> counts.merge(age, count, Integer::sum))`. */
    method MergeTable(t: map<int, int>)
      modifies this
      ensures counts == AddTables(old(counts), t)
    {
      var pending := t.Keys;
      while pending != {}
        invariant pending <= t.Keys
        invariant counts == AddTables(old(counts), t - pending)
        decreases pending
      {
        HasElement(pending);
        var age :| age in pending;
        Merge(age, t[age]);
        assert t - (pending - {age}) == (t - pending)[age := t[age]];
        pending := pending - {age};
      }
    }
  }

  /**
   * `AgeInputIterator.process`: drain the stream into `table`, skipping
   * negative ages and adding 1 to the count of every other age.
   */
  method Process(ages: seq<int>, table: AgeCounts)
    modifies table
    ensures table.counts == AddTables(old(table.counts), Tally(ages))
    ensures forall age | age >= 0 :: Get(table.counts, age) == Get(old(table.counts), age) + multiset(ages)[age]
    ensures forall age | age < 0 || age !in ages ::
      (age in table.counts <==> age in old(table.counts)) && Get(table.counts, age) == Get(old(table.counts), age)
    ensures IsFrequencyTable(old(table.counts)) ==> IsFrequencyTable(table.counts)
  {
    var i := 0;
    while i < |ages|
      invariant 0 <= i <= |ages|
      invariant table.counts == AddTables(old(table.counts), Tally(ages[..i]))
    {
      var age := ages[i];
      assert ages[..i + 1] == ages[..i] + [age];
      TallySnoc(ages[..i], age);
      i := i + 1;
      if age < 0 {
        continue;
      }
      table.Merge(age, 1);
      AddTablesAssociate(old(table.counts), Tally(ages[..i - 1]), map[age := 1]);
    }
    assert ages[..i] == ages;
    forall age
      ensures Get(table.counts, age) == Get(old(table.counts), age) + Get(Tally(ages), age)
      ensures age in Tally(ages) <==> age >= 0 && age in ages
    {
      AddTablesAt(old(table.counts), Tally(ages), age);
      TallyAt(ages, age);
    }
    if IsFrequencyTable(old(table.counts)) {
      AddTablesIsFrequencyTable(old(table.counts), Tally(ages));
    }
  }
}
