/**
 * `computeTop3AgesFromMap`: sort the entries of an age table by descending
 * count (ties by ascending age), give each a dense rank over the distinct
 * counts, and emit the entries whose rank is at most three.
 */
module Ranking {
  import opened Tables

  /** How many distinct count levels are reported. */
  const TOP_THREE := 3

  /** One `Map.Entry<Integer, Integer>` of an age table. */
  datatype Entry = Entry(age: int, count: int)

  /** One output line `rank:age=count`, kept as its three numbers. */
  datatype Row = Row(rank: int, age: int, count: int)

  /** The comparator: higher count first; for equal counts, lower age first. */
  predicate Before(a: Entry, b: Entry)
  {
    a.count > b.count || (a.count == b.count && a.age < b.age)
  }

  /** Strictly ordered by the comparator (so no age occurs twice). */
  predicate Sorted(s: seq<Entry>)
  {
    forall i, j | 0 <= i < j < |s| :: Before(s[i], s[j])
  }

  /** `s` holds exactly the entries of `m`. */
  ghost predicate Lists(s: seq<Entry>, m: map<int, int>)
  {
    forall e :: e in s <==> e.age in m && m[e.age] == e.count
  }

  /** Insert `x` before the first element it comes before. */
  function Insert(s: seq<Entry>, x: Entry): (r: seq<Entry>)
    ensures forall e :: e in r <==> e in s || e == x
    ensures |r| == |s| + 1
  {
    if s == [] || Before(x, s[0]) then [x] + s
    else [s[0]] + Insert(s[1..], x)
  }

  /** Inserting an entry with a new age into a sorted list keeps it sorted. */
  lemma {:induction false} InsertSorted(s: seq<Entry>, x: Entry)
    requires Sorted(s)
    requires forall e | e in s :: e.age != x.age
    ensures Sorted(Insert(s, x))
  {
    if s != [] && !Before(x, s[0]) {
      var t := Insert(s[1..], x);
      assert forall e | e in s[1..] :: e in s;
      InsertSorted(s[1..], x);
      assert Before(s[0], x) by {
        assert s[0] in s;
      }
      forall k | 0 <= k < |t|
        ensures Before(s[0], t[k])
      {
        assert t[k] in t;
        if t[k] != x {
          var j :| 0 <= j < |s[1..]| && s[1..][j] == t[k];
          assert s[j + 1] == t[k];
        }
      }
    }
  }

  /** The sorted entry list of the stream pipeline, one entry inserted at a time. */
  method SortEntries(m: map<int, int>) returns (s: seq<Entry>)
    ensures Sorted(s) && Lists(s, m)
    ensures |s| == |m|
  {
    s := [];
    var pending := m.Keys;
    while pending != {}
      invariant pending <= m.Keys
      invariant Sorted(s)
      invariant forall e :: e in s <==> e.age in m.Keys - pending && m[e.age] == e.count
      invariant |s| + |pending| == |m|
      decreases pending
    {
      HasElement(pending);
      var age :| age in pending;
      InsertSorted(s, Entry(age, m[age]));
      s := Insert(s, Entry(age, m[age]));
      pending := pending - {age};
    }
  }

  /** The rank the loop gives the entry at index `i` of a sorted list: one more at every change of count. */
  function RankAt(s: seq<Entry>, i: nat): int
    requires i < |s|
  {
    if i == 0 then 1
    else RankAt(s, i - 1) + (if s[i].count != s[i - 1].count then 1 else 0)
  }

  /** The distinct counts of `m` that are at least `c`. */
  function Levels(m: map<int, int>, c: int): set<int>
  {
    set age | age in m && m[age] >= c :: m[age]
  }

  /** Dense rank of count `c` in `m`: 1 for the highest count, one more for each lower distinct count. */
  function DenseRank(m: map<int, int>, c: int): int
  {
    |Levels(m, c)|
  }

  function EntryOf(r: Row): Entry
  {
    Entry(r.age, r.count)
  }

  /**
   * What a top-three ranking of `m` is: every row is an entry of `m` with its
   * dense rank, at most three; every entry whose dense rank is at most three
   * has a row (ties included); rows are in comparator order.
   */
  ghost predicate IsTop3Ranking(m: map<int, int>, rows: seq<Row>)
  {
    && (forall i | 0 <= i < |rows| ::
          rows[i].age in m && m[rows[i].age] == rows[i].count
          && rows[i].rank == DenseRank(m, rows[i].count) <= TOP_THREE)
    && (forall age | age in m && DenseRank(m, m[age]) <= TOP_THREE ::
          exists i | 0 <= i < |rows| :: rows[i].age == age)
    && (forall i, j | 0 <= i < j < |rows| :: Before(EntryOf(rows[i]), EntryOf(rows[j])))
  }

  /** In a sorted list, counts never increase. */
  lemma SortedCounts(s: seq<Entry>, i: nat, j: nat)
    requires Sorted(s) && i <= j < |s|
    ensures s[i].count >= s[j].count
  {
    if i < j {
      assert Before(s[i], s[j]);
    }
  }

  /** The loop's rank never decreases along the list. */
  lemma {:induction false} RankAtMonotone(s: seq<Entry>, i: nat, j: nat)
    requires i <= j < |s|
    ensures RankAt(s, i) <= RankAt(s, j)
  {
    if i < j {
      RankAtMonotone(s, i, j - 1);
    }
  }

  /** The distinct counts among the first `i + 1` entries. */
  function PrefixLevels(s: seq<Entry>, i: nat): set<int>
    requires i < |s|
  {
    set j | 0 <= j <= i :: s[j].count
  }

  /** The distinct counts of the first `i + 1` entries are those of the first `i`, plus the count at `i`. */
  lemma PrefixLevelsStep(s: seq<Entry>, i: nat)
    requires 0 < i < |s|
    ensures PrefixLevels(s, i) == PrefixLevels(s, i - 1) + {s[i].count}
  {
    forall c | c in PrefixLevels(s, i)
      ensures c in PrefixLevels(s, i - 1) + {s[i].count}
    {
      var j :| 0 <= j <= i && s[j].count == c;
      if j < i {
        assert c in PrefixLevels(s, i - 1);
      }
    }
    forall c | c in PrefixLevels(s, i - 1)
      ensures c in PrefixLevels(s, i)
    {
      var j :| 0 <= j <= i - 1 && s[j].count == c;
    }
  }

  /** The loop's rank counts the distinct counts seen so far. */
  lemma {:induction false} RankAtCountsLevels(s: seq<Entry>, i: nat)
    requires Sorted(s) && i < |s|
    ensures RankAt(s, i) == |PrefixLevels(s, i)|
  {
    if i == 0 {
      assert PrefixLevels(s, 0) == {s[0].count};
    } else {
      RankAtCountsLevels(s, i - 1);
      PrefixLevelsStep(s, i);
      var seen := PrefixLevels(s, i - 1);
      if s[i].count != s[i - 1].count {
        assert s[i].count !in seen by {
          forall j | 0 <= j <= i - 1
            ensures s[j].count != s[i].count
          {
            SortedCounts(s, j, i - 1);
            SortedCounts(s, i - 1, i);
          }
        }
      } else {
        assert s[i].count in seen;
        assert seen + {s[i].count} == seen;
      }
    }
  }

  /** On the sorted list of a table, the distinct counts seen so far are the table's levels. */
  lemma PrefixLevelsAreLevels(s: seq<Entry>, m: map<int, int>, i: nat)
    requires Sorted(s) && Lists(s, m) && i < |s|
    ensures PrefixLevels(s, i) == Levels(m, s[i].count)
  {
    forall c | c in PrefixLevels(s, i)
      ensures c in Levels(m, s[i].count)
    {
      var j :| 0 <= j <= i && s[j].count == c;
      assert s[j] in s;
      SortedCounts(s, j, i);
    }
    forall c | c in Levels(m, s[i].count)
      ensures c in PrefixLevels(s, i)
    {
      var age :| age in m && m[age] >= s[i].count && m[age] == c;
      assert Entry(age, c) in s;
      var j :| 0 <= j < |s| && s[j] == Entry(age, c);
      if j > i {
        SortedCounts(s, i, j);
        assert c == s[i].count;
      }
    }
  }

  /** The loop's rank of an entry is the dense rank of its count in the table. */
  lemma RankAtIsDenseRank(s: seq<Entry>, m: map<int, int>, i: nat)
    requires Sorted(s) && Lists(s, m) && i < |s|
    ensures RankAt(s, i) == DenseRank(m, s[i].count)
  {
    RankAtCountsLevels(s, i);
    PrefixLevelsAreLevels(s, m, i);
  }

  /** A count strictly above the count of an entry of the table has a strictly smaller dense rank. */
  lemma DenseRankStrict(m: map<int, int>, high: int, age: int)
    requires age in m && high > m[age]
    ensures DenseRank(m, high) < DenseRank(m, m[age])
  {
    var upper, lower := Levels(m, high), Levels(m, m[age]);
    assert upper <= lower;
    assert m[age] in lower - upper;
    assert lower == upper + (lower - upper);
    assert |lower| == |upper| + |lower - upper|;
  }

  /** Two rows of a ranking share a rank exactly when they share a count. */
  lemma RanksMatchCounts(m: map<int, int>, rows: seq<Row>, i: nat, j: nat)
    requires IsTop3Ranking(m, rows) && i < |rows| && j < |rows|
    ensures rows[i].rank == rows[j].rank <==> rows[i].count == rows[j].count
  {
    if rows[i].count > rows[j].count {
      DenseRankStrict(m, rows[i].count, rows[j].age);
    } else if rows[i].count < rows[j].count {
      DenseRankStrict(m, rows[j].count, rows[i].age);
    }
  }

  /** Two strictly ordered row lists with the same rows are the same list. */
  lemma {:induction false} SameSortedRows(a: seq<Row>, b: seq<Row>)
    requires forall i, j | 0 <= i < j < |a| :: Before(EntryOf(a[i]), EntryOf(a[j]))
    requires forall i, j | 0 <= i < j < |b| :: Before(EntryOf(b[i]), EntryOf(b[j]))
    requires forall r :: r in a <==> r in b
    ensures a == b
  {
    assert |b| == 0 || b[0] in b;
    if a != [] {
      assert b != [] by {
        assert a[0] in b;
      }
      assert b[0] in a && a[0] in b;
      var i :| 0 <= i < |a| && a[i] == b[0];
      var j :| 0 <= j < |b| && b[j] == a[0];
      assert a[0] == b[0];
      forall r
        ensures r in a[1..] <==> r in b[1..]
      {
        if r in a[1..] {
          var i :| 0 <= i < |a[1..]| && a[1..][i] == r;
          assert Before(EntryOf(a[0]), EntryOf(a[i + 1]));
          assert r in b;
          var j :| 0 <= j < |b| && b[j] == r;
          assert b[1..][j - 1] == r;
        }
        if r in b[1..] {
          var i :| 0 <= i < |b[1..]| && b[1..][i] == r;
          assert Before(EntryOf(b[0]), EntryOf(b[i + 1]));
          assert r in a;
          var j :| 0 <= j < |a| && a[j] == r;
          assert a[1..][j - 1] == r;
        }
      }
      SameSortedRows(a[1..], b[1..]);
    }
  }

  /** A table has exactly one top-three ranking: the output is fully determined by the table. */
  lemma RankingIsUnique(m: map<int, int>, rows: seq<Row>, others: seq<Row>)
    requires IsTop3Ranking(m, rows) && IsTop3Ranking(m, others)
    ensures rows == others
  {
    forall r | r in rows
      ensures r in others
    {
      var i :| 0 <= i < |rows| && rows[i] == r;
      var j :| 0 <= j < |others| && others[j].age == r.age;
    }
    forall r | r in others
      ensures r in rows
    {
      var i :| 0 <= i < |others| && others[i] == r;
      var j :| 0 <= j < |rows| && rows[j].age == r.age;
    }
    SameSortedRows(rows, others);
  }

  /**
   * The rows the loop has emitted when it stops (at the end of the list, or
   * at the first entry of rank four) form the top-three ranking of the table.
   */
  lemma EmittedRowsAreRanking(m: map<int, int>, sorted: seq<Entry>, rows: seq<Row>)
    requires Sorted(sorted) && Lists(sorted, m)
    requires |rows| <= |sorted|
    requires forall j | 0 <= j < |rows| ::
      rows[j] == Row(RankAt(sorted, j), sorted[j].age, sorted[j].count) && RankAt(sorted, j) <= TOP_THREE
    requires |rows| == |sorted| || RankAt(sorted, |rows|) > TOP_THREE
    ensures IsTop3Ranking(m, rows)
  {
    forall j | 0 <= j < |rows|
      ensures RankAt(sorted, j) == DenseRank(m, sorted[j].count)
      ensures sorted[j].age in m && m[sorted[j].age] == sorted[j].count
    {
      RankAtIsDenseRank(sorted, m, j);
      assert sorted[j] in sorted;
    }
    forall age | age in m && DenseRank(m, m[age]) <= TOP_THREE
      ensures exists j | 0 <= j < |rows| :: rows[j].age == age
    {
      assert Entry(age, m[age]) in sorted;
      var j :| 0 <= j < |sorted| && sorted[j] == Entry(age, m[age]);
      RankAtIsDenseRank(sorted, m, j);
      if j >= |rows| {
        RankAtMonotone(sorted, |rows|, j);
      }
      assert rows[j].age == age;
    }
  }

  /** The emitted rows carry dense ranks: 1 first, unchanged on a repeated count, one more otherwise. */
  lemma EmittedRanksAreDense(sorted: seq<Entry>, rows: seq<Row>)
    requires |rows| <= |sorted|
    requires forall j | 0 <= j < |rows| :: rows[j] == Row(RankAt(sorted, j), sorted[j].age, sorted[j].count)
    ensures rows != [] ==> rows[0].rank == 1
    ensures forall i | 0 < i < |rows| ::
      rows[i].rank == if rows[i].count == rows[i - 1].count then rows[i - 1].rank else rows[i - 1].rank + 1
  {
  }

  /**
   * The ranking loop over the sorted entries: bump the rank whenever the
   * count differs from the previous one (initially the sentinel -1), emit
   * while the rank is at most three, stop at the first entry of rank four.
   */
  method RankSorted(sorted: seq<Entry>) returns (rows: seq<Row>)
    requires sorted != [] ==> sorted[0].count != -1
    ensures |rows| <= |sorted|
    ensures forall j | 0 <= j < |rows| ::
      rows[j] == Row(RankAt(sorted, j), sorted[j].age, sorted[j].count) && RankAt(sorted, j) <= TOP_THREE
    ensures |rows| == |sorted| || RankAt(sorted, |rows|) > TOP_THREE
  {
    rows := [];
    var currentRank := 0;
    var previousCount := -1;
    var i := 0;
    while i < |sorted|
      invariant 0 <= i <= |sorted| && |rows| == i
      invariant forall j {:trigger rows[j]} | 0 <= j < i ::
        rows[j] == Row(RankAt(sorted, j), sorted[j].age, sorted[j].count) && rows[j].rank <= TOP_THREE
      invariant i == 0 ==> currentRank == 0 && previousCount == -1
      invariant i > 0 ==> currentRank == RankAt(sorted, i - 1) && previousCount == sorted[i - 1].count
    {
      var entry := sorted[i];
      if entry.count != previousCount {
        currentRank := currentRank + 1;
      }
      assert currentRank == RankAt(sorted, i);
      if currentRank <= TOP_THREE {
        ghost var emitted := rows;
        rows := rows + [Row(currentRank, entry.age, entry.count)];
        assert forall j | 0 <= j < i :: rows[j] == emitted[j];
      } else {
        break;
      }
      previousCount := entry.count;
      i := i + 1;
    }
    assert forall j {:trigger rows[j]} | 0 <= j < |rows| :: rows[j].rank == RankAt(sorted, j);
  }

  /** `computeTop3AgesFromMap`: sort the entries, then rank them. */
  method ComputeTop3(m: map<int, int>) returns (rows: seq<Row>)
    requires -1 !in m.Values
    ensures IsTop3Ranking(m, rows)
    ensures rows == [] <==> m == map[]
    ensures rows != [] ==> rows[0].rank == 1
    ensures forall i | 0 < i < |rows| ::
      rows[i].rank == if rows[i].count == rows[i - 1].count then rows[i - 1].rank else rows[i - 1].rank + 1
    ensures forall i, j | 0 <= i < |rows| && 0 <= j < |rows| ::
      rows[i].rank == rows[j].rank <==> rows[i].count == rows[j].count
  {
    var sorted := SortEntries(m);
    if sorted != [] {
      assert sorted[0] in sorted;
    }
    rows := RankSorted(sorted);
    EmittedRowsAreRanking(m, sorted, rows);
    EmittedRanksAreDense(sorted, rows);
    forall i, j | 0 <= i < |rows| && 0 <= j < |rows|
      ensures rows[i].rank == rows[j].rank <==> rows[i].count == rows[j].count
    {
      RanksMatchCounts(m, rows, i, j);
    }
  }

  /**
   * Ages 10, 15, 12 and 20 seen 38, 35, 30 and 30 times: 12 and 20 tie at
   * rank three and both are listed, 12 first.
   */
  lemma TieAtRankThree()
    ensures IsTop3Ranking(map[10 := 38, 15 := 35, 12 := 30, 20 := 30],
                          [Row(1, 10, 38), Row(2, 15, 35), Row(3, 12, 30), Row(3, 20, 30)])
  {
    var m := map[10 := 38, 15 := 35, 12 := 30, 20 := 30];
    var sorted := [Entry(10, 38), Entry(15, 35), Entry(12, 30), Entry(20, 30)];
    assert Lists(sorted, m) by {
      assert m.Keys == {10, 15, 12, 20};
    }
    assert RankAt(sorted, 0) == 1;
    assert RankAt(sorted, 1) == 2;
    assert RankAt(sorted, 2) == 3;
    assert RankAt(sorted, 3) == 3;
    EmittedRowsAreRanking(m, sorted, [Row(1, 10, 38), Row(2, 15, 35), Row(3, 12, 30), Row(3, 20, 30)]);
  }
}
