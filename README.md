# Census top-three ages, modelled in Dafny

`Census` answers "which ages occur most often?" for one region or for many regions together.
Each region supplies a stream of integer ages. The stream is counted into an age → count table, and
negative ages are skipped. With several regions, each region is counted by its own task. The tables of
the tasks that succeeded are then summed age by age; a region whose task failed adds nothing.
Finally the combined table is ranked: entries sorted by descending count (ties by ascending age),
given a dense rank over the distinct counts, and emitted while the rank is at most three. Every age
tied at rank three is therefore included.

The model has five modules:

- `Wrappers` (`wrappers.dfy`): `Option`, the tagged outcome of a region (a failure is `None`).
- `Tables` (`tables.dfy`): age tables as `map<int, int>`. `AddTables` is the per-age sum that
  `Map.merge(..., Integer::sum)` produces, and `Tally` is the reference table of a stream. The class
  `AgeCounts` stands for the `HashMap` that is updated in place. `Process` is
  `AgeInputIterator.process`, a loop over the stream that mutates that table.
- `Merge` (`merge.dfy`): the collection loop of the multi-region query (`Combine`), specified by the
  left fold `SumTables` over the successful tables (`Successes`).
- `Ranking` (`ranking.dfy`): `computeTop3AgesFromMap`. `Before` is the comparator at Census.java:111 (higher count first, then
  lower age), and `RankAt` is the rank the loop gives an entry, one more at every change of count
  (the `currentRank` bump at Census.java:117-119). `SortEntries` builds the sorted entry list by
  insertion, and `RankSorted` is the loop that tracks `currentRank`/`previousCount` and stops with
  `break`. `ComputeTop3` composes the two. `IsTop3Ranking` states what a ranking of a table is; it is
  proved to determine the output uniquely.
- `Census` (`census.dfy`): the two queries `top3Ages(String)` and `top3Ages(List<String>)`. A
  region's source is an `Option<seq<int>>`: `None` when opening, reading or closing it failed.

An output line `rank:age=count` is modelled as the triple `Row(rank, age, count)`.

Two details are kept as the code has them. First, `process` adds to whatever table it is given,
not only to an empty one. Second, the ranking loop does
not assume positive counts: it only relies on its initial `previousCount` of -1 differing from the
first (highest) count, and `RankSorted` requires just that. `ComputeTop3` requires the simpler,
slightly stronger condition that no count equals -1; every caller meets it because their counts are
at least 1.

## Model

| member | source | states |
|---|---|---|
| `Tables.Tally` | src/main/java/Census.java:138-146 | the table of a stream holds only non-negative ages, each with a count of at least 1 |
| `Tables.TallyAt` | src/main/java/Census.java:140-144 | an age is in a stream's table iff it is non-negative and occurs in the stream; its count is its number of occurrences, and a negative age has count 0 |
| `Tables.AddTablesAt` | src/main/java/Census.java:99 | after merging `b` into `a` with summing, each age's count is its count in `a` plus its count in `b`, with absent meaning 0 |
| `Tables.AddTablesCommute` | src/main/java/Census.java:99 | merging two tables is commutative |
| `Tables.AddTablesAssociate` | src/main/java/Census.java:99 | merging tables is associative |
| `Tables.AddEmptyTable` | src/main/java/Census.java:95 | the empty starting table is the identity of merging, on either side |
| `Tables.AddTablesIsFrequencyTable` | src/main/java/Census.java:99 | merging two well-formed tables (non-negative ages, counts ≥ 1) gives a well-formed table |
| `Tables.TallyAppend` | src/main/java/Census.java:139-145 | counting two streams one after the other is the same as merging their separate tables |
| `Tables.TallySnoc` | src/main/java/Census.java:140-144 | one more observation leaves the table unchanged if it is negative, and otherwise adds 1 to that age's count (starting at 1) |
| `Tables.AgeCounts.Merge` | src/main/java/Census.java:144 | `merge(age, n, Integer::sum)` stores `n` for an absent age and adds `n` otherwise; no other age changes |
| `Tables.AgeCounts.MergeTable` | src/main/java/Census.java:99 | merging every entry of a table leaves the per-age sum of the old table and that table |
| `Tables.Process` | src/main/java/Census.java:138-146 | new table = old table merged with the stream's table. For each age ≥ 0, new count = old count (0 if absent) + its occurrences. Negative ages and ages not in the stream keep their presence and count. A well-formed table stays well-formed |
| `Merge.SumTablesAt` | src/main/java/Census.java:95-103 | an age's combined count is the sum of its counts over all merged tables, and the age is present iff some table has it |
| `Merge.SumTablesIsFrequencyTable` | src/main/java/Census.java:95-103 | combining well-formed tables gives a well-formed table |
| `Merge.SumTablesExtract` | src/main/java/Census.java:96-99 | taking any one table out and merging it last gives the same combined table |
| `Merge.SumTablesPermutation` | src/main/java/Census.java:96-103 | the combined table is the same for every order of the same tables |
| `Merge.SuccessesMultiplicity` | src/main/java/Census.java:96-102 | a table is merged exactly as many times as there are successful tasks that produced it |
| `Merge.CombinedOrderIrrelevant` | src/main/java/Census.java:96-103 | collecting the same task outcomes in any order gives the same combined table |
| `Merge.FailureContributesNothing` | src/main/java/Census.java:100-102 | removing a failed task's outcome leaves the merged tables unchanged |
| `Merge.TwoRegionTotals` | src/main/java/Census.java:95-103 | {7:5} merged with {7:3, 9:5}, with a failed region between them, gives {7:8, 9:5} |
| `Merge.Combine` | src/main/java/Census.java:95-103 | the collection loop returns the left-to-right merge, into an empty table, of the tables of exactly the successful tasks |
| `Ranking.Insert` | src/main/java/Census.java:110-112 | inserting an entry adds exactly that entry and keeps all others |
| `Ranking.InsertSorted` | src/main/java/Census.java:110-112 | inserting an entry with a new age into a list sorted by the comparator keeps it sorted |
| `Ranking.SortEntries` | src/main/java/Census.java:110-112 | the result holds exactly the table's entries, one per age, strictly ordered by descending count and then ascending age |
| `Ranking.SortedCounts` | src/main/java/Census.java:111 | in the sorted list, counts never increase |
| `Ranking.RankAtMonotone` | src/main/java/Census.java:117-120 | the loop's rank never decreases along the sorted list |
| `Ranking.RankAtCountsLevels` | src/main/java/Census.java:115-120 | the loop's rank at an entry is the number of distinct counts seen up to that entry |
| `Ranking.PrefixLevelsAreLevels` | src/main/java/Census.java:110-120 | on the sorted list of a table, the distinct counts seen so far are exactly the table's distinct counts at or above the current one |
| `Ranking.RankAtIsDenseRank` | src/main/java/Census.java:115-120 | the loop's rank of an entry is the dense rank of its count: the number of distinct counts in the table at or above it |
| `Ranking.DenseRankStrict` | src/main/java/Census.java:118-119 | a strictly higher count has a strictly smaller dense rank |
| `Ranking.RanksMatchCounts` | src/main/java/Census.java:118-120 | two rows of a ranking share a rank iff they share a count |
| `Ranking.SameSortedRows` | src/main/java/Census.java:111 | two strictly ordered row lists with the same rows are identical |
| `Ranking.RankingIsUnique` | src/main/java/Census.java:109-130 | a table has exactly one top-three ranking, so the output is fully determined whatever the hash order |
| `Ranking.EmittedRowsAreRanking` | src/main/java/Census.java:121-125 | the rows emitted when the loop stops (at the end, or at the first entry of rank four) form the top-three ranking of the table |
| `Ranking.EmittedRanksAreDense` | src/main/java/Census.java:115-126 | the first emitted rank is 1; each next rank is equal when the count repeats and one more otherwise, so there are no gaps |
| `Ranking.RankSorted` | src/main/java/Census.java:114-127 | the loop emits the longest prefix of the sorted list whose ranks are at most 3, each as (rank, age, count); it stops at the list's end or at the first entry of rank 4 |
| `Ranking.ComputeTop3` | src/main/java/Census.java:109-130 | each row is an entry of the table, with its dense rank, which is at most 3. Every entry of dense rank ≤ 3 is emitted, ties included. Rows are ordered by descending count, then ascending age, each age once. Ranks start at 1, have no gaps, and are equal iff counts are equal. The result is empty iff the table is empty |
| `Census.TwoRegionRanking` | src/main/java/Census.java:95-106 | regions {7:5}, failed, {7:3, 9:5} combine and rank as 1:7=8, 2:9=5 |
| `Census.SucceededOutcomes` | src/main/java/Census.java:100-102 | dropping failed sources before running the tasks leaves the same successful tables, in the same order, as dropping failed outcomes |
| `Ranking.TieAtRankThree` | src/main/java/Census.java:121-125 | {10:38, 15:35, 12:30, 20:30} ranks as 1:10=38, 2:15=35, 3:12=30, 3:20=30 |
| `Census.RegionTask` | src/main/java/Census.java:84-92 | a region task fails iff its source fails, and otherwise returns the table of its stream counted from an empty table |
| `Census.Top3AgesOfRegion` | src/main/java/Census.java:46-64 | the single-region query fails iff the source fails. Otherwise it returns the top-three ranking of the stream's table, which is empty iff the stream has no non-negative age |
| `Census.Top3AgesOfRegions` | src/main/java/Census.java:71-107 | the multi-region query returns the top-three ranking of the combined table of the regions whose source succeeded |
| `Census.SuccessesAreTallies` | src/main/java/Census.java:84-92 | every table a successful task produced is the table of some stream |
| `Census.CombinedTallyIsTallyOfAllAges` | src/main/java/Census.java:95-103 | the combined table equals the table of all succeeding regions' ages taken as one stream |
| `Census.SucceededSameAges` | src/main/java/Census.java:100-102 | keeping only the succeeding regions keeps the same ages in the same order |
| `Census.FailedRegionsContributeNothing` | src/main/java/Census.java:100-102 | combining only the succeeding regions gives the same table as combining all regions |
| `Census.FailedRegionsDoNotChangeRanking` | src/main/java/Census.java:100-106 | a query over a mix of failing and succeeding regions returns exactly the ranking of a query over the succeeding regions alone |
| `Census.CombinedCount` | src/main/java/Census.java:95-103 | each age's combined count is its number of observations across all succeeding regions (0 for a negative age) |

## Left out

- The virtual-thread executor, `submit`, `Future.get` and `shutdown` (src/main/java/Census.java:80-93, 105) are not modelled. Tasks run one after another in region order, and their outcomes are collected in that order. `Merge.CombinedOrderIrrelevant` shows that the order does not matter.
- `iteratorFactory`, the `Closeable` iterator and try-with-resources (src/main/java/Census.java:31, 38-40, 57, 86, 137) are not modelled. Each region's source is given as its finite sequence of ages, or `None` when acquiring, reading or releasing it fails. A failure in mid-stream is therefore not distinguished from one at the start; either way the region has no table.
- Exception wrapping, messages and `System.err` logging (src/main/java/Census.java:59-61, 88-89, 100-102) are not modelled. A single-region failure is the `None` result; a failed region in the multi-region query contributes no table.
- `String.format` with `OUTPUT_FORMAT` (src/main/java/Census.java:26, 122) is not modelled: each output line is the triple `Row(rank, age, count)`, with no decimal rendering.
- Java `int` arithmetic is not modelled: ages and counts are unbounded integers, so the wrap-around of `Integer::sum` (src/main/java/Census.java:99, 144) after 2^31 - 1 observations of one age is absent.
- `HashMap` iteration order is not modelled: `SortEntries` and `MergeTable` take keys in an unspecified order. The results do not depend on it: `Ranking.RankingIsUnique` shows this for the ranking, and the postcondition of `Tables.AgeCounts.MergeTable` holds for every key order.
- Null elements from the iterator (an unboxing failure at src/main/java/Census.java:140) are not modelled: a stream holds only integers.
