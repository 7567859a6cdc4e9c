/** `main` from the grouping to the two rankings (analyzer.py:192-234),
    with the CSV file replaced by a sequence of rows and the printing left
    out. */
module Analyzer {
  import opened Wrappers
  import opened RowFilter
  import opened Statistics
  import opened Aggregation
  import opened Ranking

  /** The record `stats[key]` of the group `k`. */
  function GroupEntry(rows: seq<Reading>, c: Criteria, sqrt: real -> real, k: GroupKey): Entry
  {
    Entry(k, ComputeStatistics(Lift(GroupValues(Samples(rows, c), k)), sqrt))
  }

  /** `stats.items()`: one record per group, in first-occurrence order. */
  function Report(rows: seq<Reading>, c: Criteria, sqrt: real -> real): seq<Entry>
  {
    Map(k => GroupEntry(rows, c, sqrt, k), KeyOrder(Samples(rows, c)))
  }

  /** The aggregation, the statistics and the two rankings of `main`. */
  method Analyze(rows: seq<Reading>, c: Criteria, sqrt: real -> real)
    returns (stats: seq<Entry>, topByAverage: seq<Entry>, topByStdDev: seq<Entry>)
    ensures stats == Report(rows, c, sqrt)
    ensures topByAverage == Top(stats, Average) && topByStdDev == Top(stats, StdDev)
  {
    var order, groups := Aggregate(rows, c);
    stats := ComputeAllStats(order, groups, sqrt);
    assert forall i :: 0 <= i < |order| ==> groups[order[i]] == GroupValues(Samples(rows, c), order[i]) by {
      forall i | 0 <= i < |order|
        ensures groups[order[i]] == GroupValues(Samples(rows, c), order[i])
      {
        assert Lookup(groups, order[i]) == GroupValues(Samples(rows, c), order[i]);
      }
    }
    topByAverage := Top(stats, Average);
    topByStdDev := Top(stats, StdDev);
  }

  /** Every group of the report holds at least one value, and its record
      counts exactly the group's values and has its extremes and mean. */
  lemma ReportEntry(rows: seq<Reading>, c: Criteria, sqrt: real -> real, i: nat)
    requires i < |Report(rows, c, sqrt)|
    ensures var e := Report(rows, c, sqrt)[i];
            var xs := GroupValues(Samples(rows, c), e.key);
            xs != [] && e.stats.count == |xs| &&
            e.stats.min == Min(xs) && e.stats.max == Max(xs) && e.stats.average == Mean(xs)
  {
    var samples := Samples(rows, c);
    var k := KeyOrder(samples)[i];
    var xs := GroupValues(samples, k);
    KeysAreNonEmptyGroups(samples, k);
    PresentOfLift(xs);
    StatisticsOfPresent(Lift(xs), sqrt);
  }

  /** Each group appears once in the report. */
  lemma ReportKeysDistinct(rows: seq<Reading>, c: Criteria, sqrt: real -> real)
    ensures Distinct(Report(rows, c, sqrt))
  {
    var order := KeyOrder(Samples(rows, c));
    var r := Report(rows, c, sqrt);
    KeyOrderDistinct(Samples(rows, c));
    forall i, j | 0 <= i < j < |r|
      ensures r[i] != r[j]
    {
      assert r[i].key == order[i] && r[j].key == order[j];
    }
  }

  /** Neither ranking lists a group twice. */
  lemma RankingsDistinct(rows: seq<Reading>, c: Criteria, sqrt: real -> real, f: Field)
    ensures Distinct(Top(Report(rows, c, sqrt), f))
  {
    ReportKeysDistinct(rows, c, sqrt);
    TopDistinct(Report(rows, c, sqrt), f);
  }
}
