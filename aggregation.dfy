/** The two loops of `main` (analyzer.py:192-220): grouping the accepted
    values by (device, site, metric) in a `defaultdict(list)`, then one
    statistics record per group.  The CSV reader is replaced by a sequence of
    rows. */
module Aggregation {
  import opened Wrappers
  import opened RowFilter
  import opened ValueParser
  import opened Statistics

  /** The tuple key `(row['device'], row['site'], row['metric'])`. */
  datatype GroupKey = GroupKey(device: string, site: string, metric: string)

  function KeyOf(row: Reading): GroupKey
  {
    GroupKey(row.device, row.site, row.metric)
  }

  /** One accepted value together with its key. */
  datatype Sample = Sample(key: GroupKey, value: real)

  /** What one row adds: its key and value when the row passes the filter
      and its value converts (analyzer.py:200-205), nothing otherwise. */
  function SampleOf(row: Reading, c: Criteria): (r: Option<Sample>)
    ensures r.Some? <==> ShouldInclude(row, c) && ConvertToFloat(row.value).Some?
    ensures r.Some? ==> r.value == Sample(KeyOf(row), ConvertToFloat(row.value).value)
  {
    if ShouldInclude(row, c) then
      match ConvertToFloat(row.value)
      case Some(v) => Some(Sample(KeyOf(row), v))
      case None => None
    else None
  }

  /** `f` applied to every element of `s`. */
  function Map<A, B>(f: A -> B, s: seq<A>): (r: seq<B>)
    ensures |r| == |s| && forall i :: 0 <= i < |s| ==> r[i] == f(s[i])
  {
    if s == [] then [] else [f(s[0])] + Map(f, s[1..])
  }

  /** The samples of all rows, row by row. */
  function Samples(rows: seq<Reading>, c: Criteria): (r: seq<Option<Sample>>)
  {
    Map(row => SampleOf(row, c), rows)
  }

  predicate AddsTo(s: Option<Sample>, k: GroupKey)
  {
    s.Some? && s.value.key == k
  }

  predicate Distinct<T(==)>(s: seq<T>)
  {
    forall i, j :: 0 <= i < j < |s| ==> s[i] != s[j]
  }

  // ---------------------------------------------------------------------
  // Reference definitions of the grouping

  /** Sample by sample, the value each adds to group `k`, if any. */
  function Tagged(samples: seq<Option<Sample>>, k: GroupKey): (r: seq<Option<real>>)
    ensures |r| == |samples|
  {
    seq(|samples|, i requires 0 <= i < |samples| => if AddsTo(samples[i], k) then Some(samples[i].value.value) else None)
  }

  /** The values of group `k`: the values of the samples with that key, in
      input order. */
  function GroupValues(samples: seq<Option<Sample>>, k: GroupKey): seq<real>
  {
    Present(Tagged(samples, k))
  }

  /** Index of the first sample of group `k`, or `|samples|`. */
  function FirstIndex(samples: seq<Option<Sample>>, k: GroupKey): (n: nat)
    ensures n <= |samples|
    ensures forall i :: 0 <= i < n && i < |samples| ==> !AddsTo(samples[i], k)
    ensures n < |samples| ==> AddsTo(samples[n], k)
  {
    if samples == [] then 0
    else if AddsTo(samples[0], k) then 0
    else 1 + FirstIndex(samples[1..], k)
  }

  /** The keys in the order `defaultdict` creates them: a key enters when
      its first value is appended. */
  function KeyOrder(samples: seq<Option<Sample>>): seq<GroupKey>
  {
    if samples == [] then []
    else
      var prev := KeyOrder(samples[..|samples| - 1]);
      var s := samples[|samples| - 1];
      if s.Some? && s.value.key !in prev then prev + [s.value.key] else prev
  }

  /** `aggregations[key]` on a `defaultdict(list)`: an absent key reads as
      the empty list. */
  function Lookup(groups: map<GroupKey, seq<real>>, k: GroupKey): (r: seq<real>)
    ensures k !in groups ==> r == []
    ensures k in groups ==> r == groups[k]
  {
    if k in groups then groups[k] else []
  }

  /** `order` and `groups` hold the grouping of `samples`: its keys in
      creation order and each key's values. */
  ghost predicate IsGrouping(samples: seq<Option<Sample>>, order: seq<GroupKey>, groups: map<GroupKey, seq<real>>)
  {
    order == KeyOrder(samples) &&
    (forall k :: k in groups <==> k in order) &&
    (forall k :: Lookup(groups, k) == GroupValues(samples, k))
  }

  /** `order'` and `groups'` are `order` and `groups` after appending the
      value of `s` to its key's list, or unchanged when `s` holds none. */
  predicate Appended(order: seq<GroupKey>, groups: map<GroupKey, seq<real>>, s: Option<Sample>,
                     order': seq<GroupKey>, groups': map<GroupKey, seq<real>>)
  {
    match s
    case None => order' == order && groups' == groups
    case Some(x) =>
      order' == (if x.key in groups then order else order + [x.key]) &&
      groups' == groups[x.key := Lookup(groups, x.key) + [x.value]]
  }

  // ---------------------------------------------------------------------
  // The grouping table, updated in place

  /** `aggregations = defaultdict(list)`: the groups in creation order and
      the list of each. */
  class GroupTable {
    var order: seq<GroupKey>
    var groups: map<GroupKey, seq<real>>

    /** Every key appears once in `order`, exactly the keys of `groups` do,
        and a key only exists once a value was appended to it. */
    ghost predicate Valid()
      reads this
    {
      Distinct(order) &&
      (forall k :: k in groups <==> k in order) &&
      (forall k :: k in groups ==> groups[k] != [])
    }

    constructor ()
      ensures Valid()
      ensures order == [] && groups == map[]
    {
      order := [];
      groups := map[];
    }

    /** `aggregations[key].append(value)`: the value goes to the end of the
        key's list, a new key goes to the end of the order, and every other
        list is unchanged. */
    method Append(key: GroupKey, value: real)
      requires Valid()
      modifies this
      ensures Valid()
      ensures order == if key in old(groups) then old(order) else old(order) + [key]
      ensures groups == old(groups)[key := Lookup(old(groups), key) + [value]]
    {
      if key in groups {
        groups := groups[key := groups[key] + [value]];
      } else {
        assert Lookup(groups, key) + [value] == [value];
        order := order + [key];
        groups := groups[key := [value]];
      }
    }
  }

  /** The body of the loop at analyzer.py:198-205: a row that passes the
      filter and whose value converts appends that value to its key's list;
      any other row leaves the table as it was. */
  method AddRow(table: GroupTable, row: Reading, c: Criteria)
    requires table.Valid()
    modifies table
    ensures table.Valid()
    ensures Appended(old(table.order), old(table.groups), SampleOf(row, c), table.order, table.groups)
  {
    if ShouldInclude(row, c) {
      var key := KeyOf(row);
      var value := ConvertToFloat(row.value);
      if value.Some? {
        table.Append(key, value.value);
      }
    }
  }

  /** The loop of analyzer.py:198-205: every accepted value is appended to
      its key's list.  The result is the table's order and lists, which are
      the groups of the rows' samples. */
  method Aggregate(rows: seq<Reading>, c: Criteria) returns (order: seq<GroupKey>, groups: map<GroupKey, seq<real>>)
    ensures order == KeyOrder(Samples(rows, c))
    ensures forall k :: k in groups <==> k in order
    ensures forall k :: Lookup(groups, k) == GroupValues(Samples(rows, c), k)
  {
    ghost var samples := Samples(rows, c);
    var table := new GroupTable();
    var i := 0;
    while i < |rows|
      invariant 0 <= i <= |rows|
      invariant table.Valid()
      invariant IsGrouping(samples[..i], table.order, table.groups)
    {
      ghost var order0, groups0 := table.order, table.groups;
      AddRow(table, rows[i], c);
      SliceSnoc(samples, i);
      AppendStep(samples[..i], samples[i], order0, groups0, table.order, table.groups);
      i := i + 1;
    }
    SliceAll(samples);
    order, groups := table.order, table.groups;
  }

  // ---------------------------------------------------------------------
  // Lemmas about the grouping

  /** One step of the loop: appending the value of sample `s` (if any)
      turns the groups of `samples` into the groups of `samples + [s]`. */
  lemma AppendStep(samples: seq<Option<Sample>>, s: Option<Sample>,
                   order: seq<GroupKey>, groups: map<GroupKey, seq<real>>,
                   order': seq<GroupKey>, groups': map<GroupKey, seq<real>>)
    requires IsGrouping(samples, order, groups)
    requires Appended(order, groups, s, order', groups')
    ensures IsGrouping(samples + [s], order', groups')
  {
    assert (samples + [s])[..|samples|] == samples;
    forall k
      ensures Lookup(groups', k) == GroupValues(samples + [s], k)
    {
      GroupValuesSnoc(samples, s, k);
    }
  }

  lemma SliceSnoc<T>(s: seq<T>, i: nat)
    requires i < |s|
    ensures s[..i + 1] == s[..i] + [s[i]]
  {
  }

  lemma SliceAll<T>(s: seq<T>)
    ensures s[..|s|] == s
  {
  }

  lemma MapConcat<A, B>(f: A -> B, a: seq<A>, b: seq<A>)
    ensures Map(f, a + b) == Map(f, a) + Map(f, b)
  {
    var l, ma, mb := Map(f, a + b), Map(f, a), Map(f, b);
    var r := ma + mb;
    assert |l| == |r|;
    forall i | 0 <= i < |l| ensures l[i] == r[i] {
      if i < |a| {
        assert l[i] == f(a[i]) by { assert (a + b)[i] == a[i]; }
        assert r[i] == ma[i];
      } else {
        assert l[i] == f(b[i - |a|]) by { assert (a + b)[i] == b[i - |a|]; }
        assert r[i] == mb[i - |a|];
      }
    }
  }

  /** The samples of consecutive parts of the input are consecutive. */
  lemma SamplesConcat(a: seq<Reading>, b: seq<Reading>, c: Criteria)
    ensures Samples(a + b, c) == Samples(a, c) + Samples(b, c)
  {
    MapConcat(row => SampleOf(row, c), a, b);
  }

  lemma {:induction false} PresentConcat(a: seq<Option<real>>, b: seq<Option<real>>)
    ensures Present(a + b) == Present(a) + Present(b)
  {
    if a == [] {
      assert a + b == b;
    } else {
      assert (a + b)[0] == a[0];
      assert (a + b)[1..] == a[1..] + b;
      PresentConcat(a[1..], b);
    }
  }

  /** Splitting the input splits every group: the values of `a + b` are those
      of `a` followed by those of `b`. */
  lemma GroupValuesConcat(a: seq<Option<Sample>>, b: seq<Option<Sample>>, k: GroupKey)
    ensures GroupValues(a + b, k) == GroupValues(a, k) + GroupValues(b, k)
  {
    assert Tagged(a + b, k) == Tagged(a, k) + Tagged(b, k);
    PresentConcat(Tagged(a, k), Tagged(b, k));
  }

  /** One more sample appends its value to its own group, and to no other. */
  lemma GroupValuesSnoc(samples: seq<Option<Sample>>, s: Option<Sample>, k: GroupKey)
    ensures GroupValues(samples + [s], k)
            == GroupValues(samples, k) + (if AddsTo(s, k) then [s.value.value] else [])
  {
    GroupValuesConcat(samples, [s], k);
    assert Tagged([s], k)[1..] == [];
  }

  /** A sample without a value may be removed from anywhere without
      changing any group. */
  lemma EmptySampleContributesNothing(a: seq<Option<Sample>>, b: seq<Option<Sample>>, k: GroupKey)
    ensures GroupValues(a + [None] + b, k) == GroupValues(a + b, k)
  {
    GroupValuesConcat(a + [None], b, k);
    GroupValuesSnoc(a, None, k);
    GroupValuesConcat(a, b, k);
  }

  lemma SamplesOfOne(row: Reading, c: Criteria)
    ensures Samples([row], c) == [SampleOf(row, c)]
  {
  }

  /** A sample without a value creates no key, wherever it stands. */
  lemma {:induction false} EmptySampleCreatesNoKey(a: seq<Option<Sample>>, b: seq<Option<Sample>>)
    ensures KeyOrder(a + [None] + b) == KeyOrder(a + b)
    decreases |b|
  {
    if b == [] {
      assert a + [None] + b == a + [None];
      assert (a + [None])[..|a|] == a;
      assert a + b == a;
    } else {
      var b', s := b[..|b| - 1], b[|b| - 1];
      var x, y := a + [None] + b, a + b;
      assert x[..|x| - 1] == a + [None] + b' && x[|x| - 1] == s;
      assert y[..|y| - 1] == a + b' && y[|y| - 1] == s;
      EmptySampleCreatesNoKey(a, b');
    }
  }

  /** A row that the filter rejects, or whose value does not convert, may be
      removed from anywhere in the input without changing any group or the
      order of the keys. */
  lemma IgnoredRowContributesNothing(a: seq<Reading>, row: Reading, b: seq<Reading>, c: Criteria, k: GroupKey)
    requires !ShouldInclude(row, c) || ConvertToFloat(row.value).None?
    ensures GroupValues(Samples(a + [row] + b, c), k) == GroupValues(Samples(a + b, c), k)
    ensures KeyOrder(Samples(a + [row] + b, c)) == KeyOrder(Samples(a + b, c))
  {
    SamplesConcat(a + [row], b, c);
    SamplesConcat(a, [row], c);
    SamplesConcat(a, b, c);
    SamplesOfOne(row, c);
    EmptySampleContributesNothing(Samples(a, c), Samples(b, c), k);
    EmptySampleCreatesNoKey(Samples(a, c), Samples(b, c));
  }

  /** Filtering only shrinks the groups: every group under criteria `c`
      holds at most as many values as the same group without any criteria. */
  lemma FilteredGroupNoLarger(rows: seq<Reading>, c: Criteria, k: GroupKey)
    ensures |GroupValues(Samples(rows, c), k)| <= |GroupValues(Samples(rows, NoCriteria), k)|
  {
    var x, y := Samples(rows, c), Samples(rows, NoCriteria);
    forall i | 0 <= i < |rows| ensures AddsTo(x[i], k) ==> AddsTo(y[i], k) {
      SampleNarrows(rows[i], c, k);
    }
    FewerAddsNoLarger(x, y, k);
  }

  /** A row that adds to group `k` under some criteria adds to it without any. */
  lemma SampleNarrows(row: Reading, c: Criteria, k: GroupKey)
    ensures AddsTo(SampleOf(row, c), k) ==> AddsTo(SampleOf(row, NoCriteria), k)
  {
    FilterNarrows(row, c);
  }

  /** Where every sample of `x` that adds to `k` stands opposite one of `y`
      that does, group `k` of `x` is no larger than that of `y`. */
  lemma {:induction false} FewerAddsNoLarger(x: seq<Option<Sample>>, y: seq<Option<Sample>>, k: GroupKey)
    requires |x| == |y|
    requires forall i :: 0 <= i < |x| ==> AddsTo(x[i], k) ==> AddsTo(y[i], k)
    ensures |GroupValues(x, k)| <= |GroupValues(y, k)|
    decreases |x|
  {
    if x != [] {
      var n := |x| - 1;
      assert x == x[..n] + [x[n]] && y == y[..n] + [y[n]];
      GroupValuesSnoc(x[..n], x[n], k);
      GroupValuesSnoc(y[..n], y[n], k);
      FewerAddsNoLarger(x[..n], y[..n], k);
    }
  }

  /** An empty group is one that no sample adds to. */
  lemma {:induction false} GroupValuesEmpty(samples: seq<Option<Sample>>, k: GroupKey)
    ensures GroupValues(samples, k) == [] <==> FirstIndex(samples, k) == |samples|
  {
    if samples != [] {
      assert [samples[0]] + samples[1..] == samples;
      GroupValuesConcat([samples[0]], samples[1..], k);
      assert Tagged([samples[0]], k)[1..] == [];
      GroupValuesEmpty(samples[1..], k);
    }
  }

  lemma {:induction false} FirstIndexSnoc(samples: seq<Option<Sample>>, s: Option<Sample>, k: GroupKey)
    ensures FirstIndex(samples + [s], k)
            == if FirstIndex(samples, k) < |samples| || AddsTo(s, k) then FirstIndex(samples, k) else |samples| + 1
  {
    if samples == [] {
      assert [s][1..] == [];
    } else {
      assert (samples + [s])[1..] == samples[1..] + [s];
      FirstIndexSnoc(samples[1..], s, k);
    }
  }

  /** A key is in the order exactly when some sample adds to its group. */
  lemma {:induction false} KeyOrderMembers(samples: seq<Option<Sample>>, k: GroupKey)
    ensures k in KeyOrder(samples) <==> FirstIndex(samples, k) < |samples|
  {
    if samples != [] {
      var prefix := samples[..|samples| - 1];
      var s := samples[|samples| - 1];
      assert prefix + [s] == samples;
      KeyOrderMembers(prefix, k);
      FirstIndexSnoc(prefix, s, k);
    }
  }

  /** A key is in the order exactly when its group is non-empty. */
  lemma KeysAreNonEmptyGroups(samples: seq<Option<Sample>>, k: GroupKey)
    ensures k in KeyOrder(samples) <==> GroupValues(samples, k) != []
  {
    KeyOrderMembers(samples, k);
    GroupValuesEmpty(samples, k);
  }

  /** No key is created twice. */
  lemma {:induction false} KeyOrderDistinct(samples: seq<Option<Sample>>)
    ensures Distinct(KeyOrder(samples))
  {
    if samples != [] {
      KeyOrderDistinct(samples[..|samples| - 1]);
    }
  }

  /** First-occurrence order: keys are listed by the index of the first
      sample that adds a value to them. */
  lemma {:induction false} KeyOrderByFirstOccurrence(samples: seq<Option<Sample>>, p: nat, q: nat)
    requires p < q < |KeyOrder(samples)|
    ensures FirstIndex(samples, KeyOrder(samples)[p]) < FirstIndex(samples, KeyOrder(samples)[q])
  {
    var prefix := samples[..|samples| - 1];
    var s := samples[|samples| - 1];
    assert prefix + [s] == samples;
    var prev := KeyOrder(prefix);
    var kp, kq := KeyOrder(samples)[p], KeyOrder(samples)[q];
    assert p < |prev| && kp == prev[p];
    KeyOrderMembers(prefix, kp);
    FirstIndexSnoc(prefix, s, kp);
    FirstIndexSnoc(prefix, s, kq);
    if q < |prev| {
      assert kq == prev[q];
      KeyOrderByFirstOccurrence(prefix, p, q);
    } else {
      assert kq == s.value.key && kq !in prev;
      KeyOrderMembers(prefix, kq);
    }
  }

  /** The keys created by a prefix of the input come first, in the same
      order. */
  lemma {:induction false} KeyOrderExtends(samples: seq<Option<Sample>>, more: seq<Option<Sample>>)
    ensures KeyOrder(samples) <= KeyOrder(samples + more)
  {
    if more == [] {
      assert samples + more == samples;
    } else {
      var shorter := samples + more[..|more| - 1];
      assert (samples + more)[..|samples + more| - 1] == shorter;
      KeyOrderExtends(samples, more[..|more| - 1]);
      assert KeyOrder(shorter) <= KeyOrder(samples + more);
    }
  }

  /** Three temperature values of one device and two humidity values of
      another, in that order (the grouping of the analyzer's end-to-end test
      data). */
  function ExampleSamples(temp: GroupKey, hum: GroupKey): seq<Option<Sample>>
  {
    [Some(Sample(temp, 10.0)), Some(Sample(temp, 20.0)), Some(Sample(temp, 30.0))] +
    [Some(Sample(hum, 50.0)), Some(Sample(hum, 55.0))]
  }

  /** Two groups, the temperature group first. */
  lemma KeyOrderExample(temp: GroupKey, hum: GroupKey)
    requires temp != hum
    ensures KeyOrder(ExampleSamples(temp, hum)) == [temp, hum]
  {
    var samples := ExampleSamples(temp, hum);
    var t := samples[..3];
    assert KeyOrder([t[0]]) == [temp] by { assert [t[0]][..0] == []; }
    assert KeyOrder(t[..2]) == [temp] by { assert t[..2][..1] == [t[0]]; }
    assert KeyOrder(t) == [temp] by { assert t[..|t| - 1] == t[..2]; }
    assert KeyOrder(samples[..4]) == [temp, hum] by { assert samples[..4][..3] == t; }
    assert samples[..|samples| - 1] == samples[..4];
  }

  /** The temperature group holds its three values in input order. */
  lemma TemperatureGroupExample(temp: GroupKey, hum: GroupKey)
    requires temp != hum
    ensures GroupValues(ExampleSamples(temp, hum), temp) == [10.0, 20.0, 30.0]
  {
    var t := [Some(Sample(temp, 10.0)), Some(Sample(temp, 20.0)), Some(Sample(temp, 30.0))];
    var h := [Some(Sample(hum, 50.0)), Some(Sample(hum, 55.0))];
    GroupValuesConcat(t, h, temp);
    TaggedExample(t, h, temp, hum);
    var x: seq<Option<real>> := [Some(10.0), Some(20.0), Some(30.0)];
    assert Present(x) == [10.0, 20.0, 30.0] by {
      var x2: seq<Option<real>> := [Some(30.0)];
      var x1: seq<Option<real>> := [Some(20.0)] + x2;
      assert x == [Some(10.0)] + x1;
      PresentCons(Some(30.0), []);
      assert x2 == [Some(30.0)] + [];
      PresentCons(Some(20.0), x2);
      PresentCons(Some(10.0), x1);
    }
    var n: seq<Option<real>> := [None, None];
    assert Present(n) == [] by {
      assert n[1..] == [None] && n[1..][1..] == [];
    }
    assert ExampleSamples(temp, hum) == t + h;
  }

  /** The humidity group holds its two values in input order. */
  lemma HumidityGroupExample(temp: GroupKey, hum: GroupKey)
    requires temp != hum
    ensures GroupValues(ExampleSamples(temp, hum), hum) == [50.0, 55.0]
  {
    var t := [Some(Sample(temp, 10.0)), Some(Sample(temp, 20.0)), Some(Sample(temp, 30.0))];
    var h := [Some(Sample(hum, 50.0)), Some(Sample(hum, 55.0))];
    GroupValuesConcat(t, h, hum);
    TaggedExample(t, h, temp, hum);
    var x: seq<Option<real>> := [Some(50.0), Some(55.0)];
    assert Present(x) == [50.0, 55.0] by {
      var x1: seq<Option<real>> := [Some(55.0)];
      assert x == [Some(50.0)] + x1;
      PresentCons(Some(55.0), []);
      assert x1 == [Some(55.0)] + [];
      PresentCons(Some(50.0), x1);
    }
    var n: seq<Option<real>> := [None, None, None];
    assert Present(n) == [] by {
      assert n[1..] == [None, None] && n[1..][1..] == [None] && n[1..][1..][1..] == [];
    }
    assert ExampleSamples(temp, hum) == t + h;
  }

  lemma TaggedExample(t: seq<Option<Sample>>, h: seq<Option<Sample>>, temp: GroupKey, hum: GroupKey)
    requires temp != hum
    requires t == [Some(Sample(temp, 10.0)), Some(Sample(temp, 20.0)), Some(Sample(temp, 30.0))]
    requires h == [Some(Sample(hum, 50.0)), Some(Sample(hum, 55.0))]
    ensures Tagged(t, temp) == [Some(10.0), Some(20.0), Some(30.0)] && Tagged(t, hum) == [None, None, None]
    ensures Tagged(h, temp) == [None, None] && Tagged(h, hum) == [Some(50.0), Some(55.0)]
  {
  }

  // ---------------------------------------------------------------------
  // The statistics loop

  /** One item of `stats`: the key, which carries device, site and metric,
      and the group's record. */
  datatype Entry = Entry(key: GroupKey, stats: Stats)

  /** The loop of analyzer.py:212-220: one record per group, in the order of
      the groups. */
  method ComputeAllStats(order: seq<GroupKey>, groups: map<GroupKey, seq<real>>, sqrt: real -> real)
    returns (entries: seq<Entry>)
    requires forall k :: k in order ==> k in groups
    ensures |entries| == |order|
    ensures forall i :: 0 <= i < |order| ==>
              entries[i] == Entry(order[i], ComputeStatistics(Lift(groups[order[i]]), sqrt))
  {
    entries := [];
    for i := 0 to |order|
      invariant |entries| == i
      invariant forall j :: 0 <= j < i ==>
                  entries[j] == Entry(order[j], ComputeStatistics(Lift(groups[order[j]]), sqrt))
    {
      var key := order[i];
      entries := entries + [Entry(key, ComputeStatistics(Lift(groups[key]), sqrt))];
    }
  }
}
