/** The two rankings of analyzer.py:222-234:
    `sorted(stats.items(), key=..., reverse=True)[:10]` by average and by
    standard deviation.  Python's sort is stable, also with `reverse=True`:
    entries with equal keys keep the order they had in `stats`. */
module Ranking {
  import opened Statistics
  import opened Aggregation

  /** The field a ranking sorts by. */
  datatype Field = Average | StdDev

  /** The sort key `lambda x: x[1]['average']` or `x[1]['std_dev']`. */
  function KeyValue(e: Entry, f: Field): real
  {
    match f
    case Average => e.stats.average
    case StdDev => e.stats.stdDev
  }

  /** Non-increasing by field `f`. */
  predicate SortedDescending(s: seq<Entry>, f: Field)
  {
    forall i, j :: 0 <= i < j < |s| ==> KeyValue(s[j], f) <= KeyValue(s[i], f)
  }

  /** The entries of `s` whose key is `v`, in their order in `s`. */
  function WithKey(s: seq<Entry>, f: Field, v: real): seq<Entry>
  {
    if s == [] then []
    else (if KeyValue(s[0], f) == v then [s[0]] else []) + WithKey(s[1..], f, v)
  }

  /** Insert `x` into the descending sequence `t` in front of the first
      entry whose key is not greater than its own: before all the entries
      with an equal key, which come after `x` in the input. */
  function Insert(x: Entry, t: seq<Entry>, f: Field): (r: seq<Entry>)
    ensures |r| == |t| + 1
    ensures multiset(r) == multiset(t) + multiset{x}
  {
    if t == [] || KeyValue(t[0], f) <= KeyValue(x, f) then [x] + t
    else
      assert t == [t[0]] + t[1..];
      [t[0]] + Insert(x, t[1..], f)
  }

  /** The stable descending sort, as an insertion sort from the back. */
  function SortDescending(s: seq<Entry>, f: Field): (r: seq<Entry>)
    ensures |r| == |s|
    ensures multiset(r) == multiset(s)
  {
    if s == [] then []
    else
      assert s == [s[0]] + s[1..];
      Insert(s[0], SortDescending(s[1..], f), f)
  }

  /** How many entries a ranking keeps. */
  const TopCount: nat := 10

  /** `sorted(...)[:10]` */
  function Top(s: seq<Entry>, f: Field): (r: seq<Entry>)
    ensures |r| == if |s| < TopCount then |s| else TopCount
  {
    var sorted := SortDescending(s, f);
    sorted[..if |s| < TopCount then |s| else TopCount]
  }

  // ---------------------------------------------------------------------
  // The sort

  lemma {:induction false} InsertSorted(x: Entry, t: seq<Entry>, f: Field)
    requires SortedDescending(t, f)
    ensures SortedDescending(Insert(x, t, f), f)
  {
    if t != [] && KeyValue(x, f) < KeyValue(t[0], f) {
      InsertSorted(x, t[1..], f);
      var r := Insert(x, t, f);
      forall j | 0 < j < |r|
        ensures KeyValue(r[j], f) <= KeyValue(t[0], f)
      {
        assert r[j] in multiset(Insert(x, t[1..], f));
        assert r[j] == x || r[j] in t[1..];
      }
    }
  }

  /** The result is non-increasing in the field. */
  lemma {:induction false} SortDescendingSorted(s: seq<Entry>, f: Field)
    ensures SortedDescending(SortDescending(s, f), f)
  {
    if s != [] {
      SortDescendingSorted(s[1..], f);
      InsertSorted(s[0], SortDescending(s[1..], f), f);
    }
  }

  lemma {:induction false} WithKeyConcat(a: seq<Entry>, b: seq<Entry>, f: Field, v: real)
    ensures WithKey(a + b, f, v) == WithKey(a, f, v) + WithKey(b, f, v)
  {
    if a == [] {
      assert a + b == b;
    } else {
      var h := if KeyValue(a[0], f) == v then [a[0]] else [];
      assert (a + b)[0] == a[0] && (a + b)[1..] == a[1..] + b;
      assert WithKey(a + b, f, v) == h + WithKey(a[1..] + b, f, v);
      WithKeyConcat(a[1..], b, f, v);
      assert WithKey(a, f, v) == h + WithKey(a[1..], f, v);
    }
  }

  lemma WithKeyCons(e: Entry, s: seq<Entry>, f: Field, v: real)
    ensures WithKey([e] + s, f, v) == (if KeyValue(e, f) == v then [e] else []) + WithKey(s, f, v)
  {
    assert ([e] + s)[0] == e && ([e] + s)[1..] == s;
  }

  /** Inserting `x` puts it before every entry with the same key. */
  lemma {:induction false} InsertWithKey(x: Entry, t: seq<Entry>, f: Field, v: real)
    ensures WithKey(Insert(x, t, f), f, v) == (if KeyValue(x, f) == v then [x] else []) + WithKey(t, f, v)
  {
    if t == [] || KeyValue(t[0], f) <= KeyValue(x, f) {
      WithKeyCons(x, t, f, v);
    } else {
      var u := Insert(x, t[1..], f);
      var hx := if KeyValue(x, f) == v then [x] else [];
      var h0 := if KeyValue(t[0], f) == v then [t[0]] else [];
      calc {
        WithKey(Insert(x, t, f), f, v);
        { assert Insert(x, t, f) == [t[0]] + u; }
        WithKey([t[0]] + u, f, v);
        { WithKeyCons(t[0], u, f, v); }
        h0 + WithKey(u, f, v);
        { InsertWithKey(x, t[1..], f, v); }
        h0 + (hx + WithKey(t[1..], f, v));
        // `t[0]` and `x` do not both have key `v`: the key of `t[0]` is the greater
        hx + (h0 + WithKey(t[1..], f, v));
        { WithKeyCons(t[0], t[1..], f, v); assert [t[0]] + t[1..] == t; }
        hx + WithKey(t, f, v);
      }
    }
  }

  /** Stability: for every key, the entries with that key appear in the
      sorted result in the order they have in the input. */
  lemma {:induction false} SortDescendingStable(s: seq<Entry>, f: Field, v: real)
    ensures WithKey(SortDescending(s, f), f, v) == WithKey(s, f, v)
  {
    if s != [] {
      SortDescendingStable(s[1..], f, v);
      InsertWithKey(s[0], SortDescending(s[1..], f), f, v);
    }
  }

  lemma {:induction false} InsertDistinct(x: Entry, t: seq<Entry>, f: Field)
    requires Distinct(t) && x !in t
    ensures Distinct(Insert(x, t, f))
  {
    if t != [] && KeyValue(x, f) < KeyValue(t[0], f) {
      InsertDistinct(x, t[1..], f);
      var r := Insert(x, t, f);
      assert t[0] !in multiset(Insert(x, t[1..], f)) by {
        assert t[0] !in t[1..];
      }
      assert r == [t[0]] + Insert(x, t[1..], f);
    }
  }

  /** Sorting a list without duplicates gives a list without duplicates. */
  lemma {:induction false} SortDescendingDistinct(s: seq<Entry>, f: Field)
    requires Distinct(s)
    ensures Distinct(SortDescending(s, f))
  {
    if s != [] {
      SortDescendingDistinct(s[1..], f);
      assert s[0] !in s[1..];
      assert s[0] !in multiset(SortDescending(s[1..], f));
      InsertDistinct(s[0], SortDescending(s[1..], f), f);
    }
  }

  // ---------------------------------------------------------------------
  // The top ten

  /** A ranking is non-increasing in its field. */
  lemma TopSorted(s: seq<Entry>, f: Field)
    ensures SortedDescending(Top(s, f), f)
  {
    SortDescendingSorted(s, f);
    var sorted, top := SortDescending(s, f), Top(s, f);
    forall i, j | 0 <= i < j < |top|
      ensures KeyValue(top[j], f) <= KeyValue(top[i], f)
    {
      assert top[i] == sorted[i] && top[j] == sorted[j];
    }
  }

  /** The ranking followed by the entries it leaves out is the sorted list. */
  lemma TopSplit(s: seq<Entry>, f: Field)
    ensures var sorted := SortDescending(s, f);
            sorted == Top(s, f) + sorted[|Top(s, f)|..]
  {
  }

  /** A ranking takes its entries from the input and takes each no more
      often than the input holds it. */
  lemma TopFromInput(s: seq<Entry>, f: Field)
    ensures multiset(Top(s, f)) <= multiset(s)
  {
    TopSplit(s, f);
  }

  lemma SortedTail(t: seq<Entry>, f: Field, n: nat, e: Entry, i: nat)
    requires SortedDescending(t, f) && i < n <= |t| && e in t[n..]
    ensures KeyValue(e, f) <= KeyValue(t[i], f)
  {
    var j :| 0 <= j < |t[n..]| && t[n..][j] == e;
    assert t[n + j] == e;
  }

  /** No entry left out of a ranking has a greater key than an entry in it. */
  lemma TopDominates(s: seq<Entry>, f: Field, e: Entry, i: nat)
    requires e in multiset(s) - multiset(Top(s, f))
    requires i < |Top(s, f)|
    ensures KeyValue(e, f) <= KeyValue(Top(s, f)[i], f)
  {
    var sorted, top := SortDescending(s, f), Top(s, f);
    TopSplit(s, f);
    var rest := sorted[|top|..];
    assert multiset(s) == multiset(top) + multiset(rest);
    assert e in rest;
    SortDescendingSorted(s, f);
    SortedTail(sorted, f, |top|, e, i);
    assert sorted[i] == top[i];
  }

  /** Equal keys keep their input order in a ranking as well: the entries
      with key `v` in the ranking are the first of those in the input. */
  lemma TopStable(s: seq<Entry>, f: Field, v: real)
    ensures WithKey(Top(s, f), f, v) <= WithKey(s, f, v)
  {
    var sorted, top := SortDescending(s, f), Top(s, f);
    TopSplit(s, f);
    WithKeyConcat(top, sorted[|top|..], f, v);
    SortDescendingStable(s, f, v);
  }

  /** A ranking of entries without duplicates has no duplicates. */
  lemma TopDistinct(s: seq<Entry>, f: Field)
    requires Distinct(s)
    ensures Distinct(Top(s, f))
  {
    SortDescendingDistinct(s, f);
    var sorted, top := SortDescending(s, f), Top(s, f);
    forall i, j | 0 <= i < j < |top|
      ensures top[i] != top[j]
    {
      assert top[i] == sorted[i] && top[j] == sorted[j];
    }
  }
}
