/** Aggregates over test results: totals, slow and flaky counts, and the summed average
    duration of the five slowest groups (internal/api/prevent.go). */
module Aggregates {
  import opened Permutations
  import opened Sorting
  import opened Sums
  import opened TestResults

  const SLOW_MS := 1000.0
  const TOP: nat := 5

  datatype Snapshot = Snapshot(
    totalDuration: real, slowestTestsDuration: real, totalSlowTests: int,
    totalFails: int, totalSkips: int, flakeCount: int, flakeRate: real)

  /** Indexing a Go map: a missing key reads as the zero value. */
  function StatAt(stats: map<string, Stat>, k: string): Stat {
    if k in stats then stats[k] else Stat(0.0, 0.0, 0, false)
  }

  function Averages(stats: map<string, Stat>, ks: seq<string>): seq<real> {
    if ks == [] then []
    else Averages(stats, ks[..|ks| - 1]) + [StatAt(stats, ks[|ks| - 1]).avgDuration]
  }

  datatype Trait = Slow | Flaky

  predicate Shows(t: Trait, s: Stat) {
    match t
    case Slow => s.avgDuration >= SLOW_MS
    case Flaky => s.isFlaky
  }

  function Count(t: Trait, stats: map<string, Stat>, ks: seq<string>): nat {
    if ks == [] then 0
    else Count(t, stats, ks[..|ks| - 1]) + if Shows(t, StatAt(stats, ks[|ks| - 1])) then 1 else 0
  }

  // ----- descending order

  predicate Descending(xs: seq<real>) {
    forall i, j :: 0 <= i < j < |xs| ==> xs[i] >= xs[j]
  }

  predicate Larger(a: real, b: real) {
    a > b
  }

  /** One descending arrangement; DescendingUnique shows that there is no other. */
  function SortDesc(xs: seq<real>): seq<real> {
    Sort(Larger, xs)
  }

  lemma SortDescSpec(xs: seq<real>)
    ensures Descending(SortDesc(xs)) && multiset(SortDesc(xs)) == multiset(xs)
  {
    SortSorts(Larger, xs);
  }

  lemma LastIsLeast(ys: seq<real>, x: real)
    requires Descending(ys) && x in multiset(ys)
    ensures ys != [] && ys[|ys| - 1] <= x
  {
    var j := FindIndex(x, ys);
  }

  lemma {:induction false} DescendingUnique(xs: seq<real>, ys: seq<real>)
    requires Descending(xs) && Descending(ys) && multiset(xs) == multiset(ys)
    ensures xs == ys
  {
    SameLength(xs, ys);
    if xs != [] {
      LastIsLeast(ys, xs[|xs| - 1]);
      LastIsLeast(xs, ys[|ys| - 1]);
      SameInit(xs, ys);
      DescendingUnique(xs[..|xs| - 1], ys[..|ys| - 1]);
    }
  }

  function Least(n: nat, m: nat): nat {
    if n <= m then n else m
  }

  function TopSum(xs: seq<real>): real {
    var d := SortDesc(xs);
    Sum(d[..Least(TOP, |d|)])
  }

  /** The snapshot when the groups are visited in the order `ks`. */
  function SnapshotOf(items: seq<TestResult>, ks: seq<string>): Snapshot {
    var stats := Stats(items);
    Snapshot(
      Total(Durations, items) as real, TopSum(Averages(stats, ks)), Count(Slow, stats, ks),
      Total(Failures, items), Total(Skips, items), Count(Flaky, stats, ks),
      if |ks| > 0 then Count(Flaky, stats, ks) as real / |ks| as real else 0.0)
  }

  // ----- the loops

  method SumItems(items: seq<TestResult>) returns (duration: real, fails: int, skips: int)
    ensures duration == Total(Durations, items) as real
    ensures fails == Total(Failures, items) && skips == Total(Skips, items)
  {
    duration, fails, skips := 0.0, 0, 0;
    for i := 0 to |items|
      invariant duration == Total(Durations, items[..i]) as real
      invariant fails == Total(Failures, items[..i]) && skips == Total(Skips, items[..i])
    {
      assert items[..i + 1][..i] == items[..i];
      duration := duration + items[i].durationMs as real;
      fails := fails + items[i].failureCount;
      skips := skips + items[i].skippedCount;
    }
    assert items[..|items|] == items;
  }

  /** `for _, stat := range stats`: the loop may take the keys in any order. */
  method VisitStats(stats: map<string, Stat>)
    returns (slow: int, flaky: int, averages: seq<real>, ghost order: seq<string>)
    ensures Enumerates(order, stats.Keys) && |order| == |stats|
    ensures slow == Count(Slow, stats, order) && flaky == Count(Flaky, stats, order)
    ensures averages == Averages(stats, order)
  {
    slow, flaky, averages, order := 0, 0, [], [];
    var todo := stats.Keys;
    while todo != {}
      invariant todo <= stats.Keys
      invariant Enumerates(order, stats.Keys - todo) && |order| + |todo| == |stats|
      invariant slow == Count(Slow, stats, order) && flaky == Count(Flaky, stats, order)
      invariant averages == Averages(stats, order)
      decreases todo
    {
      var k :| k in todo;
      var stat := stats[k];
      if stat.avgDuration >= SLOW_MS {
        slow := slow + 1;
      }
      if stat.isFlaky {
        flaky := flaky + 1;
      }
      averages := averages + [stat.avgDuration];
      TakeOne(stats.Keys, todo, k);
      EnumeratesSnoc(order, stats.Keys - todo, k);
      AveragesSnoc(stats, order, k);
      CountSnoc(Slow, stats, order, k);
      CountSnoc(Flaky, stats, order, k);
      order := order + [k];
      todo := todo - {k};
    }
    assert stats.Keys - todo == stats.Keys;
  }

  lemma TakeOne(keys: set<string>, todo: set<string>, k: string)
    requires todo <= keys && k in todo
    ensures todo - {k} <= keys && k !in keys - todo && |todo - {k}| == |todo| - 1
    ensures keys - (todo - {k}) == keys - todo + {k}
  {
  }

  lemma CountSnoc(t: Trait, stats: map<string, Stat>, ks: seq<string>, k: string)
    ensures Count(t, stats, ks + [k]) == Count(t, stats, ks) + if Shows(t, StatAt(stats, k)) then 1 else 0
  {
    assert (ks + [k])[..|ks|] == ks;
  }

  lemma EnumeratesSnoc(ks: seq<string>, s: set<string>, k: string)
    requires Enumerates(ks, s) && k !in s
    ensures Enumerates(ks + [k], s + {k})
  {
  }

  method SumFirst(xs: seq<real>) returns (sum: real)
    ensures sum == Sum(xs[..Least(TOP, |xs|)])
  {
    sum := 0.0;
    for i := 0 to |xs|
      invariant sum == Sum(xs[..Least(TOP, i)])
    {
      if i >= TOP {
        break;
      }
      assert xs[..i + 1][..i] == xs[..i];
      sum := sum + xs[i];
    }
  }

  function SlowKeys(stats: map<string, Stat>): set<string> {
    set k | k in stats && stats[k].avgDuration >= 1000.0
  }

  function FlakyKeys(stats: map<string, Stat>): set<string> {
    set k | k in stats && stats[k].isFlaky
  }

  /** The keys that show a trait. */
  function Showing(t: Trait, stats: map<string, Stat>): set<string> {
    match t
    case Slow => SlowKeys(stats)
    case Flaky => FlakyKeys(stats)
  }

  function ShowingAmong(t: Trait, stats: map<string, Stat>, ks: seq<string>): set<string> {
    set k | k in ks && Shows(t, StatAt(stats, k))
  }

  lemma AmongSnoc(t: Trait, stats: map<string, Stat>, ks: seq<string>, k: string)
    ensures ShowingAmong(t, stats, ks + [k]) ==
            ShowingAmong(t, stats, ks) + if Shows(t, StatAt(stats, k)) then {k} else {}
  {
  }

  lemma {:induction false} CountAmong(t: Trait, stats: map<string, Stat>, ks: seq<string>)
    requires forall i, j :: 0 <= i < j < |ks| ==> ks[i] != ks[j]
    ensures Count(t, stats, ks) == |ShowingAmong(t, stats, ks)|
  {
    if ks != [] {
      var init, k := ks[..|ks| - 1], ks[|ks| - 1];
      CountAmong(t, stats, init);
      assert ks == init + [k] && k !in init;
      AmongSnoc(t, stats, init, k);
    }
  }

  lemma CountIs(t: Trait, stats: map<string, Stat>, ks: seq<string>)
    requires Enumerates(ks, stats.Keys)
    ensures Count(t, stats, ks) == |Showing(t, stats)|
  {
    CountAmong(t, stats, ks);
    assert ShowingAmong(t, stats, ks) == Showing(t, stats);
  }

  /** The share of a number; none of nothing. */
  function Share(a: int, n: nat): real {
    if n == 0 then 0.0 else a as real / n as real
  }

  lemma KeyCount(ks: seq<string>, s: set<string>)
    requires Enumerates(ks, s)
    ensures |ks| == |s|
    decreases |ks|
  {
    if ks == [] {
      assert s == {};
    } else {
      var init, k := ks[..|ks| - 1], ks[|ks| - 1];
      assert ks == init + [k];
      assert Enumerates(init, s - {k});
      KeyCount(init, s - {k});
    }
  }

  lemma SnapshotFigures(items: seq<TestResult>, ks: seq<string>)
    requires Enumerates(ks, Stats(items).Keys)
    ensures var snapshot := SnapshotOf(items, ks);
            && snapshot.totalDuration == SumInts(DurationsOf(items)) as real
            && snapshot.totalFails == SumInts(FailuresOf(items)) && snapshot.totalSkips == SumInts(SkipsOf(items))
            && snapshot.totalSlowTests == |Showing(Slow, Stats(items))|
            && snapshot.flakeCount == |Showing(Flaky, Stats(items))|
            && snapshot.flakeRate == Share(snapshot.flakeCount, |Stats(items)|)
  {
    TotalsAre(items);
    CountIs(Slow, Stats(items), ks);
    CountIs(Flaky, Stats(items), ks);
    KeyCount(ks, Stats(items).Keys);
  }

  /** Whatever order the loop took: the totals are the sums over the items, the counts are the
      numbers of slow and of flaky groups, the rate is the share of the flaky ones, and the
      snapshot is the one for every order of the groups. */
  method BuildAggregates(items: seq<TestResult>) returns (snapshot: Snapshot)
    ensures snapshot.totalDuration == SumInts(DurationsOf(items)) as real
    ensures snapshot.totalFails == SumInts(FailuresOf(items)) && snapshot.totalSkips == SumInts(SkipsOf(items))
    ensures snapshot.totalSlowTests == |SlowKeys(Stats(items))| && snapshot.flakeCount == |FlakyKeys(Stats(items))|
    ensures snapshot.flakeRate == Share(snapshot.flakeCount, |Stats(items)|)
    ensures exists ks :: Enumerates(ks, Stats(items).Keys)
    ensures forall ks :: Enumerates(ks, Stats(items).Keys) ==> snapshot == SnapshotOf(items, ks)
  {
    var stats := BuildStats(items);
    var duration, fails, skips := SumItems(items);
    var slow, flaky, slowest, order := VisitStats(stats);
    var top := SumFirst(SortDesc(slowest));
    var rate := 0.0;
    if |stats| > 0 {
      rate := flaky as real / |stats| as real;
    }
    snapshot := Snapshot(duration, top, slow, fails, skips, flaky, rate);
    assert snapshot == SnapshotOf(items, order);
    SnapshotFigures(items, order);
    forall ks | Enumerates(ks, Stats(items).Keys)
      ensures snapshot == SnapshotOf(items, ks)
    {
      SnapshotIsOrderFree(items, order, items, ks);
    }
  }

  // ----- neither the map order nor the input order matters

  lemma EnumerationsAgree(a: seq<string>, b: seq<string>, s: set<string>)
    requires Enumerates(a, s) && Enumerates(b, s)
    ensures multiset(a) == multiset(b)
  {
    forall k
      ensures multiset(a)[k] == multiset(b)[k]
    {
      OccursOnce(a, k);
      OccursOnce(b, k);
      assert k in a <==> k in b;
    }
  }

  lemma {:induction false} OccursOnce(a: seq<string>, k: string)
    requires forall i, j :: 0 <= i < j < |a| ==> a[i] != a[j]
    ensures multiset(a)[k] == if k in a then 1 else 0
  {
    if a != [] {
      var init, x := a[..|a| - 1], a[|a| - 1];
      OccursOnce(init, k);
      assert a == init + [x];
      assert x !in init;
    }
  }

  lemma {:induction false} CountConcat(t: Trait, stats: map<string, Stat>, a: seq<string>, b: seq<string>)
    ensures Count(t, stats, a + b) == Count(t, stats, a) + Count(t, stats, b)
    ensures Averages(stats, a + b) == Averages(stats, a) + Averages(stats, b)
  {
    if b == [] {
      assert a + b == a;
    } else {
      assert (a + b)[..|a + b| - 1] == a + b[..|b| - 1];
      CountConcat(t, stats, a, b[..|b| - 1]);
    }
  }

  lemma {:induction false} VisitRemove(t: Trait, stats: map<string, Stat>, b: seq<string>, j: nat)
    requires j < |b|
    ensures var b' := b[..j] + b[j + 1..];
            && Count(t, stats, b) == Count(t, stats, b') + (if Shows(t, StatAt(stats, b[j])) then 1 else 0)
            && multiset(Averages(stats, b)) == multiset(Averages(stats, b')) + multiset{StatAt(stats, b[j]).avgDuration}
  {
    var b1, b2 := b[..j], b[j + 1..];
    assert b == (b1 + [b[j]]) + b2 && (b1 + [b[j]])[..j] == b1;
    CountConcat(t, stats, b1 + [b[j]], b2);
    CountConcat(t, stats, b1, b2);
  }

  lemma {:induction false} VisitPermutation(t: Trait, stats: map<string, Stat>, a: seq<string>, b: seq<string>)
    requires multiset(a) == multiset(b)
    ensures Count(t, stats, a) == Count(t, stats, b)
    ensures multiset(Averages(stats, a)) == multiset(Averages(stats, b))
  {
    SameLength(a, b);
    if a != [] {
      var j := FindLast(a, b);
      VisitPermutation(t, stats, a[..|a| - 1], b[..j] + b[j + 1..]);
      VisitRemove(t, stats, b, j);
    }
  }

  lemma TopSumPermutation(xs: seq<real>, ys: seq<real>)
    requires multiset(xs) == multiset(ys)
    ensures TopSum(xs) == TopSum(ys)
  {
    SortDescSpec(xs);
    SortDescSpec(ys);
    DescendingUnique(SortDesc(xs), SortDesc(ys));
  }

  /** Whatever order the maps are ranged over in, and however the input is ordered,
      the snapshot is the same. */
  lemma SnapshotIsOrderFree(s: seq<TestResult>, a: seq<string>, t: seq<TestResult>, b: seq<string>)
    requires multiset(s) == multiset(t)
    requires Enumerates(a, Stats(s).Keys) && Enumerates(b, Stats(t).Keys)
    ensures SnapshotOf(s, a) == SnapshotOf(t, b)
  {
    StatsOfPermutation(s, t);
    EnumerationsAgree(a, b, Stats(s).Keys);
    assert |multiset(a)| == |multiset(b)|;
    VisitPermutation(Slow, Stats(s), a, b);
    VisitPermutation(Flaky, Stats(s), a, b);
    TopSumPermutation(Averages(Stats(s), a), Averages(Stats(s), b));
    TotalPermutation(Durations, s, t);
    TotalPermutation(Failures, s, t);
    TotalPermutation(Skips, s, t);
  }

  // ----- the five slowest are optimal

  /** A prefix of a descending list outweighs any selection of the same size. */
  lemma {:induction false} PrefixIsBest(xs: seq<real>, ys: seq<real>)
    requires Descending(xs) && multiset(ys) <= multiset(xs)
    ensures |ys| <= |xs| && Sum(ys) <= Sum(xs[..|ys|])
    decreases |xs|
  {
    SubLength(ys, xs);
    if ys != [] {
      var init, x := xs[..|xs| - 1], xs[|xs| - 1];
      if x in multiset(ys) {
        var rest := TakeOut(xs, ys);
        PrefixIsBest(init, rest);
        LastIsSmallest(xs, |ys| - 1);
      } else {
        DropLast(xs);
        WithoutAbsent(multiset(ys), multiset(init), x);
        PrefixIsBest(init, ys);
        PrefixOfInit(xs, |ys|);
      }
    }
  }

  /** The selection without the smallest element is a selection of the others. */
  lemma TakeOut(xs: seq<real>, ys: seq<real>) returns (rest: seq<real>)
    requires xs != [] && multiset(ys) <= multiset(xs) && xs[|xs| - 1] in multiset(ys)
    ensures multiset(rest) <= multiset(xs[..|xs| - 1])
    ensures |rest| == |ys| - 1 && Sum(ys) == Sum(rest) + xs[|xs| - 1]
  {
    var j := FindIndex(xs[|xs| - 1], ys);
    rest := ys[..j] + ys[j + 1..];
    RemoveAt(ys, j);
    SumRemove(ys, j);
    DropLast(xs);
  }

  lemma PrefixOfInit(xs: seq<real>, n: nat)
    requires n < |xs|
    ensures xs[..|xs| - 1][..n] == xs[..n]
  {
  }

  lemma WithoutAbsent(m: multiset<real>, n: multiset<real>, x: real)
    requires m <= n + multiset{x} && x !in m
    ensures m <= n
  {
    forall v
      ensures m[v] <= n[v]
    {
    }
  }

  lemma {:induction false} LastIsSmallest(xs: seq<real>, n: nat)
    requires Descending(xs) && n < |xs|
    ensures xs[..|xs| - 1][..n] == xs[..n]
    ensures Sum(xs[..n]) + xs[|xs| - 1] <= Sum(xs[..n + 1])
  {
    assert xs[..n + 1][..n] == xs[..n];
  }

  lemma {:induction false} NonNegativePrefixGrows(xs: seq<real>, n: nat, m: nat)
    requires n <= m <= |xs|
    requires forall i :: 0 <= i < |xs| ==> xs[i] >= 0.0
    ensures Sum(xs[..n]) <= Sum(xs[..m])
    decreases m
  {
    if n < m {
      NonNegativePrefixGrows(xs, n, m - 1);
      assert xs[..m][..m - 1] == xs[..m - 1];
    }
  }

  /** What is left of an enumeration after some of its keys are picked. */
  lemma {:induction false} Complement(sel: seq<string>, ks: seq<string>) returns (rest: seq<string>)
    requires multiset(sel) <= multiset(ks)
    ensures multiset(sel + rest) == multiset(ks)
    decreases |sel|
  {
    if sel == [] {
      rest := ks;
      assert sel + rest == rest;
    } else {
      var init, x := sel[..|sel| - 1], sel[|sel| - 1];
      DropLast(sel);
      var j := FindIndex(x, ks);
      RemoveAt(ks, j);
      Cancel(multiset(init), multiset(ks), x);
      rest := Complement(init, ks[..j] + ks[j + 1..]);
      MoveOut(sel, rest);
    }
  }

  lemma DistinctIsSubset(sel: seq<string>, ks: seq<string>)
    requires forall i, j :: 0 <= i < j < |sel| ==> sel[i] != sel[j]
    requires forall i :: 0 <= i < |sel| ==> sel[i] in ks
    ensures multiset(sel) <= multiset(ks)
  {
    forall k
      ensures multiset(sel)[k] <= multiset(ks)[k]
    {
      OccursOnce(sel, k);
      if k in sel {
        assert k in ks;
      }
    }
  }

  lemma SelectionIsSubset(stats: map<string, Stat>, sel: seq<string>, ks: seq<string>)
    requires multiset(sel) <= multiset(ks)
    ensures multiset(Averages(stats, sel)) <= multiset(Averages(stats, ks))
  {
    var rest := Complement(sel, ks);
    VisitPermutation(Slow, stats, sel + rest, ks);
    CountConcat(Slow, stats, sel, rest);
  }

  lemma {:induction false} AveragesLength(stats: map<string, Stat>, ks: seq<string>)
    ensures |Averages(stats, ks)| == |ks|
    ensures forall i :: 0 <= i < |ks| ==> Averages(stats, ks)[i] == StatAt(stats, ks[i]).avgDuration
  {
    if ks != [] {
      AveragesLength(stats, ks[..|ks| - 1]);
    }
  }

  lemma {:induction false} NonNegativeTotal(items: seq<TestResult>, k: string)
    requires forall i :: 0 <= i < |items| ==> items[i].durationMs >= 0
    ensures Total(Durations, Group(items, k)) >= 0
  {
    if items != [] {
      var init, x := items[..|items| - 1], items[|items| - 1];
      NonNegativeTotal(init, k);
      Snoc(Group(init, k), x);
    }
  }

  lemma NonNegativeStat(items: seq<TestResult>, k: string)
    requires forall i :: 0 <= i < |items| ==> items[i].durationMs >= 0
    ensures StatAt(Stats(items), k).avgDuration >= 0.0
  {
    var g := Group(items, k);
    NonNegativeTotal(items, k);
    if Total(Tests, g) > 0 {
      RatioBound(Total(Durations, g), Total(Tests, g), 0.0);
    }
  }

  lemma NonNegativeAverages(items: seq<TestResult>, ks: seq<string>)
    requires forall i :: 0 <= i < |items| ==> items[i].durationMs >= 0
    ensures forall i :: 0 <= i < |Averages(Stats(items), ks)| ==> Averages(Stats(items), ks)[i] >= 0.0
  {
    AveragesLength(Stats(items), ks);
    forall i | 0 <= i < |ks|
      ensures StatAt(Stats(items), ks[i]).avgDuration >= 0.0
    {
      NonNegativeStat(items, ks[i]);
    }
  }

  lemma NonNegativeSorted(xs: seq<real>)
    requires forall i :: 0 <= i < |xs| ==> xs[i] >= 0.0
    ensures forall i :: 0 <= i < |SortDesc(xs)| ==> SortDesc(xs)[i] >= 0.0
  {
    SortDescSpec(xs);
    forall i | 0 <= i < |SortDesc(xs)|
      ensures SortDesc(xs)[i] >= 0.0
    {
      assert SortDesc(xs)[i] in multiset(xs);
      var j := FindIndex(SortDesc(xs)[i], xs);
    }
  }

  /** With non-negative durations no choice of at most five groups has a larger
      summed average than the reported slowest duration. */
  lemma SlowestIsUpperBound(items: seq<TestResult>, ks: seq<string>, sel: seq<string>)
    requires forall i :: 0 <= i < |items| ==> items[i].durationMs >= 0
    requires Enumerates(ks, Stats(items).Keys)
    requires forall i, j :: 0 <= i < j < |sel| ==> sel[i] != sel[j]
    requires |sel| <= 5 && forall i :: 0 <= i < |sel| ==> sel[i] in Stats(items)
    ensures Sum(Averages(Stats(items), sel)) <= SnapshotOf(items, ks).slowestTestsDuration
  {
    var stats := Stats(items);
    var d := SortDesc(Averages(stats, ks));
    SortDescSpec(Averages(stats, ks));
    DistinctIsSubset(sel, ks);
    SelectionIsSubset(stats, sel, ks);
    PrefixIsBest(d, Averages(stats, sel));
    AveragesLength(stats, sel);
    NonNegativeAverages(items, ks);
    NonNegativeSorted(Averages(stats, ks));
    NonNegativePrefixGrows(d, |sel|, Least(TOP, |d|));
  }

  lemma {:induction false} AveragesRemove(stats: map<string, Stat>, ks: seq<string>, j: nat)
    requires j < |ks| == |Averages(stats, ks)|
    ensures var avgs := Averages(stats, ks);
            && avgs[j] == StatAt(stats, ks[j]).avgDuration
            && Averages(stats, ks[..j] + ks[j + 1..]) == avgs[..j] + avgs[j + 1..]
  {
    var ks', avgs := ks[..j] + ks[j + 1..], Averages(stats, ks);
    AveragesLength(stats, ks);
    AveragesLength(stats, ks');
    var r := avgs[..j] + avgs[j + 1..];
    forall i | 0 <= i < |ks'|
      ensures Averages(stats, ks')[i] == r[i]
    {
      assert ks'[i] == if i < j then ks[i] else ks[i + 1];
    }
  }

  /** The keys can be arranged so that their averages read as a given permutation. */
  lemma {:induction false} Arrange(stats: map<string, Stat>, ks: seq<string>, xs: seq<real>)
    returns (arranged: seq<string>)
    requires multiset(xs) == multiset(Averages(stats, ks))
    ensures multiset(arranged) == multiset(ks) && Averages(stats, arranged) == xs
    decreases |xs|
  {
    AveragesLength(stats, ks);
    SameLength(xs, Averages(stats, ks));
    if xs == [] {
      arranged := [];
    } else {
      var init, x := xs[..|xs| - 1], xs[|xs| - 1];
      assert xs == init + [x];
      var j := FindLast(xs, Averages(stats, ks));
      AveragesRemove(stats, ks, j);
      var arrangedInit := Arrange(stats, ks[..j] + ks[j + 1..], init);
      arranged := arrangedInit + [ks[j]];
      PutBack(ks, j, arrangedInit);
      AveragesSnoc(stats, arrangedInit, ks[j]);
    }
  }

  lemma PutBack(ks: seq<string>, j: nat, init: seq<string>)
    requires j < |ks| && multiset(init) == multiset(ks[..j] + ks[j + 1..])
    ensures multiset(init + [ks[j]]) == multiset(ks)
  {
    RemoveAt(ks, j);
    Append(init, ks[j]);
    Cancel(multiset(init), multiset(ks), ks[j]);
  }

  lemma AveragesSnoc(stats: map<string, Stat>, ks: seq<string>, k: string)
    ensures Averages(stats, ks + [k]) == Averages(stats, ks) + [StatAt(stats, k).avgDuration]
  {
    assert (ks + [k])[..|ks|] == ks;
  }

  /** ... and some choice of at most five groups reaches it. */
  lemma SlowestIsAttained(items: seq<TestResult>, ks: seq<string>) returns (sel: seq<string>)
    requires Enumerates(ks, Stats(items).Keys)
    ensures |sel| <= 5 && forall i :: 0 <= i < |sel| ==> sel[i] in Stats(items)
    ensures forall i, j :: 0 <= i < j < |sel| ==> sel[i] != sel[j]
    ensures Sum(Averages(Stats(items), sel)) == SnapshotOf(items, ks).slowestTestsDuration
  {
    sel := TopIsAttained(Stats(items), ks);
  }

  lemma TopIsAttained(stats: map<string, Stat>, ks: seq<string>) returns (sel: seq<string>)
    requires Enumerates(ks, stats.Keys)
    ensures |sel| <= 5 && forall i :: 0 <= i < |sel| ==> sel[i] in stats
    ensures forall i, j :: 0 <= i < j < |sel| ==> sel[i] != sel[j]
    ensures Sum(Averages(stats, sel)) == TopSum(Averages(stats, ks))
  {
    var arranged := ArrangeDesc(stats, ks);
    PermutationEnumerates(ks, arranged, stats.Keys);
    var n := Least(TOP, |arranged|);
    TopOfArranged(stats, ks, arranged);
    EnumeratesPrefix(arranged, stats.Keys, n);
    sel := arranged[..n];
  }

  lemma TopOfArranged(stats: map<string, Stat>, ks: seq<string>, arranged: seq<string>)
    requires Averages(stats, arranged) == SortDesc(Averages(stats, ks))
    ensures Sum(Averages(stats, arranged[..Least(TOP, |arranged|)])) == TopSum(Averages(stats, ks))
  {
    AveragesLength(stats, arranged);
    AveragesPrefix(stats, arranged, Least(TOP, |arranged|));
  }

  lemma EnumeratesPrefix(ks: seq<string>, s: set<string>, n: nat)
    requires Enumerates(ks, s) && n <= |ks|
    ensures forall i :: 0 <= i < n ==> ks[..n][i] in s
    ensures forall i, j :: 0 <= i < j < n ==> ks[..n][i] != ks[..n][j]
  {
    forall i | 0 <= i < n
      ensures ks[..n][i] in s
    {
      assert ks[i] in ks;
    }
  }

  lemma ArrangeDesc(stats: map<string, Stat>, ks: seq<string>) returns (arranged: seq<string>)
    ensures multiset(arranged) == multiset(ks)
    ensures Averages(stats, arranged) == SortDesc(Averages(stats, ks))
  {
    SortDescSpec(Averages(stats, ks));
    arranged := Arrange(stats, ks, SortDesc(Averages(stats, ks)));
  }

  lemma PermutationEnumerates(a: seq<string>, b: seq<string>, s: set<string>)
    requires Enumerates(a, s) && multiset(a) == multiset(b)
    ensures Enumerates(b, s)
  {
    DistinctPermutation(a, b);
    forall k
      ensures k in b <==> k in s
    {
      assert k in a <==> k in multiset(a);
      assert k in b <==> k in multiset(b);
    }
  }

  lemma AveragesPrefix(stats: map<string, Stat>, ks: seq<string>, n: nat)
    requires n <= |ks| == |Averages(stats, ks)|
    ensures Averages(stats, ks[..n]) == Averages(stats, ks)[..n]
  {
    AveragesLength(stats, ks);
    AveragesLength(stats, ks[..n]);
  }

  lemma DistinctPermutation(a: seq<string>, b: seq<string>)
    requires forall i, j :: 0 <= i < j < |a| ==> a[i] != a[j]
    requires multiset(a) == multiset(b)
    ensures forall i, j :: 0 <= i < j < |b| ==> b[i] != b[j]
  {
    forall i, j | 0 <= i < j < |b|
      ensures b[i] != b[j]
    {
      OccursOnce(a, b[i]);
      RemoveAt(b, i);
      var b' := b[..i] + b[i + 1..];
      assert b'[j - 1] == b[j];
      assert b[j] in multiset(b');
    }
  }
}
