/** Test-analytics engine: results grouped by suite and branch, per-group statistics
    (internal/api/prevent.go). Floating-point values are reals. */
module TestResults {
  import opened Permutations
  import S = Sums
  import opened Text

  datatype TestResult = TestResult(
    id: string, suiteName: string, branchName: string, commitSha: string,
    durationMs: int, testCount: int, failureCount: int, skippedCount: int, dateCreated: int)

  /** Suite and branch, trimmed; a nameless suite is a group of its own. */
  function Key(item: TestResult): string {
    var name := TrimSpace(item.suiteName);
    (if name == "" then item.id else name) + ['\0'] + TrimSpace(item.branchName)
  }

  function Keys(items: seq<TestResult>): set<string> {
    set i | 0 <= i < |items| :: Key(items[i])
  }

  function Group(items: seq<TestResult>, k: string): seq<TestResult> {
    if items == [] then []
    else
      var g, x := Group(items[..|items| - 1], k), items[|items| - 1];
      if Key(x) == k then g + [x] else g
  }

  datatype Field = Durations | Tests | Failures | Skips

  function Value(f: Field, item: TestResult): int {
    match f
    case Durations => item.durationMs
    case Tests => item.testCount
    case Failures => item.failureCount
    case Skips => item.skippedCount
  }

  function Total(f: Field, items: seq<TestResult>): int {
    if items == [] then 0
    else Total(f, items[..|items| - 1]) + Value(f, items[|items| - 1])
  }

  predicate HasFailing(items: seq<TestResult>) {
    exists i :: 0 <= i < |items| && items[i].failureCount > 0
  }

  predicate HasPassing(items: seq<TestResult>) {
    exists i :: 0 <= i < |items| && items[i].failureCount <= 0
  }

  datatype Stat = Stat(avgDuration: real, flakeRate: real, totalFlakyFailCount: int, isFlaky: bool)

  function Ratio(a: int, b: int): real
    requires b > 0
  {
    a as real / b as real
  }

  /** The statistics of one group, read off its items. */
  function StatOf(group: seq<TestResult>): Stat {
    var d, t, f := Total(Durations, group), Total(Tests, group), Total(Failures, group);
    var flaky := HasFailing(group) && HasPassing(group);
    Stat(if t > 0 then Ratio(d, t) else d as real,
         if flaky && t > 0 then Ratio(f, t) else 0.0,
         if flaky then f else 0,
         flaky)
  }

  function Stats(items: seq<TestResult>): map<string, Stat> {
    map k | k in Keys(items) :: StatOf(Group(items, k))
  }

  // ----- the accumulator loop

  /** What an accumulator holds. */
  datatype Sums = Sums(durationMs: int, testCount: int, failCount: int, hasPass: bool, hasFailure: bool)

  function Plus(a: Sums, item: TestResult): Sums {
    Sums(a.durationMs + item.durationMs, a.testCount + item.testCount, a.failCount + item.failureCount,
         a.hasPass || item.failureCount <= 0, a.hasFailure || item.failureCount > 0)
  }

  function SumsOf(group: seq<TestResult>): Sums {
    if group == [] then Sums(0, 0, 0, false, false)
    else Plus(SumsOf(group[..|group| - 1]), group[|group| - 1])
  }

  lemma {:induction false} SumsOfMeans(group: seq<TestResult>)
    ensures SumsOf(group) == Sums(Total(Durations, group), Total(Tests, group), Total(Failures, group),
                                  HasPassing(group), HasFailing(group))
  {
    if group != [] {
      var init, x := group[..|group| - 1], group[|group| - 1];
      SumsOfMeans(init);
      assert init + [x] == group;
      Snoc(init, x);
    }
  }

  class Accumulator {
    var durationMs: int
    var testCount: int
    var failCount: int
    var hasPass: bool
    var hasFailure: bool

    constructor ()
      ensures Held() == SumsOf([])
    {
      durationMs, testCount, failCount, hasPass, hasFailure := 0, 0, 0, false, false;
    }

    function Held(): Sums
      reads this
    {
      Sums(durationMs, testCount, failCount, hasPass, hasFailure)
    }

    method Add(item: TestResult)
      modifies this
      ensures Held() == Plus(old(Held()), item)
    {
      durationMs := durationMs + item.durationMs;
      testCount := testCount + item.testCount;
      failCount := failCount + item.failureCount;
      if item.failureCount > 0 {
        hasFailure := true;
      } else {
        hasPass := true;
      }
    }
  }

  function Finish(a: Sums): Stat {
    var avg := if a.testCount > 0 then Ratio(a.durationMs, a.testCount) else a.durationMs as real;
    if a.hasFailure && a.hasPass then
      Stat(avg, if a.testCount > 0 then Ratio(a.failCount, a.testCount) else 0.0, a.failCount, true)
    else Stat(avg, 0.0, 0, false)
  }

  lemma Snoc(group: seq<TestResult>, item: TestResult)
    ensures forall f :: Total(f, group + [item]) == Total(f, group) + Value(f, item)
    ensures HasPassing(group + [item]) <==> HasPassing(group) || item.failureCount <= 0
    ensures HasFailing(group + [item]) <==> HasFailing(group) || item.failureCount > 0
  {
    var s := group + [item];
    assert s[..|s| - 1] == group;
    assert forall i :: 0 <= i < |group| ==> s[i] == group[i];
    assert s[|group|] == item;
  }

  const ZERO_SUMS := Sums(0, 0, 0, false, false)

  function AddTo(m: map<string, Sums>, item: TestResult): map<string, Sums> {
    var key := Key(item);
    m[key := Plus(if key in m then m[key] else ZERO_SUMS, item)]
  }

  function SumsMap(items: seq<TestResult>): map<string, Sums> {
    if items == [] then map[] else AddTo(SumsMap(items[..|items| - 1]), items[|items| - 1])
  }

  /** The accumulator objects hold `m`, and no two keys share one. */
  ghost predicate Holds(accs: map<string, Accumulator>, m: map<string, Sums>)
    reads accs.Values
  {
    && accs.Keys == m.Keys
    && (forall k :: k in accs ==> accs[k].Held() == m[k])
    && (forall k, l :: k in accs && l in accs && accs[k] == accs[l] ==> k == l)
  }

  method AddItem(accs: map<string, Accumulator>, ghost m: map<string, Sums>, item: TestResult)
    returns (r: map<string, Accumulator>)
    requires Holds(accs, m)
    modifies accs.Values
    ensures Holds(r, AddTo(m, item)) && fresh(r.Values - accs.Values)
  {
    var key := Key(item);
    r := accs;
    if key !in r {
      var acc := new Accumulator();
      r := r[key := acc];
    }
    r[key].Add(item);
  }

  method Accumulate(items: seq<TestResult>) returns (accs: map<string, Accumulator>)
    ensures fresh(accs.Values) && Holds(accs, SumsMap(items))
  {
    accs := map[];
    for i := 0 to |items|
      invariant fresh(accs.Values) && Holds(accs, SumsMap(items[..i]))
    {
      accs := AddItem(accs, SumsMap(items[..i]), items[i]);
      assert items[..i + 1][..i] == items[..i];
    }
    assert items[..|items|] == items;
  }

  lemma {:induction false} SumsMapMeans(items: seq<TestResult>)
    ensures SumsMap(items).Keys == Keys(items)
    ensures forall k :: k in SumsMap(items) ==> Finish(SumsMap(items)[k]) == StatOf(Group(items, k))
  {
    SumsMapIsGroups(items);
    forall k | k in SumsMap(items)
      ensures Finish(SumsMap(items)[k]) == StatOf(Group(items, k))
    {
      SumsOfMeans(Group(items, k));
    }
  }

  lemma {:induction false} SumsMapIsGroups(items: seq<TestResult>)
    ensures SumsMap(items).Keys == Keys(items)
    ensures forall k :: k in SumsMap(items) ==> SumsMap(items)[k] == SumsOf(Group(items, k))
  {
    if items != [] {
      var init, x := items[..|items| - 1], items[|items| - 1];
      SumsMapIsGroups(init);
      GroupsSnoc(init, x, items);
      GroupEmpty(init, Key(x));
    }
  }

  /** Ranging over the accumulators in any order gives the same map. */
  method FinishAll(accs: map<string, Accumulator>, ghost m: map<string, Sums>) returns (stats: map<string, Stat>)
    requires Holds(accs, m)
    ensures stats == map k | k in m :: Finish(m[k])
  {
    stats := map[];
    var todo := accs.Keys;
    while todo != {}
      invariant todo <= accs.Keys && stats.Keys == accs.Keys - todo
      invariant forall k :: k in stats ==> stats[k] == Finish(m[k])
      decreases todo
    {
      var key :| key in todo;
      stats := stats[key := Finish(accs[key].Held())];
      todo := todo - {key};
    }
  }

  /** One pass over the items updates one accumulator object per key; the map it
      returns is the statistics of every group. */
  method BuildStats(items: seq<TestResult>) returns (stats: map<string, Stat>)
    ensures stats == Stats(items)
  {
    var accs := Accumulate(items);
    stats := FinishAll(accs, SumsMap(items));
    SumsMapMeans(items);
  }

  lemma GroupsSnoc(seen: seq<TestResult>, item: TestResult, s: seq<TestResult>)
    requires s == seen + [item]
    ensures Keys(s) == Keys(seen) + {Key(item)}
    ensures forall k :: k != Key(item) ==> Group(s, k) == Group(seen, k)
    ensures SumsOf(Group(s, Key(item))) == Plus(SumsOf(Group(seen, Key(item))), item)
  {
    assert s[..|seen|] == seen && s[..|seen| + 1] == s;
    KeysSnoc(s, |seen|);
    var g := Group(seen, Key(item));
    assert (g + [item])[..|g|] == g;
  }

  lemma KeysSnoc(items: seq<TestResult>, i: nat)
    requires i < |items|
    ensures Keys(items[..i + 1]) == Keys(items[..i]) + {Key(items[i])}
  {
    var s, t := items[..i], items[..i + 1];
    assert forall j :: 0 <= j < i ==> s[j] == t[j];
    assert t[i] == items[i];
    forall k | k in Keys(t)
      ensures k in Keys(s) + {Key(items[i])}
    {
      var j :| 0 <= j < |t| && Key(t[j]) == k;
      if j < i {
        assert Key(s[j]) == k;
      }
    }
    forall k | k in Keys(s)
      ensures k in Keys(t)
    {
      var j :| 0 <= j < |s| && Key(s[j]) == k;
      assert Key(t[j]) == k;
    }
  }

  lemma {:induction false} GroupEmpty(items: seq<TestResult>, k: string)
    ensures k !in Keys(items) <==> Group(items, k) == []
  {
    if items != [] {
      GroupEmpty(items[..|items| - 1], k);
      KeysSnoc(items, |items| - 1);
      assert items[..|items|] == items;
    }
  }

  // ----- groups partition the items

  ghost predicate Enumerates(ks: seq<string>, s: set<string>) {
    && (forall i, j :: 0 <= i < j < |ks| ==> ks[i] != ks[j])
    && (forall k :: k in ks <==> k in s)
  }

  /** The total of a field over the groups listed in `ks`. */
  function GroupTotals(f: Field, items: seq<TestResult>, ks: seq<string>): int {
    if ks == [] then 0
    else GroupTotals(f, items, ks[1..]) + Total(f, Group(items, ks[0]))
  }

  lemma {:induction false} GroupTotalsSnoc(f: Field, items: seq<TestResult>, x: TestResult, ks: seq<string>)
    requires forall i, j :: 0 <= i < j < |ks| ==> ks[i] != ks[j]
    ensures GroupTotals(f, items + [x], ks) ==
            GroupTotals(f, items, ks) + if Key(x) in ks then Value(f, x) else 0
  {
    if ks != [] {
      GroupTotalsSnoc(f, items, x, ks[1..]);
      assert (items + [x])[..|items|] == items;
      Snoc(Group(items, ks[0]), x);
      assert ks[0] !in ks[1..];
      assert Key(x) in ks <==> Key(x) == ks[0] || Key(x) in ks[1..];
    }
  }

  lemma {:induction false} GroupTotalsCover(f: Field, items: seq<TestResult>, ks: seq<string>)
    requires forall i, j :: 0 <= i < j < |ks| ==> ks[i] != ks[j]
    requires forall i :: 0 <= i < |items| ==> Key(items[i]) in ks
    ensures GroupTotals(f, items, ks) == Total(f, items)
  {
    if items == [] {
      GroupTotalsOfNothing(f, ks);
    } else {
      var init, x := items[..|items| - 1], items[|items| - 1];
      GroupTotalsCover(f, init, ks);
      assert init + [x] == items;
      GroupTotalsSnoc(f, init, x, ks);
    }
  }

  lemma GroupTotalsOfNothing(f: Field, ks: seq<string>)
    ensures GroupTotals(f, [], ks) == 0
  {
  }

  /** Nothing is lost or counted twice: in whatever order the groups are visited, the
      group totals of every field add up to the total over all items. */
  lemma GroupsConserve(f: Field, items: seq<TestResult>, ks: seq<string>)
    requires Enumerates(ks, Stats(items).Keys)
    ensures GroupTotals(f, items, ks) == Total(f, items)
  {
    forall i | 0 <= i < |items|
      ensures Key(items[i]) in ks
    {
      assert Key(items[i]) in Keys(items);
    }
    GroupTotalsCover(f, items, ks);
  }

  // ----- the group average is a weighted mean

  function ItemAverage(item: TestResult): real {
    if item.testCount <= 0 then item.durationMs as real else Ratio(item.durationMs, item.testCount)
  }

  lemma RatioBound(a: int, b: int, r: real)
    requires b > 0
    ensures r <= Ratio(a, b) <==> r * b as real <= a as real
    ensures Ratio(a, b) <= r <==> a as real <= r * b as real
  {
    assert a as real == Ratio(a, b) * b as real;
  }

  /** How much longer the group took than `r` milliseconds a test. */
  function Excess(group: seq<TestResult>, r: real): real {
    if group == [] then 0.0
    else
      var x := group[|group| - 1];
      Excess(group[..|group| - 1], r) + (x.durationMs as real - r * x.testCount as real)
  }

  lemma {:induction false} ExcessTotals(group: seq<TestResult>, r: real)
    ensures Excess(group, r) == Total(Durations, group) as real - r * Total(Tests, group) as real
  {
    if group != [] {
      ExcessTotals(group[..|group| - 1], r);
    }
  }

  lemma ExcessSnoc(group: seq<TestResult>, x: TestResult, r: real)
    ensures Excess(group + [x], r) == Excess(group, r) + (x.durationMs as real - r * x.testCount as real)
  {
    assert (group + [x])[..|group|] == group;
  }

  lemma ItemExcess(x: TestResult, lo: real, hi: real)
    requires x.testCount > 0 && lo <= ItemAverage(x) <= hi
    ensures lo * x.testCount as real <= x.durationMs as real <= hi * x.testCount as real
  {
    RatioBound(x.durationMs, x.testCount, lo);
    RatioBound(x.durationMs, x.testCount, hi);
  }

  /** The signs of the excesses of the items of a group carry over to the group. */
  lemma {:induction false} ExcessSign(items: seq<TestResult>, k: string, lo: real, hi: real)
    requires forall i :: 0 <= i < |items| ==> items[i].testCount > 0
    requires forall i :: 0 <= i < |items| && Key(items[i]) == k ==> lo <= ItemAverage(items[i]) <= hi
    ensures var g := Group(items, k); Excess(g, lo) >= 0.0 >= Excess(g, hi) && Total(Tests, g) >= |g|
  {
    if items != [] {
      var init, x := items[..|items| - 1], items[|items| - 1];
      ExcessSign(init, k, lo, hi);
      if Key(x) == k {
        ItemExcess(x, lo, hi);
        ExcessSnoc(Group(init, k), x, lo);
        ExcessSnoc(Group(init, k), x, hi);
        Snoc(Group(init, k), x);
      }
    }
  }

  lemma TotalsBounded(group: seq<TestResult>, lo: real, hi: real)
    requires group != [] && Excess(group, lo) >= 0.0 >= Excess(group, hi) && Total(Tests, group) >= |group|
    ensures lo <= Ratio(Total(Durations, group), Total(Tests, group)) <= hi
  {
    ExcessTotals(group, lo);
    ExcessTotals(group, hi);
    RatioBound(Total(Durations, group), Total(Tests, group), lo);
    RatioBound(Total(Durations, group), Total(Tests, group), hi);
  }

  /** When every item ran at least one test, the average of a group lies between any
      bounds that hold for the averages of its items. */
  lemma GroupAverageBounded(items: seq<TestResult>, k: string, lo: real, hi: real)
    requires k in Stats(items)
    requires forall i :: 0 <= i < |items| ==> items[i].testCount > 0
    requires forall i :: 0 <= i < |items| && Key(items[i]) == k ==> lo <= ItemAverage(items[i]) <= hi
    ensures lo <= Stats(items)[k].avgDuration <= hi
  {
    GroupEmpty(items, k);
    ExcessSign(items, k, lo, hi);
    TotalsBounded(Group(items, k), lo, hi);
  }

  lemma {:induction false} GroupMembers(items: seq<TestResult>, k: string)
    ensures forall i :: 0 <= i < |Group(items, k)| ==>
              Group(items, k)[i] in items && Key(Group(items, k)[i]) == k
    ensures forall i :: 0 <= i < |items| && Key(items[i]) == k ==> items[i] in Group(items, k)
  {
    if items != [] {
      GroupMembers(items[..|items| - 1], k);
    }
  }

  /** A group is flaky exactly when it has an item with failures and one without. */
  lemma FlakyIff(items: seq<TestResult>, k: string)
    requires k in Stats(items)
    ensures Stats(items)[k].isFlaky <==>
            (exists x :: x in items && Key(x) == k && x.failureCount > 0) &&
            (exists y :: y in items && Key(y) == k && y.failureCount <= 0)
  {
    var g := Group(items, k);
    GroupMembers(items, k);
    if HasFailing(g) && HasPassing(g) {
      var i :| 0 <= i < |g| && g[i].failureCount > 0;
      var j :| 0 <= j < |g| && g[j].failureCount <= 0;
      assert g[i] in items && g[j] in items;
    }
  }

  // ----- statistics do not depend on the order of the items

  lemma {:induction false} GroupMultiset(items: seq<TestResult>, k: string, x: TestResult)
    ensures multiset(Group(items, k))[x] == if Key(x) == k then multiset(items)[x] else 0
  {
    if items != [] {
      GroupMultiset(items[..|items| - 1], k, x);
      assert items == items[..|items| - 1] + [items[|items| - 1]];
    }
  }

  lemma {:induction false} TotalConcat(f: Field, a: seq<TestResult>, b: seq<TestResult>)
    ensures Total(f, a + b) == Total(f, a) + Total(f, b)
  {
    if b == [] {
      assert a + b == a;
    } else {
      assert (a + b)[..|a + b| - 1] == a + b[..|b| - 1];
      TotalConcat(f, a, b[..|b| - 1]);
    }
  }

  lemma TotalRemove(f: Field, t: seq<TestResult>, j: nat)
    requires j < |t|
    ensures Total(f, t) == Total(f, t[..j] + t[j + 1..]) + Value(f, t[j])
  {
    var a, b := t[..j], t[j + 1..];
    assert t == (a + [t[j]]) + b && (a + [t[j]])[..j] == a;
    TotalConcat(f, a, b);
    TotalConcat(f, a + [t[j]], b);
  }

  lemma {:induction false} TotalPermutation(f: Field, s: seq<TestResult>, t: seq<TestResult>)
    requires multiset(s) == multiset(t)
    ensures Total(f, s) == Total(f, t)
  {
    if s == [] {
      assert |multiset(t)| == 0;
    } else {
      var j := FindLast(s, t);
      TotalPermutation(f, s[..|s| - 1], t[..j] + t[j + 1..]);
      TotalRemove(f, t, j);
    }
  }

  lemma SameStatOf(s: seq<TestResult>, t: seq<TestResult>)
    requires multiset(s) == multiset(t)
    ensures StatOf(s) == StatOf(t)
  {
    TotalPermutation(Durations, s, t);
    TotalPermutation(Tests, s, t);
    TotalPermutation(Failures, s, t);
    SameFlags(s, t);
    SameFlags(t, s);
  }

  lemma SameFlags(s: seq<TestResult>, t: seq<TestResult>)
    requires multiset(s) == multiset(t)
    ensures HasFailing(s) ==> HasFailing(t)
    ensures HasPassing(s) ==> HasPassing(t)
  {
    forall i | 0 <= i < |s|
      ensures exists j :: 0 <= j < |t| && t[j] == s[i]
    {
      assert s[i] in multiset(t);
    }
  }

  lemma SameKeys(s: seq<TestResult>, t: seq<TestResult>)
    requires multiset(s) == multiset(t)
    ensures Keys(s) <= Keys(t)
  {
    forall i | 0 <= i < |s|
      ensures Key(s[i]) in Keys(t)
    {
      assert s[i] in multiset(t);
      var j :| 0 <= j < |t| && t[j] == s[i];
    }
  }

  /** Reordering the input changes no statistic. */
  lemma StatsOfPermutation(s: seq<TestResult>, t: seq<TestResult>)
    requires multiset(s) == multiset(t)
    ensures Stats(s) == Stats(t)
  {
    SameKeys(s, t);
    SameKeys(t, s);
    forall k | k in Keys(s)
      ensures StatOf(Group(s, k)) == StatOf(Group(t, k))
    {
      forall x
        ensures multiset(Group(s, k))[x] == multiset(Group(t, k))[x]
      {
        GroupMultiset(s, k, x);
        GroupMultiset(t, k, x);
      }
      SameStatOf(Group(s, k), Group(t, k));
    }
  }

  // ----- the figures of a group

  function DurationsOf(items: seq<TestResult>): seq<int> {
    seq(|items|, i requires 0 <= i < |items| => items[i].durationMs)
  }

  function TestsOf(items: seq<TestResult>): seq<int> {
    seq(|items|, i requires 0 <= i < |items| => items[i].testCount)
  }

  function FailuresOf(items: seq<TestResult>): seq<int> {
    seq(|items|, i requires 0 <= i < |items| => items[i].failureCount)
  }

  function SkipsOf(items: seq<TestResult>): seq<int> {
    seq(|items|, i requires 0 <= i < |items| => items[i].skippedCount)
  }

  lemma {:induction false} TotalsAre(items: seq<TestResult>)
    ensures Total(Durations, items) == S.SumInts(DurationsOf(items))
    ensures Total(Tests, items) == S.SumInts(TestsOf(items))
    ensures Total(Failures, items) == S.SumInts(FailuresOf(items))
    ensures Total(Skips, items) == S.SumInts(SkipsOf(items))
  {
    if items != [] {
      var init := items[..|items| - 1];
      TotalsAre(init);
      assert DurationsOf(items)[..|items| - 1] == DurationsOf(init) && TestsOf(items)[..|items| - 1] == TestsOf(init);
      assert FailuresOf(items)[..|items| - 1] == FailuresOf(init) && SkipsOf(items)[..|items| - 1] == SkipsOf(init);
    }
  }

  /** The items of one key, in order. */
  lemma {:induction false} GroupIs(items: seq<TestResult>, k: string)
    ensures multiset(Group(items, k)) <= multiset(items)
    ensures forall x :: x in multiset(Group(items, k)) ==> Key(x) == k
    ensures forall x :: Key(x) == k ==> multiset(Group(items, k))[x] == multiset(items)[x]
  {
    if items != [] {
      GroupIs(items[..|items| - 1], k);
      DropLast(items);
      if Key(items[|items| - 1]) == k {
        Append(Group(items[..|items| - 1], k), items[|items| - 1]);
      }
    }
  }

  /** The average duration of a group is its duration per test. */
  lemma AverageOf(items: seq<TestResult>, k: string)
    requires k in Stats(items)
    ensures var g := Group(items, k);
            var tests, duration := S.SumInts(TestsOf(g)), S.SumInts(DurationsOf(g));
            Stats(items)[k].avgDuration == if tests > 0 then Ratio(duration, tests) else duration as real
  {
    var g := Group(items, k);
    TotalsAre(g);
  }

  /** A flaky group reports its failures and their share of the tests; another group none. */
  lemma FlakyFigures(items: seq<TestResult>, k: string)
    requires k in Stats(items)
    ensures var g, stat := Group(items, k), Stats(items)[k];
            var tests, failures := S.SumInts(TestsOf(g)), S.SumInts(FailuresOf(g));
            && stat.totalFlakyFailCount == (if stat.isFlaky then failures else 0)
            && stat.flakeRate == if stat.isFlaky && tests > 0 then Ratio(failures, tests) else 0.0
  {
    var g := Group(items, k);
    TotalsAre(g);
  }

  // ----- what is one group

  predicate NoNul(s: string) {
    forall i :: 0 <= i < |s| ==> s[i] != '\0'
  }

  /** The suite, or the id of a result without one. */
  function NameOf(item: TestResult): string {
    if TrimSpace(item.suiteName) == "" then item.id else TrimSpace(item.suiteName)
  }

  /** Two results are in one group exactly when suite and branch agree up to blanks around them;
      a result without a suite is known by its id. */
  lemma SameGroupIff(a: TestResult, b: TestResult)
    requires NoNul(NameOf(a)) && NoNul(NameOf(b))
    ensures Key(a) == Key(b) <==> NameOf(a) == NameOf(b) && TrimSpace(a.branchName) == TrimSpace(b.branchName)
  {
    if Key(a) == Key(b) {
      SplitAtNul(NameOf(a), TrimSpace(a.branchName), NameOf(b), TrimSpace(b.branchName));
    }
  }

  lemma SplitAtNul(a: string, x: string, b: string, y: string)
    requires NoNul(a) && NoNul(b) && a + ['\0'] + x == b + ['\0'] + y
    ensures a == b && x == y
  {
    var s, t := a + ['\0'] + x, b + ['\0'] + y;
    NulAt(a, x);
    NulAt(b, y);
    assert s[..|a|] == a && t[..|b|] == b;
    assert s[|a| + 1..] == x && t[|b| + 1..] == y;
  }

  lemma NulAt(a: string, x: string)
    requires NoNul(a)
    ensures IndexOf(a + ['\0'] + x, '\0') == |a|
  {
    var s := a + ['\0'] + x;
    assert s[..|a|] == a && s[|a|] == '\0';
    IndexOfFirst(s, '\0', |a|);
  }
}
