/** Filters of the test-result list (internal/api/prevent.go). The flaky filter decides by
    group, so the statistics recomputed on what it keeps are the original ones. */
module ResultFilter {
  import opened Aggregates
  import opened Permutations
  import opened TestResults
  import opened Text

  const ZERO_TIME: int := -62135596800000000000

  datatype Query = Query(branch: string, term: string, suites: set<string>, start: int, filterBy: string)

  predicate Contains(s: string, t: string) {
    t <= s || (s != [] && Contains(s[1..], t))
  }

  predicate MatchesTerm(term: string, values: seq<string>) {
    var t := ToLower(TrimSpace(term));
    t == "" || exists i :: 0 <= i < |values| && Contains(ToLower(values[i]), t)
  }

  predicate FiltersBy(q: Query, mode: string) {
    EqualFold(TrimSpace(q.filterBy), mode)
  }

  predicate Admits(q: Query, item: TestResult) {
    && (item.dateCreated == ZERO_TIME || item.dateCreated >= q.start)
    && (q.branch == "" || item.branchName == q.branch)
    && (q.suites == {} || item.suiteName in q.suites)
    && MatchesTerm(q.term, [item.suiteName, item.branchName, item.commitSha, item.id])
    && (FiltersBy(q, "FAILED_TESTS") ==> item.failureCount != 0)
    && (FiltersBy(q, "SKIPPED_TESTS") ==> item.skippedCount != 0)
  }

  function Admitted(items: seq<TestResult>, q: Query): seq<TestResult> {
    if items == [] then []
    else
      var r, x := Admitted(items[..|items| - 1], q), items[|items| - 1];
      if Admits(q, x) then r + [x] else r
  }

  /** The items whose key is flaky in `stats`. */
  function OnlyFlaky(items: seq<TestResult>, stats: map<string, Stat>): seq<TestResult> {
    if items == [] then []
    else
      var r, x := OnlyFlaky(items[..|items| - 1], stats), items[|items| - 1];
      if StatAt(stats, Key(x)).isFlaky then r + [x] else r
  }

  function FlakyFilter(items: seq<TestResult>): seq<TestResult> {
    OnlyFlaky(items, Stats(items))
  }

  function Filtered(items: seq<TestResult>, q: Query): seq<TestResult> {
    if FiltersBy(q, "FLAKY_TESTS") then FlakyFilter(Admitted(items, q)) else Admitted(items, q)
  }

  method FilterTestResults(items: seq<TestResult>, q: Query) returns (r: seq<TestResult>)
    ensures r == Filtered(items, q)
  {
    r := [];
    for i := 0 to |items|
      invariant r == Admitted(items[..i], q)
    {
      assert items[..i + 1][..i] == items[..i];
      if Admits(q, items[i]) {
        r := r + [items[i]];
      }
    }
    assert items[..|items|] == items;
    if FiltersBy(q, "FLAKY_TESTS") {
      var stats := BuildStats(r);
      r := KeepFlaky(r, stats);
    }
  }

  method KeepFlaky(items: seq<TestResult>, stats: map<string, Stat>) returns (flaky: seq<TestResult>)
    ensures flaky == OnlyFlaky(items, stats)
  {
    flaky := [];
    for i := 0 to |items|
      invariant flaky == OnlyFlaky(items[..i], stats)
    {
      assert items[..i + 1][..i] == items[..i];
      if StatAt(stats, Key(items[i])).isFlaky {
        flaky := flaky + [items[i]];
      }
    }
    assert items[..|items|] == items;
  }

  // ----- the flaky filter keeps whole groups

  lemma {:induction false} OnlyFlakyGroups(items: seq<TestResult>, stats: map<string, Stat>, k: string)
    ensures Group(OnlyFlaky(items, stats), k) == if StatAt(stats, k).isFlaky then Group(items, k) else []
  {
    if items != [] {
      var init, x := items[..|items| - 1], items[|items| - 1];
      OnlyFlakyGroups(init, stats, k);
      var f := OnlyFlaky(init, stats);
      assert (f + [x])[..|f|] == f;
    }
  }

  /** Exactly the flaky groups survive, each with its original statistics, and
      every group that survives is still flaky. */
  lemma FlakyFilterKeepsStats(items: seq<TestResult>)
    ensures forall k :: k in Stats(FlakyFilter(items)) <==> k in Stats(items) && Stats(items)[k].isFlaky
    ensures forall k :: k in Stats(FlakyFilter(items)) ==>
              Stats(FlakyFilter(items))[k] == Stats(items)[k] && Stats(FlakyFilter(items))[k].isFlaky
  {
    forall k
      ensures k in Stats(FlakyFilter(items)) <==> k in Stats(items) && Stats(items)[k].isFlaky
      ensures k in Stats(FlakyFilter(items)) ==> Stats(FlakyFilter(items))[k] == Stats(items)[k]
    {
      OnlyFlakyGroups(items, Stats(items), k);
      GroupEmpty(items, k);
      GroupEmpty(FlakyFilter(items), k);
    }
  }

  predicate AllFlaky(items: seq<TestResult>, stats: map<string, Stat>) {
    forall i :: 0 <= i < |items| ==> StatAt(stats, Key(items[i])).isFlaky
  }

  lemma {:induction false} OnlyFlakyAll(items: seq<TestResult>, stats: map<string, Stat>)
    requires AllFlaky(items, stats)
    ensures OnlyFlaky(items, stats) == items
  {
    if items != [] {
      var init, x := items[..|items| - 1], items[|items| - 1];
      assert StatAt(stats, Key(x)).isFlaky && AllFlaky(init, stats);
      OnlyFlakyAll(init, stats);
      assert init + [x] == items;
    }
  }

  /** Filtering what was kept keeps all of it. */
  lemma FlakyFilterIdempotent(items: seq<TestResult>)
    ensures FlakyFilter(FlakyFilter(items)) == FlakyFilter(items)
  {
    var f := FlakyFilter(items);
    FlakyFilterKeepsStats(items);
    forall i | 0 <= i < |f|
      ensures StatAt(Stats(f), Key(f[i])).isFlaky
    {
      assert Key(f[i]) in Stats(f);
    }
    OnlyFlakyAll(f, Stats(f));
  }

  lemma {:induction false} AdmittedAll(items: seq<TestResult>, q: Query)
    requires forall i :: 0 <= i < |items| ==> Admits(q, items[i])
    ensures Admitted(items, q) == items
  {
    if items != [] {
      AdmittedAll(items[..|items| - 1], q);
    }
  }

  lemma {:induction false} FiltersAdmit(items: seq<TestResult>, stats: map<string, Stat>, q: Query)
    ensures forall i :: 0 <= i < |Admitted(items, q)| ==> Admits(q, Admitted(items, q)[i])
    ensures (forall i :: 0 <= i < |items| ==> Admits(q, items[i])) ==>
              forall i :: 0 <= i < |OnlyFlaky(items, stats)| ==> Admits(q, OnlyFlaky(items, stats)[i])
  {
    if items != [] {
      FiltersAdmit(items[..|items| - 1], stats, q);
    }
  }

  /** The whole filter is idempotent, in every mode. */
  lemma FilteredIdempotent(items: seq<TestResult>, q: Query)
    ensures Filtered(Filtered(items, q), q) == Filtered(items, q)
  {
    var a := Admitted(items, q);
    FiltersAdmit(items, Stats(items), q);
    FiltersAdmit(a, Stats(a), q);
    AdmittedAll(Filtered(items, q), q);
    FlakyFilterIdempotent(a);
  }

  // ----- reporting windows

  predicate InWindow(item: TestResult, branch: string, start: int, end: int) {
    (branch == "" || item.branchName == branch) && start <= item.dateCreated < end
  }

  function Window(items: seq<TestResult>, branch: string, start: int, end: int): seq<TestResult> {
    if items == [] then []
    else
      var r, x := Window(items[..|items| - 1], branch, start, end), items[|items| - 1];
      if InWindow(x, branch, start, end) then r + [x] else r
  }

  method FilterWindow(items: seq<TestResult>, branch: string, start: int, end: int) returns (r: seq<TestResult>)
    ensures r == Window(items, branch, start, end)
  {
    r := [];
    for i := 0 to |items|
      invariant r == Window(items[..i], branch, start, end)
    {
      assert items[..i + 1][..i] == items[..i];
      if branch != "" && items[i].branchName != branch {
        continue;
      }
      if items[i].dateCreated < start || !(items[i].dateCreated < end) {
        continue;
      }
      r := r + [items[i]];
    }
    assert items[..|items|] == items;
  }

  /** The current and the previous window share no result and miss none: what falls in
      either is what falls in their union, counted once. */
  lemma {:induction false} WindowsPartition(items: seq<TestResult>, branch: string, a: int, b: int, c: int)
    requires a <= b <= c
    ensures multiset(Window(items, branch, a, c)) ==
            multiset(Window(items, branch, a, b)) + multiset(Window(items, branch, b, c))
  {
    if items != [] {
      WindowsPartition(items[..|items| - 1], branch, a, b, c);
    }
  }

  // ----- what is kept

  /** The text stands in s from position i on. */
  predicate StandsAt(s: string, t: string, i: int) {
    0 <= i <= |s| - |t| && s[i..i + |t|] == t
  }

  lemma {:induction false} ContainsIs(s: string, t: string)
    ensures Contains(s, t) <==> exists i :: StandsAt(s, t, i)
  {
    if t <= s {
      assert StandsAt(s, t, 0);
    } else if s != [] {
      ContainsIs(s[1..], t);
      if i :| StandsAt(s[1..], t, i) {
        assert StandsAt(s, t, i + 1);
      }
      if i :| StandsAt(s, t, i) {
        assert StandsAt(s[1..], t, i - 1);
      }
    }
  }

  /** The text occurs in the value, up to letter case. */
  ghost predicate Occurs(t: string, value: string) {
    exists i :: StandsAt(ToLower(value), ToLower(t), i)
  }

  lemma OccursIs(t: string, value: string)
    ensures Contains(ToLower(value), ToLower(t)) <==> Occurs(t, value)
  {
    ContainsIs(ToLower(value), ToLower(t));
  }

  /** What a request asks of a result: young enough or undated, on the branch, in one of the
      suites, with the term in suite, branch, commit or id, and with failures or skips in the
      modes that ask for them. */
  ghost predicate Wanted(q: Query, x: TestResult) {
    && (x.dateCreated == ZERO_TIME || q.start <= x.dateCreated)
    && (q.branch != "" ==> x.branchName == q.branch)
    && (q.suites != {} ==> x.suiteName in q.suites)
    && (var t := TrimSpace(q.term);
        t != "" ==> Occurs(t, x.suiteName) || Occurs(t, x.branchName) || Occurs(t, x.commitSha) || Occurs(t, x.id))
    && (FiltersBy(q, "FAILED_TESTS") ==> x.failureCount != 0)
    && (FiltersBy(q, "SKIPPED_TESTS") ==> x.skippedCount != 0)
  }

  lemma AdmitsIsWanted(q: Query, x: TestResult)
    ensures Admits(q, x) <==> Wanted(q, x)
  {
    var t, values := TrimSpace(q.term), [x.suiteName, x.branchName, x.commitSha, x.id];
    OccursIs(t, x.suiteName);
    OccursIs(t, x.branchName);
    OccursIs(t, x.commitSha);
    OccursIs(t, x.id);
    if t != "" {
      FourValues(ToLower(t), x.suiteName, x.branchName, x.commitSha, x.id);
    }
  }

  lemma FourValues(t: string, a: string, b: string, c: string, d: string)
    ensures (exists i :: 0 <= i < |[a, b, c, d]| && Contains(ToLower([a, b, c, d][i]), t)) <==>
            Contains(ToLower(a), t) || Contains(ToLower(b), t) || Contains(ToLower(c), t) || Contains(ToLower(d), t)
  {
    var values := [a, b, c, d];
    assert values[0] == a && values[1] == b && values[2] == c && values[3] == d;
  }

  lemma {:induction false} AdmittedContents(items: seq<TestResult>, q: Query, x: TestResult)
    ensures multiset(Admitted(items, q))[x] == if Wanted(q, x) then multiset(items)[x] else 0
  {
    if items != [] {
      var init, y := items[..|items| - 1], items[|items| - 1];
      AdmittedContents(init, q, x);
      AdmitsIsWanted(q, y);
      DropLast(items);
      Append(Admitted(init, q), y);
    }
  }

  lemma {:induction false} FlakyContents(items: seq<TestResult>, stats: map<string, Stat>, x: TestResult)
    ensures multiset(OnlyFlaky(items, stats))[x] ==
            if Key(x) in stats && stats[Key(x)].isFlaky then multiset(items)[x] else 0
  {
    if items != [] {
      var init, y := items[..|items| - 1], items[|items| - 1];
      FlakyContents(init, stats, x);
      DropLast(items);
      Append(OnlyFlaky(init, stats), y);
    }
  }

  /** A result is kept, as often as it occurs, exactly when the request wants it and, in the
      flaky mode, its group is flaky among the wanted ones. */
  lemma KeptIff(items: seq<TestResult>, q: Query, x: TestResult)
    ensures var stats := Stats(Admitted(items, q));
            multiset(Filtered(items, q))[x] ==
            if Wanted(q, x) && (FiltersBy(q, "FLAKY_TESTS") ==> Key(x) in stats && stats[Key(x)].isFlaky)
            then multiset(items)[x] else 0
  {
    AdmittedContents(items, q, x);
    FlakyContents(Admitted(items, q), Stats(Admitted(items, q)), x);
  }

  /** The window keeps the results of the branch from its start up to, and without, its end. */
  lemma {:induction false} WindowContents(items: seq<TestResult>, branch: string, start: int, end: int, x: TestResult)
    ensures multiset(Window(items, branch, start, end))[x] ==
            if start <= x.dateCreated && x.dateCreated < end && (branch != "" ==> x.branchName == branch)
            then multiset(items)[x] else 0
  {
    if items != [] {
      var init, y := items[..|items| - 1], items[|items| - 1];
      WindowContents(init, branch, start, end, x);
      DropLast(items);
      Append(Window(init, branch, start, end), y);
    }
  }
}
