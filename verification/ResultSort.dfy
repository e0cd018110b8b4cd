/** Ordering of the test-result list (internal/api/prevent.go): a metric, then the newer
    date, then the id. sort.Slice is not stable, so the result must be the only one. */
module ResultSort {
  import opened Aggregates
  import opened Permutations
  import opened Sorting
  import opened TestResults
  import opened Text

  datatype Metric = AvgDuration | FailureRate | FlakeRate | UpdatedAt | RunsFailed
  datatype Order = Order(metric: Metric, desc: bool)

  function MetricNamed(name: string): Metric {
    if EqualFold(name, "AVG_DURATION") then AvgDuration
    else if EqualFold(name, "FAILURE_RATE") then FailureRate
    else if EqualFold(name, "FLAKE_RATE") then FlakeRate
    else if EqualFold(name, "UPDATED_AT") then UpdatedAt
    else RunsFailed
  }

  /** "-FIELD" descends, "+FIELD" and "FIELD" ascend; nothing means "-RUNS_FAILED",
      or the slowest first when the slowest tests are asked for. */
  function ParseOrder(sortBy: string, filterBy: string): Order {
    var field := TrimSpace(sortBy);
    if field == "" then
      Order(if EqualFold(TrimSpace(filterBy), "SLOWEST_TESTS") then AvgDuration else RunsFailed, true)
    else if field[0] == '-' then Order(MetricNamed(field[1..]), true)
    else if field[0] == '+' then Order(MetricNamed(field[1..]), false)
    else Order(MetricNamed(field), false)
  }

  function MetricOf(m: Metric, stats: map<string, Stat>, item: TestResult): real {
    match m
    case AvgDuration =>
      var avg := StatAt(stats, Key(item)).avgDuration;
      if avg > 0.0 then avg else ItemAverage(item)
    case FailureRate => if item.testCount <= 0 then 0.0 else Ratio(item.failureCount, item.testCount)
    case FlakeRate => StatAt(stats, Key(item)).flakeRate
    case UpdatedAt => item.dateCreated as real
    case RunsFailed => item.failureCount as real
  }

  predicate Before(o: Order, stats: map<string, Stat>, a: TestResult, b: TestResult) {
    var left, right := MetricOf(o.metric, stats, a), MetricOf(o.metric, stats, b);
    if left == right then
      if a.dateCreated == b.dateCreated then Less(a.id, b.id) else a.dateCreated > b.dateCreated
    else if o.desc then left > right
    else left < right
  }

  /** For every field and direction the comparison is a strict order, total on
      results with different ids. */
  lemma BeforeIsTotal(o: Order, stats: map<string, Stat>, a: TestResult, b: TestResult)
    ensures !Before(o, stats, a, a)
    ensures !(Before(o, stats, a, b) && Before(o, stats, b, a))
    ensures a.id != b.id ==> Before(o, stats, a, b) || Before(o, stats, b, a)
  {
    LessTrichotomy(a.id, b.id);
  }

  lemma BeforeTransitive(o: Order, stats: map<string, Stat>, a: TestResult, b: TestResult, c: TestResult)
    requires Before(o, stats, a, b) && Before(o, stats, b, c)
    ensures Before(o, stats, a, c)
  {
    if Less(a.id, b.id) && Less(b.id, c.id) {
      LessTransitive(a.id, b.id, c.id);
    }
  }

  /** Not being after is transitive as well, also between results with equal ids. */
  lemma NotAfterTransitive(o: Order, stats: map<string, Stat>, a: TestResult, b: TestResult, c: TestResult)
    requires !Before(o, stats, b, a) && !Before(o, stats, c, b)
    ensures !Before(o, stats, c, a)
  {
    LessTrichotomy(a.id, b.id);
    LessTrichotomy(b.id, c.id);
    LessTrichotomy(a.id, c.id);
    if Less(a.id, b.id) && Less(b.id, c.id) {
      LessTransitive(a.id, b.id, c.id);
    }
  }

  function Comparator(o: Order, stats: map<string, Stat>): (TestResult, TestResult) -> bool {
    (a, b) => Before(o, stats, a, b)
  }

  /** What sort.Slice guarantees: no element comes before an earlier one. */
  predicate IsSorted(o: Order, stats: map<string, Stat>, s: seq<TestResult>) {
    Sorting.IsSorted(Comparator(o, stats), s)
  }

  predicate DistinctIds(s: seq<TestResult>) {
    forall i, j :: 0 <= i < j < |s| ==> s[i].id != s[j].id
  }

  /** One sorted arrangement; SortedIsUnique shows when there is no other. */
  function Sorted(o: Order, stats: map<string, Stat>, s: seq<TestResult>): seq<TestResult> {
    Sort(Comparator(o, stats), s)
  }

  lemma BeforeIsOrder(o: Order, stats: map<string, Stat>)
    ensures IsOrder(Comparator(o, stats))
  {
    var before := Comparator(o, stats);
    forall a, b
      ensures before(a, b) ==> !before(b, a)
    {
      BeforeIsTotal(o, stats, a, b);
    }
    forall a, b, c | !before(a, b) && !before(b, c)
      ensures !before(a, c)
    {
      NotAfterTransitive(o, stats, c, b, a);
    }
  }

  lemma SortedSorts(o: Order, stats: map<string, Stat>, s: seq<TestResult>)
    ensures IsSorted(o, stats, Sorted(o, stats, s))
    ensures multiset(Sorted(o, stats, s)) == multiset(s)
  {
    BeforeIsOrder(o, stats);
    SortSorts(Comparator(o, stats), s);
  }

  lemma LastNotAfter(o: Order, stats: map<string, Stat>, s: seq<TestResult>, x: TestResult)
    requires IsSorted(o, stats, s) && x in multiset(s)
    ensures s != [] && (x == s[|s| - 1] || !Before(o, stats, s[|s| - 1], x))
  {
    var j := FindIndex(x, s);
  }

  /** With distinct ids there is exactly one sorted arrangement, so an unstable sort
      has no freedom: any two sorted permutations are the same list. */
  lemma {:induction false} SortedIsUnique(o: Order, stats: map<string, Stat>, s: seq<TestResult>, t: seq<TestResult>)
    requires DistinctIds(s) && DistinctIds(t)
    requires IsSorted(o, stats, s) && IsSorted(o, stats, t) && multiset(s) == multiset(t)
    ensures s == t
  {
    SameLength(s, t);
    if s != [] {
      LastsAgree(o, stats, s, t);
      SameInit(s, t);
      SortedIsUnique(o, stats, s[..|s| - 1], t[..|t| - 1]);
    }
  }

  lemma LastsAgree(o: Order, stats: map<string, Stat>, s: seq<TestResult>, t: seq<TestResult>)
    requires s != [] && t != [] && DistinctIds(s)
    requires IsSorted(o, stats, s) && IsSorted(o, stats, t) && multiset(s) == multiset(t)
    ensures s[|s| - 1] == t[|t| - 1]
  {
    var x, y := s[|s| - 1], t[|t| - 1];
    DropLast(s);
    DropLast(t);
    assert x in multiset(t) && y in multiset(s);
    LastNotAfter(o, stats, t, x);
    LastNotAfter(o, stats, s, y);
    if x.id == y.id {
      SameIdSame(s, x, y);
    } else {
      BeforeIsTotal(o, stats, x, y);
    }
  }

  lemma SameIdSame(s: seq<TestResult>, x: TestResult, y: TestResult)
    requires DistinctIds(s) && x in multiset(s) && y in multiset(s) && x.id == y.id
    ensures x == y
  {
    var i := FindIndex(x, s);
    var j := FindIndex(y, s);
  }

  lemma DistinctIdsKept(s: seq<TestResult>, r: seq<TestResult>)
    requires DistinctIds(s) && multiset(r) == multiset(s)
    ensures DistinctIds(r)
  {
    forall i, j | 0 <= i < j < |r|
      ensures r[i].id != r[j].id
    {
      var p := FindIndex(r[i], s);
      RemoveAt(s, p);
      RemoveAt(r, i);
      assert (r[..i] + r[i + 1..])[j - 1] == r[j];
      var q := FindIndex(r[j], s[..p] + s[p + 1..]);
      assert r[j] == s[if q < p then q else q + 1];
    }
  }

  /** Whatever sorted permutation sort.Slice produces, it is this list. */
  lemma SortHasOneResult(o: Order, stats: map<string, Stat>, s: seq<TestResult>, r: seq<TestResult>)
    requires DistinctIds(s)
    requires IsSorted(o, stats, r) && multiset(r) == multiset(s)
    ensures r == Sorted(o, stats, s)
  {
    SortedSorts(o, stats, s);
    DistinctIdsKept(s, r);
    DistinctIdsKept(s, Sorted(o, stats, s));
    SortedIsUnique(o, stats, r, Sorted(o, stats, s));
  }

  /** sort.Slice: some sorted permutation, which one is not promised. */
  method SortSlice(items: array<TestResult>, stats: map<string, Stat>, o: Order)
    modifies items
    ensures IsSorted(o, stats, items[..]) && multiset(items[..]) == multiset(old(items[..]))
  {
    var sorted := [];
    for i := 0 to items.Length
      invariant items[..] == old(items[..])
      invariant sorted == Sorted(o, stats, items[..i])
    {
      assert items[..i + 1][..i] == items[..i];
      sorted := Insert(Comparator(o, stats), sorted, items[i]);
    }
    assert items[..items.Length] == items[..];
    SortedSorts(o, stats, items[..]);
    SameLength(sorted, items[..]);
    CopyInto(items, sorted);
  }

  method CopyInto(items: array<TestResult>, s: seq<TestResult>)
    requires items.Length == |s|
    modifies items
    ensures items[..] == s
  {
    for i := 0 to items.Length
      invariant items[..i] == s[..i]
    {
      items[i] := s[i];
    }
  }

  // ----- what a request asks for

  /** The word, in any letter case and with blanks around it. */
  predicate Asks(s: string, word: string) {
    EqualFold(TrimSpace(s), word)
  }

  predicate Ascends(sortBy: string, field: string) {
    Asks(sortBy, field) || Asks(sortBy, "+" + field)
  }

  predicate Descends(sortBy: string, field: string) {
    Asks(sortBy, "-" + field)
  }

  predicate AsksNothing(sortBy: string) {
    TrimSpace(sortBy) == ""
  }

  function Failures(x: TestResult): real {
    x.failureCount as real
  }

  function Updated(x: TestResult): real {
    x.dateCreated as real
  }

  /** Failures over tests; none without tests. */
  function FailureShare(x: TestResult): real {
    if x.testCount <= 0 then 0.0 else x.failureCount as real / x.testCount as real
  }

  function GroupFlakeRate(stats: map<string, Stat>): TestResult -> real {
    x => if Key(x) in stats then stats[Key(x)].flakeRate else 0.0
  }

  /** The group's average when it is positive, else the result's own. */
  function GroupAverage(stats: map<string, Stat>): TestResult -> real {
    x =>
      if Key(x) in stats && stats[Key(x)].avgDuration > 0.0 then stats[Key(x)].avgDuration
      else if x.testCount > 0 then x.durationMs as real / x.testCount as real
      else x.durationMs as real
  }

  /** Among equals the newer comes first, then the smaller id. */
  predicate TieBroken(a: TestResult, b: TestResult) {
    a.dateCreated > b.dateCreated || (a.dateCreated == b.dateCreated && !Less(b.id, a.id))
  }

  ghost predicate Falls(s: seq<TestResult>, q: TestResult -> real) {
    forall i, j :: 0 <= i < j < |s| ==> q(s[i]) > q(s[j]) || (q(s[i]) == q(s[j]) && TieBroken(s[i], s[j]))
  }

  ghost predicate Rises(s: seq<TestResult>, q: TestResult -> real) {
    forall i, j :: 0 <= i < j < |s| ==> q(s[i]) < q(s[j]) || (q(s[i]) == q(s[j]) && TieBroken(s[i], s[j]))
  }

  /** A named field sorts upwards, or downwards with a minus sign. */
  ghost predicate Honours(sortBy: string, field: string, s: seq<TestResult>, q: TestResult -> real) {
    (Ascends(sortBy, field) ==> Rises(s, q)) && (Descends(sortBy, field) ==> Falls(s, q))
  }

  function QuantityOf(m: Metric, stats: map<string, Stat>): TestResult -> real {
    match m
    case AvgDuration => GroupAverage(stats)
    case FailureRate => FailureShare
    case FlakeRate => GroupFlakeRate(stats)
    case UpdatedAt => Updated
    case RunsFailed => Failures
  }

  lemma QuantityIsMetric(m: Metric, stats: map<string, Stat>, x: TestResult)
    ensures QuantityOf(m, stats)(x) == MetricOf(m, stats, x)
  {
  }

  lemma SortedFallsOrRises(o: Order, stats: map<string, Stat>, s: seq<TestResult>)
    requires IsSorted(o, stats, s)
    ensures o.desc ==> Falls(s, QuantityOf(o.metric, stats))
    ensures !o.desc ==> Rises(s, QuantityOf(o.metric, stats))
  {
    forall i, j | 0 <= i < j < |s|
      ensures var q := QuantityOf(o.metric, stats);
              || (if o.desc then q(s[i]) > q(s[j]) else q(s[i]) < q(s[j]))
              || (q(s[i]) == q(s[j]) && TieBroken(s[i], s[j]))
    {
      assert !Comparator(o, stats)(s[j], s[i]);
      QuantityIsMetric(o.metric, stats, s[i]);
      QuantityIsMetric(o.metric, stats, s[j]);
    }
  }

  predicate IsName(field: string) {
    field in {"AVG_DURATION", "FAILURE_RATE", "FLAKE_RATE", "UPDATED_AT", "RUNS_FAILED"}
  }

  lemma FoldedChar(a: string, b: string, i: nat)
    requires EqualFold(a, b) && i < |b|
    ensures |a| == |b| && LowerChar(a[i]) == LowerChar(b[i])
  {
    assert ToLower(a)[i] == ToLower(b)[i];
  }

  /** A folded name is that name and no other. */
  lemma NameFolds(name: string, field: string)
    requires IsName(field) && EqualFold(name, field)
    ensures MetricNamed(name) ==
            match field
            case "AVG_DURATION" => AvgDuration
            case "FAILURE_RATE" => FailureRate
            case "FLAKE_RATE" => FlakeRate
            case "UPDATED_AT" => UpdatedAt
            case _ => RunsFailed
    ensures name != "" && name[0] != '-' && name[0] != '+'
  {
    FoldedChar(name, field, 0);
    DistinctNames();
  }

  lemma DistinctNames()
    ensures !EqualFold("FAILURE_RATE", "AVG_DURATION")
    ensures !EqualFold("FLAKE_RATE", "AVG_DURATION") && !EqualFold("FLAKE_RATE", "FAILURE_RATE")
    ensures !EqualFold("UPDATED_AT", "AVG_DURATION") && !EqualFold("UPDATED_AT", "FAILURE_RATE")
    ensures !EqualFold("UPDATED_AT", "FLAKE_RATE")
    ensures !EqualFold("RUNS_FAILED", "AVG_DURATION") && !EqualFold("RUNS_FAILED", "FAILURE_RATE")
    ensures !EqualFold("RUNS_FAILED", "FLAKE_RATE") && !EqualFold("RUNS_FAILED", "UPDATED_AT")
  {
    assert ToLower("FAILURE_RATE")[0] == 'f' && ToLower("AVG_DURATION")[0] == 'a';
    assert ToLower("FLAKE_RATE")[0] == 'f' && ToLower("UPDATED_AT")[0] == 'u';
    assert |ToLower("RUNS_FAILED")| == 11 && |ToLower("AVG_DURATION")| == 12 && |ToLower("FLAKE_RATE")| == 10;
    assert |ToLower("FAILURE_RATE")| == 12 && |ToLower("UPDATED_AT")| == 10;
  }

  lemma SignFolds(s: string, sign: char, field: string)
    requires (sign == '-' || sign == '+') && EqualFold(s, [sign] + field)
    ensures s != "" && s[0] == sign && EqualFold(s[1..], field)
  {
    var t := [sign] + field;
    FoldedChar(s, t, 0);
    assert ToLower(s[1..]) == ToLower(s)[1..] && ToLower(field) == ToLower(t)[1..];
  }

  /** What the parser makes of a named field. */
  lemma OrderNamed(sortBy: string, filterBy: string, field: string)
    requires IsName(field)
    ensures Ascends(sortBy, field) ==> ParseOrder(sortBy, filterBy) == Order(MetricNamed(field), false)
    ensures Descends(sortBy, field) ==> ParseOrder(sortBy, filterBy) == Order(MetricNamed(field), true)
  {
    var s := TrimSpace(sortBy);
    NameFolds(field, field);
    if Asks(sortBy, field) {
      NameFolds(s, field);
    }
    if Asks(sortBy, "+" + field) {
      SignFolds(s, '+', field);
      NameFolds(s[1..], field);
    }
    if Descends(sortBy, field) {
      SignFolds(s, '-', field);
      NameFolds(s[1..], field);
    }
  }

  /** The sorted list, as the request names it. */
  lemma RequestMeans(sortBy: string, filterBy: string, field: string, stats: map<string, Stat>, s: seq<TestResult>,
      q: TestResult -> real)
    requires IsName(field) && IsSorted(ParseOrder(sortBy, filterBy), stats, s)
    requires q == QuantityOf(MetricNamed(field), stats)
    ensures Honours(sortBy, field, s, q)
  {
    OrderNamed(sortBy, filterBy, field);
    SortedFallsOrRises(ParseOrder(sortBy, filterBy), stats, s);
  }

  lemma DefaultMeans(sortBy: string, filterBy: string, stats: map<string, Stat>, s: seq<TestResult>)
    requires AsksNothing(sortBy) && IsSorted(ParseOrder(sortBy, filterBy), stats, s)
    ensures if Asks(filterBy, "SLOWEST_TESTS") then Falls(s, GroupAverage(stats)) else Falls(s, Failures)
  {
    SortedFallsOrRises(ParseOrder(sortBy, filterBy), stats, s);
  }

  lemma MetricsNamed()
    ensures MetricNamed("AVG_DURATION") == AvgDuration && MetricNamed("FAILURE_RATE") == FailureRate
    ensures MetricNamed("FLAKE_RATE") == FlakeRate && MetricNamed("UPDATED_AT") == UpdatedAt
    ensures MetricNamed("RUNS_FAILED") == RunsFailed
  {
    DistinctNames();
  }

  /** Sorts the slice in place, by the order the request names; with nothing named by failures,
      or slowest first when the slowest tests are asked for. With distinct ids the result is
      fixed. */
  method SortTestResults(items: array<TestResult>, stats: map<string, Stat>, sortBy: string, filterBy: string)
    modifies items
    ensures multiset(items[..]) == multiset(old(items[..]))
    ensures Honours(sortBy, "RUNS_FAILED", items[..], Failures)
    ensures Honours(sortBy, "UPDATED_AT", items[..], Updated)
    ensures Honours(sortBy, "FAILURE_RATE", items[..], FailureShare)
    ensures Honours(sortBy, "FLAKE_RATE", items[..], GroupFlakeRate(stats))
    ensures Honours(sortBy, "AVG_DURATION", items[..], GroupAverage(stats))
    ensures AsksNothing(sortBy) && Asks(filterBy, "SLOWEST_TESTS") ==> Falls(items[..], GroupAverage(stats))
    ensures AsksNothing(sortBy) && !Asks(filterBy, "SLOWEST_TESTS") ==> Falls(items[..], Failures)
    ensures IsSorted(ParseOrder(sortBy, filterBy), stats, items[..])
    ensures DistinctIds(old(items[..])) ==> items[..] == Sorted(ParseOrder(sortBy, filterBy), stats, old(items[..]))
  {
    ghost var before := items[..];
    var o := ParseOrder(sortBy, filterBy);
    SortSlice(items, stats, o);
    if DistinctIds(before) {
      SortHasOneResult(o, stats, before, items[..]);
    }
    MetricsNamed();
    RequestMeans(sortBy, filterBy, "RUNS_FAILED", stats, items[..], Failures);
    RequestMeans(sortBy, filterBy, "UPDATED_AT", stats, items[..], Updated);
    RequestMeans(sortBy, filterBy, "FAILURE_RATE", stats, items[..], FailureShare);
    RequestMeans(sortBy, filterBy, "FLAKE_RATE", stats, items[..], GroupFlakeRate(stats));
    RequestMeans(sortBy, filterBy, "AVG_DURATION", stats, items[..], GroupAverage(stats));
    if AsksNothing(sortBy) {
      DefaultMeans(sortBy, filterBy, stats, items[..]);
    }
  }
}
