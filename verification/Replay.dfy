/** Replay event normalisation (internal/api/replay_playback.go): infer a base time, convert
    seconds, milliseconds and relative times, then sort stably with untimed events last.
    An event is an optional timestamp and an opaque payload. */
module Replay {
  import opened Options
  import opened Permutations
  import opened Sorting

  datatype Event = Event(timestamp: Option<real>, payload: string)

  const SECONDS := 1000000000.0        // 1e9
  const MILLIS := 100000000000.0       // 1e11

  function Scale(t: real): real {
    if SECONDS <= t < MILLIS then t * 1000.0 else t
  }

  // ----- the base time

  function BaseStep(base: real, e: Event): real {
    match e.timestamp
    case None => base
    case Some(t) => if Scale(t) >= MILLIS && (base == 0.0 || Scale(t) < base) then Scale(t) else base
  }

  function Inferred(base: real, events: seq<Event>): real {
    if events == [] then base else BaseStep(Inferred(base, events[..|events| - 1]), events[|events| - 1])
  }

  /** The start time in milliseconds when it is positive, else inferred from the events. */
  function Base(events: seq<Event>, startedAt: Option<int>): real {
    var start := if startedAt.Some? then startedAt.value as real else 0.0;
    if start <= 0.0 then Inferred(start, events) else start
  }

  // ----- conversion

  function ConvertTime(base: real, t: real): real {
    if t <= 0.0 && base > 0.0 then base
    else if SECONDS <= t < MILLIS then t * 1000.0
    else if 0.0 < t < SECONDS && base > 0.0 then base + t
    else t
  }

  function Convert(base: real, e: Event): Event {
    match e.timestamp
    case None => e
    case Some(t) => e.(timestamp := Some(ConvertTime(base, t)))
  }

  function Converted(base: real, events: seq<Event>): seq<Event> {
    if events == [] then []
    else Converted(base, events[..|events| - 1]) + [Convert(base, events[|events| - 1])]
  }

  // ----- the stable sort

  predicate Earlier(a: Event, b: Event) {
    a.timestamp.Some? && (b.timestamp.None? || a.timestamp.value < b.timestamp.value)
  }

  function StableSort(s: seq<Event>): seq<Event> {
    Sort(Earlier, s)
  }

  function Normalized(events: seq<Event>, startedAt: Option<int>): seq<Event> {
    StableSort(Converted(Base(events, startedAt), events))
  }

  method NormalizeEvents(events: seq<Event>, startedAt: Option<int>) returns (normalized: seq<Event>)
    ensures normalized == Normalized(events, startedAt)
  {
    var base := 0.0;
    if startedAt.Some? {
      base := startedAt.value as real;
    }
    if base <= 0.0 {
      base := InferBase(events, base);
    }
    normalized := ConvertEvents(events, base);
    normalized := SortEvents(normalized);
  }

  method InferBase(events: seq<Event>, start: real) returns (base: real)
    ensures base == Inferred(start, events)
  {
    base := start;
    for i := 0 to |events|
      invariant base == Inferred(start, events[..i])
    {
      assert events[..i + 1][..i] == events[..i];
      if events[i].timestamp.Some? {
        var timestamp := events[i].timestamp.value;
        if timestamp >= SECONDS && timestamp < MILLIS {
          timestamp := timestamp * 1000.0;
        }
        if timestamp >= MILLIS && (base == 0.0 || timestamp < base) {
          base := timestamp;
        }
      }
    }
    assert events[..|events|] == events;
  }

  method ConvertEvents(events: seq<Event>, base: real) returns (converted: seq<Event>)
    ensures converted == Converted(base, events)
  {
    converted := [];
    for i := 0 to |events|
      invariant converted == Converted(base, events[..i])
    {
      assert events[..i + 1][..i] == events[..i];
      if events[i].timestamp.None? {
        converted := converted + [events[i]];
        continue;
      }
      var timestamp := events[i].timestamp.value;
      if timestamp <= 0.0 && base > 0.0 {
        timestamp := base;
      } else if timestamp >= SECONDS && timestamp < MILLIS {
        timestamp := timestamp * 1000.0;
      } else if timestamp > 0.0 && timestamp < SECONDS && base > 0.0 {
        timestamp := base + timestamp;
      }
      converted := converted + [events[i].(timestamp := Some(timestamp))];
    }
    assert events[..|events|] == events;
  }

  method SortEvents(s: seq<Event>) returns (sorted: seq<Event>)
    ensures sorted == StableSort(s)
  {
    sorted := [];
    for i := 0 to |s|
      invariant sorted == StableSort(s[..i])
    {
      assert s[..i + 1][..i] == s[..i];
      sorted := Insert(Earlier, sorted, s[i]);
    }
    assert s[..|s|] == s;
  }

  // ----- what a stable sort is

  /** The events with one timestamp, in order. */
  function Bucket(s: seq<Event>, t: Option<real>): seq<Event> {
    if s == [] then []
    else
      var b, x := Bucket(s[..|s| - 1], t), s[|s| - 1];
      if x.timestamp == t then b + [x] else b
  }

  ghost predicate SameBuckets(r: seq<Event>, s: seq<Event>) {
    forall t :: Bucket(r, t) == Bucket(s, t)
  }

  /** `r` is `s` sorted stably: sorted, and events that compare equal keep their order. */
  ghost predicate IsStableSortOf(r: seq<Event>, s: seq<Event>) {
    IsSorted(Earlier, r) && SameBuckets(r, s)
  }

  lemma {:induction false} InsertBuckets(s: seq<Event>, x: Event, t: Option<real>)
    ensures Bucket(Insert(Earlier, s, x), t) == Bucket(s, t) + if x.timestamp == t then [x] else []
  {
    if s == [] || !Earlier(x, s[|s| - 1]) {
      SnocBuckets(s, x, t);
    } else {
      var init, y := s[..|s| - 1], s[|s| - 1];
      InsertBuckets(init, x, t);
      SnocBuckets(Insert(Earlier, init, x), y, t);
      assert x.timestamp != y.timestamp;
    }
  }

  lemma StableSortSorts(s: seq<Event>)
    ensures IsSorted(Earlier, StableSort(s)) && multiset(StableSort(s)) == multiset(s)
  {
    SortSorts(Earlier, s);
  }

  lemma {:induction false} StableSortBuckets(s: seq<Event>, t: Option<real>)
    ensures Bucket(StableSort(s), t) == Bucket(s, t)
  {
    if s != [] {
      StableSortBuckets(s[..|s| - 1], t);
      InsertBuckets(StableSort(s[..|s| - 1]), s[|s| - 1], t);
    }
  }

  lemma {:induction false} BucketMember(s: seq<Event>, t: Option<real>) returns (i: nat)
    requires Bucket(s, t) != []
    ensures i < |s| && s[i].timestamp == t
  {
    if s[|s| - 1].timestamp == t {
      i := |s| - 1;
    } else {
      i := BucketMember(s[..|s| - 1], t);
    }
  }

  lemma LastIsLatest(r: seq<Event>, q: seq<Event>)
    requires IsSorted(Earlier, q) && r != [] && q != [] && SameBuckets(r, q)
    ensures !Earlier(q[|q| - 1], r[|r| - 1])
  {
    var t := r[|r| - 1].timestamp;
    assert Bucket(q, t) == Bucket(r, t) != [];
    var i := BucketMember(q, t);
  }

  lemma BucketsOfInits(r': seq<Event>, x: Event, q': seq<Event>, y: Event)
    requires x.timestamp == y.timestamp && SameBuckets(r' + [x], q' + [y])
    ensures x == y && SameBuckets(r', q')
  {
    SnocBuckets(r', x, x.timestamp);
    SnocBuckets(q', y, x.timestamp);
    LastsEqual(Bucket(r', x.timestamp), x, Bucket(q', x.timestamp), y);
    forall t
      ensures Bucket(r', t) == Bucket(q', t)
    {
      SnocBuckets(r', x, t);
      SnocBuckets(q', y, t);
    }
  }

  lemma SnocBuckets(s: seq<Event>, x: Event, t: Option<real>)
    ensures Bucket(s + [x], t) == if x.timestamp == t then Bucket(s, t) + [x] else Bucket(s, t)
  {
    assert (s + [x])[..|s|] == s;
  }

  lemma LastsEqual(a: seq<Event>, x: Event, b: seq<Event>, y: Event)
    requires a + [x] == b + [y]
    ensures a == b && x == y
  {
    assert |a| == |b|;
    assert a == (a + [x])[..|a|] && b == (b + [y])[..|a|];
    assert (a + [x])[|a|] == x && (b + [y])[|a|] == y;
  }

  /** A stable sort has exactly one result. */
  lemma {:induction false} StableSortUnique(r: seq<Event>, q: seq<Event>)
    requires IsSorted(Earlier, r) && IsSorted(Earlier, q) && SameBuckets(r, q)
    ensures r == q
  {
    if r == [] {
      EmptyBuckets(q);
    } else if q == [] {
      EmptyBuckets(r);
    } else {
      LastIsLatest(r, q);
      LastIsLatest(q, r);
      assert r == r[..|r| - 1] + [r[|r| - 1]] && q == q[..|q| - 1] + [q[|q| - 1]];
      BucketsOfInits(r[..|r| - 1], r[|r| - 1], q[..|q| - 1], q[|q| - 1]);
      StableSortUnique(r[..|r| - 1], q[..|q| - 1]);
    }
  }

  lemma EmptyBuckets(s: seq<Event>)
    requires SameBuckets(s, []) || SameBuckets([], s)
    ensures s == []
  {
    if s != [] {
      OwnBucket(s);
    }
  }

  lemma OwnBucket(s: seq<Event>)
    requires s != []
    ensures Bucket(s, s[|s| - 1].timestamp) != Bucket([], s[|s| - 1].timestamp)
  {
  }

  /** The output is the converted events, sorted, untimed events last, ties in input
      order, and it is the only list with these properties. */
  lemma NormalizedIsStableSort(events: seq<Event>, startedAt: Option<int>, r: seq<Event>)
    ensures IsStableSortOf(Normalized(events, startedAt), Converted(Base(events, startedAt), events))
    ensures multiset(Normalized(events, startedAt)) == multiset(Converted(Base(events, startedAt), events))
    ensures IsStableSortOf(r, Converted(Base(events, startedAt), events)) ==> r == Normalized(events, startedAt)
  {
    var c := Converted(Base(events, startedAt), events);
    StableSortSorts(c);
    forall t
      ensures Bucket(StableSort(c), t) == Bucket(c, t)
    {
      StableSortBuckets(c, t);
    }
    if IsStableSortOf(r, c) {
      StableSortUnique(r, StableSort(c));
    }
  }

  // ----- the inferred base

  predicate Timed(e: Event) {
    e.timestamp.Some?
  }

  /** An absolute time, once seconds are scaled to milliseconds. */
  predicate Absolute(e: Event) {
    e.timestamp.Some? && Scale(e.timestamp.value) >= MILLIS
  }

  /** `b` is the earliest absolute time, or 0 when there is none. */
  ghost predicate IsEarliest(b: real, events: seq<Event>) {
    && (forall i :: 0 <= i < |events| && Absolute(events[i]) ==> b != 0.0 && b <= Scale(events[i].timestamp.value))
    && (b != 0.0 ==> exists i :: 0 <= i < |events| && Absolute(events[i]) && Scale(events[i].timestamp.value) == b)
  }

  lemma {:induction false} InferredIsEarliest(events: seq<Event>)
    ensures IsEarliest(Inferred(0.0, events), events)
  {
    if events != [] {
      var init, x := events[..|events| - 1], events[|events| - 1];
      InferredIsEarliest(init);
      var b, b' := Inferred(0.0, init), Inferred(0.0, events);
      if b' != 0.0 && b' == b {
        var i :| 0 <= i < |init| && Absolute(init[i]) && Scale(init[i].timestamp.value) == b;
        assert Absolute(events[i]) && Scale(events[i].timestamp.value) == b';
      }
    }
  }

  lemma EarliestUnique(a: real, b: real, events: seq<Event>)
    requires IsEarliest(a, events) && IsEarliest(b, events)
    ensures a == b
  {
  }

  lemma {:induction false} NegativeBaseStays(base: real, events: seq<Event>)
    requires base < 0.0
    ensures Inferred(base, events) == base
  {
    if events != [] {
      NegativeBaseStays(base, events[..|events| - 1]);
    }
  }

  /** Every output event is the conversion of an input event, and every input event
      is converted to some output event. */
  lemma {:induction false} ConvertedIs(base: real, events: seq<Event>)
    ensures |Converted(base, events)| == |events|
    ensures forall i :: 0 <= i < |events| ==> Converted(base, events)[i] == Convert(base, events[i])
  {
    if events != [] {
      ConvertedIs(base, events[..|events| - 1]);
    }
  }

  lemma OutputFrom(base: real, events: seq<Event>, y: Event) returns (i: nat)
    requires y in multiset(StableSort(Converted(base, events)))
    ensures i < |events| && Convert(base, events[i]) == y
  {
    StableSortSorts(Converted(base, events));
    ConvertedIs(base, events);
    i := FindIndex(y, Converted(base, events));
  }

  lemma OutputOf(base: real, events: seq<Event>, i: nat) returns (j: nat)
    requires i < |events|
    ensures j < |StableSort(Converted(base, events))|
    ensures StableSort(Converted(base, events))[j] == Convert(base, events[i])
  {
    StableSortSorts(Converted(base, events));
    ConvertedIs(base, events);
    assert Converted(base, events)[i] in multiset(Converted(base, events));
    j := FindIndex(Convert(base, events[i]), StableSort(Converted(base, events)));
  }

  /** With no start time, nothing in the output is earlier than the base, and if the
      input has an absolute time then the earliest output is exactly the base. */
  lemma EarliestOutputIsBase(events: seq<Event>)
    ensures var base, out := Base(events, None), Normalized(events, None);
            && IsEarliest(base, events)
            && (base != 0.0 ==> forall j :: 0 <= j < |out| && Timed(out[j]) ==> base <= out[j].timestamp.value)
            && (base != 0.0 ==> exists j :: 0 <= j < |out| && Timed(out[j]) && out[j].timestamp.value == base)
  {
    var base, out := Base(events, None), Normalized(events, None);
    InferredIsEarliest(events);
    if base != 0.0 {
      forall j | 0 <= j < |out| && Timed(out[j])
        ensures base <= out[j].timestamp.value
      {
        assert out[j] in multiset(out);
        var i := OutputFrom(base, events, out[j]);
        assert Absolute(events[i]) ==> base <= Scale(events[i].timestamp.value);
      }
      var i :| 0 <= i < |events| && Absolute(events[i]) && Scale(events[i].timestamp.value) == base;
      var j := OutputOf(base, events, i);
      assert Timed(out[j]) && out[j].timestamp.value == base;
    }
  }

  /** The second run computes the same base as the first. */
  lemma BaseIsStable(events: seq<Event>, startedAt: Option<int>)
    ensures Base(Normalized(events, startedAt), startedAt) == Base(events, startedAt)
  {
    var out := Normalized(events, startedAt);
    if startedAt.Some? && startedAt.value < 0 {
      NegativeBaseStays(startedAt.value as real, events);
      NegativeBaseStays(startedAt.value as real, out);
    } else if startedAt.None? || startedAt.value == 0 {
      assert Base(events, startedAt) == Inferred(0.0, events) == Base(events, None);
      InferredIsEarliest(out);
      OutputKeepsEarliest(events);
      EarliestUnique(Inferred(0.0, out), Base(events, None), out);
    }
  }

  lemma OutputKeepsEarliest(events: seq<Event>)
    ensures IsEarliest(Base(events, None), Normalized(events, None))
  {
    var base, out := Base(events, None), Normalized(events, None);
    EarliestOutputIsBase(events);
    if base == 0.0 {
      forall j | 0 <= j < |out|
        ensures !Absolute(out[j])
      {
        assert out[j] in multiset(out);
        var i := OutputFrom(base, events, out[j]);
        assert !Absolute(events[i]);
      }
    } else {
      var j :| 0 <= j < |out| && Timed(out[j]) && out[j].timestamp.value == base;
      assert Absolute(out[j]) && Scale(out[j].timestamp.value) == base;
    }
  }

  // ----- running the normaliser twice

  /** The converted time is absolute, or the base plays no part. */
  predicate Settled(base: real, e: Event) {
    e.timestamp.None? || base <= 0.0 || e.timestamp.value >= SECONDS ||
    (if e.timestamp.value <= 0.0 then base else base + e.timestamp.value) >= MILLIS
  }

  lemma ConvertTwice(base: real, e: Event)
    ensures Convert(base, Convert(base, e)) == Convert(base, e) <==> Settled(base, e)
  {
  }

  function TimeOf(e: Event): real {
    if Timed(e) then e.timestamp.value else 0.0
  }

  function TimeSum(s: seq<Event>): real {
    if s == [] then 0.0 else TimeSum(s[..|s| - 1]) + TimeOf(s[|s| - 1])
  }

  lemma TimeSumSnoc(s: seq<Event>, x: Event)
    ensures TimeSum(s + [x]) == TimeSum(s) + TimeOf(x)
  {
    assert (s + [x])[..|s|] == s;
  }

  lemma {:induction false} TimeSumInsert(s: seq<Event>, x: Event)
    ensures TimeSum(Insert(Earlier, s, x)) == TimeSum(s) + TimeOf(x)
  {
    if s == [] || !Earlier(x, s[|s| - 1]) {
      TimeSumSnoc(s, x);
    } else {
      TimeSumInsert(s[..|s| - 1], x);
      TimeSumSnoc(Insert(Earlier, s[..|s| - 1], x), s[|s| - 1]);
    }
  }

  lemma {:induction false} TimeSumSort(s: seq<Event>)
    ensures TimeSum(StableSort(s)) == TimeSum(s)
  {
    if s != [] {
      TimeSumSort(s[..|s| - 1]);
      TimeSumInsert(StableSort(s[..|s| - 1]), s[|s| - 1]);
    }
  }

  /** Conversion only moves times forward, so the sum is kept exactly when nothing moves. */
  lemma {:induction false} TimeSumConvert(base: real, s: seq<Event>)
    ensures TimeSum(Converted(base, s)) >= TimeSum(s)
    ensures TimeSum(Converted(base, s)) == TimeSum(s) ==> Converted(base, s) == s
  {
    if s != [] {
      TimeSumConvert(base, s[..|s| - 1]);
      TimeSumSnoc(Converted(base, s[..|s| - 1]), Convert(base, s[|s| - 1]));
      ConvertForward(base, s[|s| - 1]);
    }
  }

  lemma ConvertForward(base: real, x: Event)
    ensures TimeOf(Convert(base, x)) >= TimeOf(x)
    ensures TimeOf(Convert(base, x)) == TimeOf(x) ==> Convert(base, x) == x
  {
  }

  lemma {:induction false} SortOfSorted(s: seq<Event>)
    requires IsSorted(Earlier, s)
    ensures StableSort(s) == s
  {
    if s != [] {
      SortOfSorted(s[..|s| - 1]);
      assert |s| >= 2 ==> !Earlier(s[|s| - 1], s[|s| - 2]);
    }
  }

  lemma {:induction false} ConvertedFixed(base: real, s: seq<Event>)
    requires forall i :: 0 <= i < |s| ==> Convert(base, s[i]) == s[i]
    ensures Converted(base, s) == s
  {
    if s != [] {
      ConvertedFixed(base, s[..|s| - 1]);
    }
  }

  /** A second run changes nothing exactly when every event was settled by the first:
      no relative time was turned into something that still looks relative or like
      seconds, which needs a positive base below 1e11. */
  lemma IdempotentIff(events: seq<Event>, startedAt: Option<int>)
    ensures var once := Normalized(events, startedAt);
            Normalized(once, startedAt) == once <==>
            forall i :: 0 <= i < |events| ==> Settled(Base(events, startedAt), events[i])
  {
    var base, once := Base(events, startedAt), Normalized(events, startedAt);
    BaseIsStable(events, startedAt);
    StableSortSorts(Converted(base, events));
    if forall i :: 0 <= i < |events| ==> Settled(base, events[i]) {
      forall j | 0 <= j < |once|
        ensures Convert(base, once[j]) == once[j]
      {
        assert once[j] in multiset(once);
        var i := OutputFrom(base, events, once[j]);
        ConvertTwice(base, events[i]);
      }
      ConvertedFixed(base, once);
      SortOfSorted(once);
    }
    if Normalized(once, startedAt) == once {
      TimeSumSort(Converted(base, once));
      TimeSumConvert(base, once);
      forall i | 0 <= i < |events|
        ensures Settled(base, events[i])
      {
        SettledAt(base, events, once, i);
      }
    }
  }

  lemma SettledAt(base: real, events: seq<Event>, once: seq<Event>, i: nat)
    requires i < |events| && once == StableSort(Converted(base, events)) && Converted(base, once) == once
    ensures Settled(base, events[i])
  {
    ConvertedIs(base, once);
    var j := OutputOf(base, events, i);
    ConvertTwice(base, events[i]);
  }

  /** With no start time, or one at or after 1e11 milliseconds, normalising twice is
      the same as once. */
  lemma Idempotent(events: seq<Event>, startedAt: Option<int>)
    requires startedAt.None? || startedAt.value <= 0 || startedAt.value as real >= MILLIS
    ensures Normalized(Normalized(events, startedAt), startedAt) == Normalized(events, startedAt)
  {
    IdempotentIff(events, startedAt);
    if startedAt.Some? && startedAt.value < 0 {
      NegativeBaseStays(startedAt.value as real, events);
    } else if startedAt.None? || startedAt.value == 0 {
      InferredIsEarliest(events);
    }
  }

  /** A start time of 5 milliseconds moves an untimed-zero event again on every run. */
  lemma NotIdempotentExample()
    ensures var once := Normalized([Event(Some(0.0), "")], Some(5));
            Normalized(once, Some(5)) != once
  {
    IdempotentIff([Event(Some(0.0), "")], Some(5));
    assert !Settled(5.0, [Event(Some(0.0), "")][0]);
  }

  // ----- units and order

  /** With an absolute base a relative time counts from it, and times up to zero become it. */
  lemma RelativeTimes(base: real, t: real)
    requires base > 0.0
    ensures 0.0 < t < 1000000000.0 ==> ConvertTime(base, t) - base == t
    ensures t <= 0.0 ==> ConvertTime(base, t) == base
  {
  }

  /** Seconds and milliseconds of the same instant are converted to the same time, which is the
      one in milliseconds, whatever the base. */
  lemma UnitsAgree(base: real, seconds: real)
    requires 1000000000.0 <= seconds < 100000000000.0
    ensures ConvertTime(base, seconds) == ConvertTime(base, seconds * 1000.0) == seconds * 1000.0
  {
  }

  /** Absolute milliseconds stay, and without a base relative times stay too. */
  lemma TimesThatStay(base: real, t: real)
    ensures t >= 100000000000.0 ==> ConvertTime(base, t) == t
    ensures base <= 0.0 && t < 1000000000.0 ==> ConvertTime(base, t) == t
  {
  }

  /** A positive start time is the base. */
  lemma StartIsBase(events: seq<Event>, startedAt: int)
    requires startedAt > 0
    ensures Base(events, Some(startedAt)) == startedAt as real
  {
  }

  /** The output runs forward in time, and no untimed event comes before a timed one. */
  lemma OutputRunsForward(events: seq<Event>, startedAt: Option<int>, i: nat, j: nat)
    requires i < j < |Normalized(events, startedAt)|
    ensures var a, b := Normalized(events, startedAt)[i], Normalized(events, startedAt)[j];
            b.timestamp.Some? ==> a.timestamp.Some? && a.timestamp.value <= b.timestamp.value
  {
    var out := Normalized(events, startedAt);
    StableSortSorts(Converted(Base(events, startedAt), events));
    assert !Earlier(out[j], out[i]);
  }
}
