/** The append-only ingest queue (internal/sqlite/append_only_event_queue.go): a log with
    increasing sequence numbers, one consumer position, a retry table, and trimming of the
    log at every 256th number. */
module IngestLog {
  import opened Options

  datatype Entry = Entry(id: nat, payload: string)
  datatype Retry = Retry(attempts: nat, at: int)

  /** `next` is the number the next row gets; numbers are never reused. `last` is the
      consumer's position. */
  datatype State = State(log: seq<Entry>, next: nat, last: nat, retries: map<nat, Retry>)

  const TRIM_INTERVAL := 256
  const DEFAULT_LIMIT := 1000

  function Start(): State {
    State([], 1, 0, map[])
  }

  /** MAX(seq), or 0 on an empty log, minus the consumer's position. */
  function Backlog(st: State): int {
    (if st.log == [] then 0 else st.log[|st.log| - 1].id) - st.last
  }

  function LimitOf(limit: int): int {
    if limit <= 0 then DEFAULT_LIMIT else limit
  }

  predicate Admits(st: State, limit: int) {
    Backlog(st) < LimitOf(limit)
  }

  predicate Ready(st: State, e: Entry, now: int) {
    e.id > st.last && (e.id in st.retries ==> st.retries[e.id].at <= now)
  }

  /** The first ready row. */
  function FirstReady(st: State, rows: seq<Entry>, now: int): Option<Entry> {
    if rows == [] then None
    else if Ready(st, rows[0], now) then Some(rows[0])
    else FirstReady(st, rows[1..], now)
  }

  function Claim(st: State, now: int): Option<Entry> {
    FirstReady(st, st.log, now)
  }

  /** DELETE ... WHERE seq <= id. */
  function Above(rows: seq<Entry>, id: nat): seq<Entry> {
    if rows == [] then [] else (if rows[0].id <= id then [] else [rows[0]]) + Above(rows[1..], id)
  }

  function Trim(st: State, id: nat): State {
    st.(log := Above(st.log, id), retries := map k | k in st.retries && k > id :: st.retries[k])
  }

  /** Requests that change the queue. A requeue names the time the row is ready again. */
  datatype Step = Enqueue(payload: string, limit: int) | Done(id: nat) | Requeue(id: nat, at: int)

  function Apply(st: State, step: Step): State {
    match step
    case Enqueue(payload, limit) =>
      if Admits(st, limit) then st.(log := st.log + [Entry(st.next, payload)], next := st.next + 1) else st
    case Done(id) =>
      var moved := st.(last := if id > st.last then id else st.last, retries := st.retries - {id});
      if id % TRIM_INTERVAL == 0 then Trim(moved, id) else moved
    case Requeue(id, at) =>
      var attempts := if id in st.retries then st.retries[id].attempts + 1 else 1;
      st.(retries := st.retries[id := Retry(attempts, at)])
  }

  class Queue {
    var log: seq<Entry>
    var next: nat
    var last: nat
    var retries: map<nat, Retry>

    function Contents(): State
      reads this
    {
      State(log, next, last, retries)
    }

    constructor ()
      ensures Contents() == Start()
    {
      log, next, last, retries := [], 1, 0, map[];
    }

    method Enqueue(payload: string, limit: int) returns (accepted: bool)
      modifies this
      ensures Contents() == Apply(old(Contents()), Step.Enqueue(payload, limit))
      ensures accepted == Admits(old(Contents()), limit)
    {
      var top := if limit <= 0 then DEFAULT_LIMIT else limit;
      var tail := if log == [] then 0 else log[|log| - 1].id;
      if tail - last >= top {
        return false;
      }
      log := log + [Entry(next, payload)];
      next := next + 1;
      accepted := true;
    }

    method ClaimNext(now: int) returns (row: Option<Entry>, attempts: nat)
      ensures row == Claim(Contents(), now)
      ensures attempts == (if row.Some? && row.value.id in retries then retries[row.value.id].attempts else 0) + 1
    {
      row, attempts := None, 1;
      for i := 0 to |log|
        invariant FirstReady(Contents(), log, now) == FirstReady(Contents(), log[i..], now)
        invariant row == None && attempts == 1
      {
        assert log[i..][1..] == log[i + 1..];
        var e := log[i];
        if e.id > last && (e.id !in retries || retries[e.id].at <= now) {
          if e.id in retries {
            attempts := retries[e.id].attempts + 1;
          }
          return Some(e), attempts;
        }
      }
    }

    method MarkDone(id: nat)
      modifies this
      ensures Contents() == Apply(old(Contents()), Done(id))
    {
      if id > last {
        last := id;
      }
      retries := retries - {id};
      if id % TRIM_INTERVAL == 0 {
        log := Above(log, id);
        retries := map k | k in retries && k > id :: retries[k];
      }
    }

    method Requeue(id: nat, now: int, delay: int)
      modifies this
      ensures Contents() == Apply(old(Contents()), Step.Requeue(id, now + if delay <= 0 then 1 else delay))
    {
      var wait := if delay <= 0 then 1 else delay;
      if id in retries {
        retries := retries[id := Retry(retries[id].attempts + 1, now + wait)];
      } else {
        retries := retries[id := Retry(1, now + wait)];
      }
    }
  }

  // ----- what was accepted and what was done

  datatype History = History(accepted: seq<string>, done: set<nat>)

  function Track(h: History, st: State, step: Step): History {
    match step
    case Enqueue(payload, limit) => if Admits(st, limit) then h.(accepted := h.accepted + [payload]) else h
    case Done(id) => h.(done := h.done + {id})
    case Requeue(_, _) => h
  }

  /** Workers only name rows they were given. */
  predicate Issued(st: State, step: Step) {
    match step
    case Enqueue(_, _) => true
    case Done(id) => 1 <= id < st.next
    case Requeue(id, _) => 1 <= id < st.next
  }

  /** `rows` are numbered in turn up to `next` and carry what was accepted. */
  predicate Numbered(rows: seq<Entry>, next: nat, accepted: seq<string>) {
    && next == |accepted| + 1 && |rows| < next
    && forall i :: 0 <= i < |rows| ==> rows[i].id == next - |rows| + i && rows[i].payload == accepted[rows[i].id - 1]
  }

  predicate Furthest(last: nat, done: set<nat>) {
    (last == 0 || last in done) && forall d :: d in done ==> 1 <= d <= last
  }

  /** The log has no gaps and keeps everything past the position, which is the largest
      number marked done. */
  predicate Inv(st: State, h: History) {
    && Numbered(st.log, st.next, h.accepted)
    && st.next - |st.log| - 1 <= st.last < st.next
    && Furthest(st.last, h.done)
  }

  lemma {:induction false} AboveIsSuffix(rows: seq<Entry>, next: nat, accepted: seq<string>, id: nat)
    requires Numbered(rows, next, accepted) && id < next
    ensures Numbered(Above(rows, id), next, accepted)
    ensures |Above(rows, id)| == if next - |rows| <= id then next - 1 - id else |rows|
    decreases |rows|
  {
    if rows != [] {
      AboveIsSuffix(rows[1..], next, accepted, id);
      if rows[0].id > id {
        AboveKeepsAll(rows, id);
      }
    }
  }

  lemma {:induction false} AboveKeepsAll(rows: seq<Entry>, id: nat)
    requires forall i :: 0 <= i < |rows| ==> rows[i].id > id
    ensures Above(rows, id) == rows
  {
    if rows != [] {
      AboveKeepsAll(rows[1..], id);
    }
  }

  lemma InvKept(st: State, h: History, step: Step)
    requires Inv(st, h) && Issued(st, step)
    ensures Inv(Apply(st, step), Track(h, st, step))
  {
    match step
    case Enqueue(payload, _) => NumberedSnoc(st.log, st.next, h.accepted, payload);
    case Done(id) => AboveIsSuffix(st.log, st.next, h.accepted, id);
    case Requeue(_, _) =>
  }

  lemma NumberedSnoc(rows: seq<Entry>, next: nat, accepted: seq<string>, payload: string)
    requires Numbered(rows, next, accepted)
    ensures Numbered(rows + [Entry(next, payload)], next + 1, accepted + [payload])
  {
  }

  // ----- nothing accepted is lost

  /** Accepted, not done, and behind the position. */
  predicate Lost(st: State, h: History, id: nat) {
    1 <= id <= |h.accepted| && id !in h.done && id <= st.last
  }

  ghost predicate NothingLost(st: State, h: History) {
    forall id: nat :: !Lost(st, h, id)
  }

  /** Done may move the position by one row at most. */
  predicate InTurn(st: State, step: Step) {
    step.Done? ==> step.id <= st.last + 1
  }

  /** The exact condition for one step. */
  lemma StepLosesNothingIff(st: State, h: History, step: Step)
    requires Inv(st, h) && Issued(st, step) && NothingLost(st, h)
    ensures NothingLost(Apply(st, step), Track(h, st, step)) <==> InTurn(st, step)
  {
    var st', h' := Apply(st, step), Track(h, st, step);
    if InTurn(st, step) {
      forall id: nat
        ensures !Lost(st', h', id)
      {
        assert !Lost(st, h, id);
      }
    } else {
      assert Lost(st', h', st.last + 1);
    }
  }

  predicate IssuedRun(st: State, steps: seq<Step>)
    decreases |steps|
  {
    steps == [] || (Issued(st, steps[0]) && IssuedRun(Apply(st, steps[0]), steps[1..]))
  }

  predicate InTurnRun(st: State, steps: seq<Step>)
    decreases |steps|
  {
    steps == [] || (InTurn(st, steps[0]) && InTurnRun(Apply(st, steps[0]), steps[1..]))
  }

  /** No state of the run has a lost row. */
  ghost predicate NeverLoses(st: State, h: History, steps: seq<Step>)
    decreases |steps|
  {
    NothingLost(st, h) && (steps == [] || NeverLoses(Apply(st, steps[0]), Track(h, st, steps[0]), steps[1..]))
  }

  /** Over any run: no accepted row is ever lost if and only if rows are marked done in turn. */
  lemma {:induction false} RunLosesNothingIff(st: State, h: History, steps: seq<Step>)
    requires Inv(st, h) && NothingLost(st, h) && IssuedRun(st, steps)
    ensures NeverLoses(st, h, steps) <==> InTurnRun(st, steps)
    decreases |steps|
  {
    if steps != [] {
      StepLosesNothingIff(st, h, steps[0]);
      InvKept(st, h, steps[0]);
      if InTurn(st, steps[0]) {
        RunLosesNothingIff(Apply(st, steps[0]), Track(h, st, steps[0]), steps[1..]);
      } else {
        LostNow(Apply(st, steps[0]), Track(h, st, steps[0]), steps[1..]);
      }
    }
  }

  lemma LostNow(st: State, h: History, steps: seq<Step>)
    requires !NothingLost(st, h)
    ensures !NeverLoses(st, h, steps)
  {
  }

  lemma StartIsGood()
    ensures Inv(Start(), NO_HISTORY) && NothingLost(Start(), NO_HISTORY)
  {
  }

  const NO_HISTORY := History([], {})

  /** ... in particular over any run from the empty queue. */
  lemma QueueLosesNothingIff(steps: seq<Step>)
    requires IssuedRun(Start(), steps)
    ensures NeverLoses(Start(), NO_HISTORY, steps) <==> InTurnRun(Start(), steps)
  {
    StartIsGood();
    RunLosesNothingIff(Start(), NO_HISTORY, steps);
  }

  // ----- what a worker is given

  predicate IsFirst(st: State, rows: seq<Entry>, now: int, e: Entry, i: int) {
    && 0 <= i < |rows| && rows[i] == e && Ready(st, e, now)
    && forall j :: 0 <= j < i ==> !Ready(st, rows[j], now)
  }

  /** A claim is the first row past the position that is not waiting for a retry. */
  lemma {:induction false} FirstReadyIs(st: State, rows: seq<Entry>, now: int)
    ensures var r := FirstReady(st, rows, now);
            if r.None? then forall i :: 0 <= i < |rows| ==> !Ready(st, rows[i], now)
            else exists i :: IsFirst(st, rows, now, r.value, i)
  {
    if rows == [] {
    } else if Ready(st, rows[0], now) {
      var i := 0;
      assert FirstReady(st, rows, now) == Some(rows[0]) && IsFirst(st, rows, now, rows[0], i);
    } else {
      FirstReadyIs(st, rows[1..], now);
      var r := FirstReady(st, rows[1..], now);
      if r.Some? {
        var i :| IsFirst(st, rows[1..], now, r.value, i);
        forall j | 0 <= j < i + 1
          ensures !Ready(st, rows[j], now)
        {
          if j > 0 {
            assert rows[1..][j - 1] == rows[j];
          }
        }
        assert IsFirst(st, rows, now, r.value, i + 1);
      }
    }
  }

  /** The row just past the position is waiting. */
  predicate HeadWaits(st: State, now: int) {
    st.last + 1 in st.retries && st.retries[st.last + 1].at > now
  }

  lemma HeadIsInLog(st: State, h: History)
    requires Inv(st, h) && st.last + 1 < st.next
    ensures var k := st.last + 1 - (st.next - |st.log|);
            0 <= k < |st.log| && st.log[k] == Entry(st.last + 1, h.accepted[st.last])
            && forall i :: 0 <= i < k ==> st.log[i].id <= st.last
  {
  }

  /** A claim returns the head row, with the payload that was accepted, exactly when there
      is one and it is not waiting. */
  lemma ClaimIsHeadIff(st: State, h: History, now: int)
    requires Inv(st, h) && st.last + 1 < st.next
    ensures Claim(st, now) == Some(Entry(st.last + 1, h.accepted[st.last])) <==> !HeadWaits(st, now)
  {
    HeadIsInLog(st, h);
    FirstReadyIs(st, st.log, now);
    var k := st.last + 1 - (st.next - |st.log|);
    if !HeadWaits(st, now) {
      assert Ready(st, st.log[k], now);
      var e := Claim(st, now).value;
      var i :| IsFirst(st, st.log, now, e, i);
      assert i == k;
    }
  }

  /** A single worker that claims and then marks done loses nothing exactly when the head was
      not waiting for a retry at the claim. */
  lemma ClaimThenDoneIff(st: State, h: History, now: int)
    requires Inv(st, h) && NothingLost(st, h) && Claim(st, now).Some?
    ensures var step := Done(Claim(st, now).value.id);
            Issued(st, step) && (NothingLost(Apply(st, step), Track(h, st, step)) <==> !HeadWaits(st, now))
  {
    FirstReadyIs(st, st.log, now);
    var e := Claim(st, now).value;
    var i :| IsFirst(st, st.log, now, e, i);
    StepLosesNothingIff(st, h, Done(e.id));
    ClaimIsHeadIff(st, h, now);
  }

  // ----- a single worker

  /** Rows arrive; the worker claims at a time and then finishes the row or postpones it. */
  datatype Work = Accept(payload: string, limit: int) | Finish(now: int) | Postpone(now: int, at: int)

  /** The step the work amounts to; none when there is nothing to claim. */
  function StepOf(st: State, w: Work): Option<Step> {
    match w
    case Accept(payload, limit) => Some(Enqueue(payload, limit))
    case Finish(now) =>
      (match Claim(st, now)
       case None => None
       case Some(e) => Some(Done(e.id)))
    case Postpone(now, at) =>
      match Claim(st, now)
      case None => None
      case Some(e) => Some(Step.Requeue(e.id, at))
  }

  function WorkNext(st: State, w: Work): State {
    match StepOf(st, w)
    case None => st
    case Some(step) => Apply(st, step)
  }

  function WorkTrack(h: History, st: State, w: Work): History {
    match StepOf(st, w)
    case None => h
    case Some(step) => Track(h, st, step)
  }

  ghost predicate NeverLosesWork(st: State, h: History, ws: seq<Work>)
    decreases |ws|
  {
    NothingLost(st, h) && (ws == [] || NeverLosesWork(WorkNext(st, ws[0]), WorkTrack(h, st, ws[0]), ws[1..]))
  }

  /** The worker finishes a row only if the head row was not waiting when it claimed. */
  predicate Patient(st: State, w: Work) {
    w.Finish? && Claim(st, w.now).Some? ==> !HeadWaits(st, w.now)
  }

  predicate AlwaysPatient(st: State, ws: seq<Work>)
    decreases |ws|
  {
    ws == [] || (Patient(st, ws[0]) && AlwaysPatient(WorkNext(st, ws[0]), ws[1..]))
  }

  lemma ClaimIsIssued(st: State, h: History, now: int)
    requires Inv(st, h) && Claim(st, now).Some?
    ensures 1 <= Claim(st, now).value.id < st.next
  {
    FirstReadyIs(st, st.log, now);
  }

  lemma WorkStep(st: State, h: History, w: Work)
    requires Inv(st, h) && NothingLost(st, h)
    ensures Inv(WorkNext(st, w), WorkTrack(h, st, w))
    ensures NothingLost(WorkNext(st, w), WorkTrack(h, st, w)) <==> Patient(st, w)
  {
    var step := StepOf(st, w);
    if step.Some? {
      if !w.Accept? {
        ClaimIsIssued(st, h, w.now);
      }
      InvKept(st, h, step.value);
      if w.Finish? {
        ClaimThenDoneIff(st, h, w.now);
      } else {
        StepLosesNothingIff(st, h, step.value);
      }
    }
  }

  /** Over any run of a single worker: no accepted row is ever lost if and only if no row is
      finished that was claimed while the head row waited for a retry. */
  lemma {:induction false} WorkLosesNothingIff(st: State, h: History, ws: seq<Work>)
    requires Inv(st, h) && NothingLost(st, h)
    ensures NeverLosesWork(st, h, ws) <==> AlwaysPatient(st, ws)
    decreases |ws|
  {
    if ws != [] {
      WorkStep(st, h, ws[0]);
      if Patient(st, ws[0]) {
        WorkLosesNothingIff(WorkNext(st, ws[0]), WorkTrack(h, st, ws[0]), ws[1..]);
      }
    }
  }

  /** ... in particular from the empty queue. */
  lemma WorkerLosesNothingIff(ws: seq<Work>)
    ensures NeverLosesWork(Start(), NO_HISTORY, ws) <==> AlwaysPatient(Start(), ws)
  {
    StartIsGood();
    WorkLosesNothingIff(Start(), NO_HISTORY, ws);
  }

  function Run(st: State, steps: seq<Step>): State
    decreases |steps|
  {
    if steps == [] then st else Run(Apply(st, steps[0]), steps[1..])
  }

  lemma {:induction false} PositionGrows(st: State, steps: seq<Step>)
    ensures st.last <= Run(st, steps).last
    decreases |steps|
  {
    if steps != [] {
      PositionGrows(Apply(st, steps[0]), steps[1..]);
    }
  }

  /** A row behind the position is never handed out again, whatever happens later. */
  lemma LostForever(st: State, steps: seq<Step>, id: nat, now: int)
    requires id <= st.last
    ensures var r := Claim(Run(st, steps), now); r.Some? ==> r.value.id != id
  {
    PositionGrows(st, steps);
    FirstReadyIs(Run(st, steps), Run(st, steps).log, now);
  }

  /** Two rows; the first is claimed and requeued, the second is claimed and done while the
      first waits: the first is lost. */
  lemma RetryExample()
    ensures var st := Run(Start(), [Enqueue("a", 0), Enqueue("b", 0), Requeue(1, 10)]);
            && Claim(st, 5) == Some(Entry(2, "b"))
            && Lost(Apply(st, Done(2)), History(["a", "b"], {2}), 1)
  {
    var s1 := Apply(Start(), Enqueue("a", 0));
    var s2 := Apply(s1, Enqueue("b", 0));
    var s3 := Apply(s2, Step.Requeue(1, 10));
    assert s3 == State([Entry(1, "a"), Entry(2, "b")], 3, 0, map[1 := Retry(1, 10)]);
    var steps := [Enqueue("a", 0), Enqueue("b", 0), Requeue(1, 10)];
    assert Run(Start(), steps) == Run(s1, steps[1..]) == Run(s2, steps[1..][1..]) == s3;
    assert s3.log[1..][0] == Entry(2, "b");
  }

  // ----- the backlog

  /** Rows past the position. */
  function Pending(st: State): int {
    st.next - 1 - st.last
  }

  /** The reported backlog is the number of rows past the position, except after the whole
      log was trimmed, when it is the position negated. */
  lemma BacklogIff(st: State, h: History)
    requires Inv(st, h)
    ensures Backlog(st) == Pending(st) <==> st.log != [] || st.last == 0
    ensures st.log == [] ==> Pending(st) == 0 && Backlog(st) == 0 - st.last
  {
  }

  function Enqueues(n: nat): seq<Step> {
    if n == 0 then [] else Enqueues(n - 1) + [Enqueue("", 0)]
  }

  lemma {:induction false} RunSnoc(st: State, steps: seq<Step>, step: Step)
    ensures Run(st, steps + [step]) == Apply(Run(st, steps), step)
    decreases |steps|
  {
    if steps == [] {
      assert steps + [step] == [step] && [step][1..] == [];
    } else {
      assert (steps + [step])[1..] == steps[1..] + [step];
      RunSnoc(Apply(st, steps[0]), steps[1..], step);
    }
  }

  lemma {:induction false} Filled(n: nat) returns (h: History)
    requires n <= TRIM_INTERVAL
    ensures var st := Run(Start(), Enqueues(n));
            Inv(st, h) && h.done == {} && |st.log| == n == |h.accepted| && st.last == 0
  {
    if n == 0 {
      h := History([], {});
    } else {
      var h' := Filled(n - 1);
      var st := Run(Start(), Enqueues(n - 1));
      RunSnoc(Start(), Enqueues(n - 1), Enqueue("", 0));
      InvKept(st, h', Enqueue("", 0));
      h := Track(h', st, Enqueue("", 0));
    }
  }

  /** 256 rows are accepted and the last is marked done: the log is empty, nothing is past
      the position, and the reported backlog is -256. */
  lemma BacklogExample()
    ensures var st := Run(Start(), Enqueues(256) + [Done(256)]);
            st.log == [] && st.last == 256 && Pending(st) == 0 && Backlog(st) == -256
  {
    var h := Filled(256);
    var st := Run(Start(), Enqueues(256));
    RunSnoc(Start(), Enqueues(256), Done(256));
    AboveIsSuffix(st.log, st.next, h.accepted, 256);
  }

  // ----- retries

  /** The retry entry that the requests leave a row: each requeue counts one attempt more and
      sets the time; marking it done, or trimming past it, forgets it. */
  function RetryAfter(steps: seq<Step>, id: nat): Option<Retry> {
    if steps == [] then None
    else
      var before := RetryAfter(steps[..|steps| - 1], id);
      match steps[|steps| - 1]
      case Enqueue(_, _) => before
      case Done(d) => if d == id || (d % 256 == 0 && id <= d) then None else before
      case Requeue(r, at) =>
        if r != id then before else Some(Retry(if before.Some? then before.value.attempts + 1 else 1, at))
  }

  lemma {:induction false} RetriesAre(steps: seq<Step>, id: nat)
    ensures var retries := Run(Start(), steps).retries;
            if id in retries then RetryAfter(steps, id) == Some(retries[id]) else RetryAfter(steps, id) == None
    decreases |steps|
  {
    if steps != [] {
      var init, last := steps[..|steps| - 1], steps[|steps| - 1];
      RetriesAre(init, id);
      assert steps == init + [last];
      RunSnoc(Start(), init, last);
    }
  }

  /** The admission decision is right all the same; a limit of zero or less means 1000. */
  lemma AdmissionIsExact(st: State, h: History, limit: int)
    requires Inv(st, h)
    ensures Admits(st, limit) <==> Pending(st) < if limit <= 0 then 1000 else limit
  {
    BacklogIff(st, h);
  }

  /** No request asks for more than `top`. */
  predicate Within(steps: seq<Step>, top: int) {
    forall i :: 0 <= i < |steps| && steps[i].Enqueue? ==> LimitOf(steps[i].limit) <= top
  }

  /** Over any run the rows past the position never exceed the largest limit asked for. */
  lemma {:induction false} PendingIsBounded(st: State, h: History, steps: seq<Step>, top: int)
    requires Inv(st, h) && IssuedRun(st, steps) && Within(steps, top) && 0 <= Pending(st) <= top
    ensures 0 <= Pending(Run(st, steps)) <= top
    decreases |steps|
  {
    if steps != [] {
      InvKept(st, h, steps[0]);
      if steps[0].Enqueue? {
        AdmissionIsExact(st, h, steps[0].limit);
      }
      PendingIsBounded(Apply(st, steps[0]), Track(h, st, steps[0]), steps[1..], top);
    }
  }
}
