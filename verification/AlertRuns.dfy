/** Metric alert rules in operation: rule edits (internal/api/metric_alerts.go) interleaved
    with scheduler ticks (internal/pipeline/scheduler.go). An edit reads a rule and later
    writes the whole row back, state included; a tick takes a snapshot, then stores its
    transitions one at a time. */
module AlertRuns {
  import opened MetricRules
  import opened Options
  import opened Text

  // ----- edits

  datatype Edit =
    | ProjectEdit(name: string, metric: string, customMetricName: string, threshold: real,
                  thresholdType: string, timeWindowSecs: int, resolveThreshold: real,
                  environment: string, status: string)
    | OrgEdit(name: string, metric: string, threshold: real, hasTriggers: bool, below: bool,
              timeWindow: int, resolveThreshold: real, environment: string, status: string)

  predicate ValidMetric(m: string) {
    m in {"error_count", "transaction_count", "p95_latency", "failure_rate", "apdex", "custom_metric"}
  }

  predicate ValidWindow(secs: int) {
    secs in {60, 300, 600, 900, 1800, 3600}
  }

  predicate IsActive(status: string) {
    var s := ToLower(TrimSpace(status));
    s != "disabled" && s != "inactive"
  }

  /** The row an edit writes, or nothing when it is rejected. The state is the one read. */
  function ApplyEdit(r: Rule, edit: Edit): (w: Option<Rule>)
    ensures w.Some? ==> w.value.id == r.id && w.value.projectId == r.projectId && w.value.state == r.state
  {
    match edit
    case ProjectEdit(name, metric, custom, threshold, thresholdType, window, resolve, environment, status) =>
      if TrimSpace(name) == "" || (metric != "" && !ValidMetric(metric)) then None
      else if metric == "custom_metric" && TrimSpace(custom) == "" then None
      else Some(r.(
        name := TrimSpace(name), active := IsActive(status),
        metric := if metric != "" then metric else r.metric,
        customMetricName := if custom != "" then TrimSpace(custom) else r.customMetricName,
        direction := if thresholdType != "" then ParseDirection(thresholdType) else r.direction,
        timeWindowSecs := if ValidWindow(window) then window else r.timeWindowSecs,
        threshold := threshold, resolveThreshold := resolve, environment := TrimSpace(environment)))
    case OrgEdit(name, metric, threshold, hasTriggers, below, window, resolve, environment, status) =>
      if TrimSpace(name) == "" || !ValidMetric(metric) || (threshold == 0.0 && !hasTriggers) then None
      else Some(Rule(
        r.id, r.projectId, TrimSpace(name), metric, "", threshold, if below then BelowLimit else AboveLimit,
        if ValidWindow(window * 60) then window * 60 else 300,
        resolve, TrimSpace(environment), IsActive(status), r.state))
  }

  // ----- the state machine

  datatype Entry = Entry(id: string, from: State, to: State)

  /** Stored rules, rows read by edits in progress, transitions of the running tick that
      are not stored yet, the log of stored transitions, and every id ever given out. */
  datatype System = System(
    rules: map<string, Rule>, edits: map<nat, Rule>, pending: seq<Transition>,
    log: seq<Entry>, used: set<string>)

  datatype Step =
    | Create(rule: Rule)
    | Delete(id: string)
    | BeginEdit(session: nat, id: string)
    | CommitEdit(session: nat, edit: Edit)
    | BeginTick(order: seq<string>, engine: map<string, Option<real>>)
    | Persist
    | PersistFails

  /** The active rules, in whatever order the store lists them. */
  ghost predicate ListsActive(order: seq<string>, rules: map<string, Rule>) {
    && (forall i, j :: 0 <= i < j < |order| ==> order[i] != order[j])
    && (forall id :: id in order <==> id in rules && rules[id].active)
  }

  function RowsOf(order: seq<string>, rules: map<string, Rule>): seq<Rule>
    requires forall i :: 0 <= i < |order| ==> order[i] in rules
  {
    if order == [] then [] else RowsOf(order[..|order| - 1], rules) + [rules[order[|order| - 1]]]
  }

  ghost predicate Enabled(s: System, step: Step) {
    match step
    case Create(rule) => rule.id !in s.used && rule.state == Ok
    case Delete(_) => true
    case BeginEdit(_, id) => id in s.rules
    case CommitEdit(session, _) => session in s.edits
    case BeginTick(order, _) => s.pending == [] && ListsActive(order, s.rules)
    case Persist => s.pending != []
    case PersistFails => s.pending != []
  }

  /** What the store keeps of a row: it has no column for the custom metric name. */
  function Stored(r: Rule): Rule {
    r.(customMetricName := "")
  }

  ghost function Next(s: System, step: Step): System
    requires Enabled(s, step)
  {
    match step
    case Create(rule) => s.(rules := s.rules[rule.id := Stored(rule)], used := s.used + {rule.id})
    case Delete(id) => s.(rules := s.rules - {id})
    case BeginEdit(session, id) => s.(edits := s.edits[session := s.rules[id]])
    case CommitEdit(session, edit) =>
      var r := s.edits[session];
      var w := ApplyEdit(r, edit);
      s.(edits := s.edits - {session},
         rules := if w.Some? && r.id in s.rules then s.rules[r.id := Stored(w.value)] else s.rules)
    case BeginTick(order, engine) => s.(pending := AllTransitions(RowsOf(order, s.rules), engine))
    case Persist =>
      var t := s.pending[0];
      s.(pending := s.pending[1..],
         rules := if t.rule.id in s.rules then s.rules[t.rule.id := Stored(t.rule).(state := t.to)] else s.rules,
         log := s.log + [Entry(t.rule.id, t.from, t.to)])
    case PersistFails => s.(pending := s.pending[1..])
  }

  const EMPTY := System(map[], map[], [], [], {})

  // ----- what should always hold

  /** The state the log says a rule is in. */
  function Logged(log: seq<Entry>, id: string): State {
    if log == [] then Ok
    else if log[|log| - 1].id == id then log[|log| - 1].to
    else Logged(log[..|log| - 1], id)
  }

  predicate Legal(from: State, to: State) {
    (from != Triggered && to == Triggered) || (from == Triggered && to == Resolved)
  }

  /** Every stored transition starts where the previous one of its rule ended. */
  predicate Chained(log: seq<Entry>) {
    log == [] ||
    var init, e := log[..|log| - 1], log[|log| - 1];
    Chained(init) && e.from == Logged(init, e.id) && Legal(e.from, e.to)
  }

  /** The log is chained and every stored rule is in the state the log says. */
  ghost predicate Good(s: System) {
    Chained(s.log) && forall id :: id in s.rules ==> s.rules[id].state == Logged(s.log, id)
  }

  /** Rows are stored under their ids, ids are never given out twice, and the pending
      transitions are ones the evaluator produced. */
  ghost predicate Inv(s: System) {
    && (forall id :: id in s.rules ==> s.rules[id].id == id && id in s.used)
    && (forall k :: k in s.edits ==> s.edits[k].id in s.used)
    && (forall i :: 0 <= i < |s.pending| ==>
          s.pending[i].rule.id in s.used && Legal(s.pending[i].from, s.pending[i].to))
    && (forall i :: 0 <= i < |s.log| ==> s.log[i].id in s.used)
  }

  lemma {:induction false} LoggedUnused(log: seq<Entry>, id: string)
    requires forall i :: 0 <= i < |log| ==> log[i].id != id
    ensures Logged(log, id) == Ok
  {
    if log != [] {
      LoggedUnused(log[..|log| - 1], id);
    }
  }

  lemma LoggedSnoc(log: seq<Entry>, e: Entry)
    ensures (log + [e])[..|log|] == log
    ensures forall id :: Logged(log + [e], id) == if e.id == id then e.to else Logged(log, id)
    ensures Chained(log + [e]) <==> Chained(log) && e.from == Logged(log, e.id) && Legal(e.from, e.to)
  {
    assert (log + [e])[..|log|] == log;
  }

  lemma EvaluateFacts(rule: Rule, engine: map<string, Option<real>>)
    ensures var t := EvaluateOne(rule, engine);
            t.Some? ==> t.value.rule == rule && t.value.from == rule.state && Legal(t.value.from, t.value.to)
  {
  }

  predicate Starts(t: Transition, rules: map<string, Rule>) {
    t.rule.id in rules && t.from == rules[t.rule.id].state && Legal(t.from, t.to)
  }

  /** The transitions are legal, start at the stored states, and concern each listed
      rule at most once. */
  predicate TickResult(ts: seq<Transition>, order: seq<string>, rules: map<string, Rule>) {
    && (forall i :: 0 <= i < |ts| ==> Starts(ts[i], rules) && ts[i].rule.id in order)
    && (forall i, j :: 0 <= i < j < |ts| ==> ts[i].rule.id != ts[j].rule.id)
  }

  lemma TickResultSnoc(ts: seq<Transition>, t: Option<Transition>, order: seq<string>, id: string,
      rules: map<string, Rule>)
    requires TickResult(ts, order, rules) && id !in order
    requires t.Some? ==> Starts(t.value, rules) && t.value.rule.id == id
    ensures TickResult(if t.Some? then ts + [t.value] else ts, order + [id], rules)
  {
  }

  lemma {:induction false} TickTransitions(order: seq<string>, rules: map<string, Rule>,
      engine: map<string, Option<real>>)
    requires forall i :: 0 <= i < |order| ==> order[i] in rules && rules[order[i]].id == order[i]
    requires forall i, j :: 0 <= i < j < |order| ==> order[i] != order[j]
    ensures TickResult(AllTransitions(RowsOf(order, rules), engine), order, rules)
  {
    if order != [] {
      var init, id := order[..|order| - 1], order[|order| - 1];
      TickTransitions(init, rules, engine);
      var rows := RowsOf(order, rules);
      assert rows[|rows| - 1] == rules[id] && rows[..|rows| - 1] == RowsOf(init, rules);
      EvaluateFacts(rules[id], engine);
      assert order == init + [id];
      TickResultSnoc(AllTransitions(RowsOf(init, rules), engine), EvaluateOne(rules[id], engine), init, id, rules);
    }
  }

  lemma TickStarts(s: System, order: seq<string>, engine: map<string, Option<real>>)
    requires Inv(s) && Enabled(s, BeginTick(order, engine))
    ensures TickResult(Next(s, BeginTick(order, engine)).pending, order, s.rules)
  {
    TickTransitions(order, s.rules, engine);
  }

  lemma InvKept(s: System, step: Step)
    requires Inv(s) && Enabled(s, step)
    ensures Inv(Next(s, step))
  {
    if step.BeginTick? {
      TickStarts(s, step.order, step.engine);
    }
  }

  /** The pending transitions start at the logged states and concern different rules. */
  ghost predicate PendingFresh(s: System) {
    && (forall i :: 0 <= i < |s.pending| ==> s.pending[i].from == Logged(s.log, s.pending[i].rule.id))
    && (forall i, j :: 0 <= i < j < |s.pending| ==> s.pending[i].rule.id != s.pending[j].rule.id)
  }

  /** Inside an edit's read and write no tick changed the rule's state: the state the edit
      is about to write is the stored one. Every other step is fresh. */
  ghost predicate Fresh(s: System, step: Step)
    requires Enabled(s, step)
  {
    step.CommitEdit? ==>
      var r := s.edits[step.session];
      ApplyEdit(r, step.edit).Some? && r.id in s.rules ==> r.state == s.rules[r.id].state
  }

  ghost predicate AllGood(s: System) {
    Inv(s) && Good(s) && PendingFresh(s)
  }

  lemma PendingStaysFresh(s: System, step: Step)
    requires AllGood(s) && Enabled(s, step)
    ensures PendingFresh(Next(s, step))
  {
    match step
    case BeginTick(order, engine) => TickStarts(s, order, engine);
    case Persist =>
      var t := s.pending[0];
      LoggedSnoc(s.log, Entry(t.rule.id, t.from, t.to));
    case _ =>
  }

  /** One step of any interleaving keeps the log chained and the states in step with it
      exactly when it is not an edit that writes a stale state. */
  lemma StepKeepsGoodIff(s: System, step: Step)
    requires AllGood(s) && Enabled(s, step)
    ensures Good(Next(s, step)) <==> Fresh(s, step)
  {
    match step
    case Create(rule) => LoggedUnused(s.log, rule.id);
    case CommitEdit(session, edit) =>
      var r := s.edits[session];
      if ApplyEdit(r, edit).Some? && r.id in s.rules {
        assert Next(s, step).rules[r.id].state == r.state;
      }
    case Persist =>
      var t := s.pending[0];
      LoggedSnoc(s.log, Entry(t.rule.id, t.from, t.to));
    case _ =>
  }

  // ----- runs

  ghost predicate IsRun(s: System, steps: seq<Step>)
    decreases |steps|
  {
    steps == [] || (Enabled(s, steps[0]) && IsRun(Next(s, steps[0]), steps[1..]))
  }

  ghost function Run(s: System, steps: seq<Step>): System
    requires IsRun(s, steps)
    decreases |steps|
  {
    if steps == [] then s else Run(Next(s, steps[0]), steps[1..])
  }

  lemma RunCons(s: System, step: Step, rest: seq<Step>)
    requires Enabled(s, step) && IsRun(Next(s, step), rest)
    ensures IsRun(s, [step] + rest) && Run(s, [step] + rest) == Run(Next(s, step), rest)
  {
    assert ([step] + rest)[1..] == rest;
  }

  ghost predicate AlwaysGood(s: System, steps: seq<Step>)
    requires IsRun(s, steps)
    decreases |steps|
  {
    Good(s) && (steps == [] || AlwaysGood(Next(s, steps[0]), steps[1..]))
  }

  /** No edit of the run writes a stale state. */
  ghost predicate EditsFresh(s: System, steps: seq<Step>)
    requires IsRun(s, steps)
    decreases |steps|
  {
    steps == [] || (Fresh(s, steps[0]) && EditsFresh(Next(s, steps[0]), steps[1..]))
  }

  /** Over every interleaving: the log is chained and in step with the stored states
      throughout exactly when no edit writes a stale state. Ticks never break it. */
  lemma {:induction false} RunIsGoodIff(s: System, steps: seq<Step>)
    requires AllGood(s) && IsRun(s, steps)
    ensures AlwaysGood(s, steps) <==> EditsFresh(s, steps)
    decreases |steps|
  {
    if steps != [] {
      StepKeepsGoodIff(s, steps[0]);
      if Fresh(s, steps[0]) {
        InvKept(s, steps[0]);
        PendingStaysFresh(s, steps[0]);
        RunIsGoodIff(Next(s, steps[0]), steps[1..]);
      }
    }
  }

  lemma StartsGood()
    ensures AllGood(EMPTY)
  {
  }

  /** ... in particular over every interleaving from the empty store. */
  lemma HistoryIsGoodIff(steps: seq<Step>)
    requires IsRun(EMPTY, steps)
    ensures AlwaysGood(EMPTY, steps) <==> EditsFresh(EMPTY, steps)
  {
    StartsGood();
    RunIsGoodIff(EMPTY, steps);
  }

  // ----- what a stale state leads to

  /** The metrics the engine answers for every rule. */
  predicate Plain(rule: Rule) {
    rule.metric in {"error_count", "transaction_count", "p95_latency", "failure_rate"}
  }

  /** A value on which the rule changes state. */
  function Telling(rule: Rule): real {
    if rule.state == Triggered then
      if rule.resolveThreshold > 0.0 then rule.resolveThreshold else rule.threshold
    else if rule.direction == BelowLimit then rule.threshold - 1.0
    else rule.threshold + 1.0
  }

  lemma TellingTells(rule: Rule, engine: map<string, Option<real>>)
    requires Plain(rule) && rule.id in engine && engine[rule.id] == Some(Telling(rule))
    ensures var t := EvaluateOne(rule, engine);
            t.Some? && t.value.rule == rule && t.value.from == rule.state
  {
  }

  /** When only one of the listed rules gets an answer, its transition is the only one. */
  lemma {:induction false} OnlyTransition(rows: seq<Rule>, id: string, v: real)
    requires forall i, j :: 0 <= i < j < |rows| ==> rows[i].id != rows[j].id
    ensures var engine := map[id := Some(v)];
            var ts := AllTransitions(rows, engine);
            if exists i :: 0 <= i < |rows| && rows[i].id == id && EvaluateOne(rows[i], engine).Some?
            then |ts| == 1 && ts[0].rule.id == id && ts[0].rule in rows && ts[0].from == ts[0].rule.state
            else ts == []
  {
    if rows != [] {
      OnlyTransition(rows[..|rows| - 1], id, v);
      EvaluateFacts(rows[|rows| - 1], map[id := Some(v)]);
    }
  }

  lemma {:induction false} RowsAre(order: seq<string>, rules: map<string, Rule>)
    requires forall i :: 0 <= i < |order| ==> order[i] in rules
    ensures |RowsOf(order, rules)| == |order|
    ensures forall i :: 0 <= i < |order| ==> RowsOf(order, rules)[i] == rules[order[i]]
  {
    if order != [] {
      RowsAre(order[..|order| - 1], rules);
    }
  }

  /** Whenever an active rule's stored state differs from the logged one, the next tick can
      break the chain: for some query answer it stores a transition that starts elsewhere. */
  lemma OutOfStepBreaks(s: System, id: string, order: seq<string>)
    requires Inv(s) && s.pending == [] && ListsActive(order, s.rules)
    requires id in s.rules && s.rules[id].active && Plain(s.rules[id]) && s.rules[id].state != Logged(s.log, id)
    ensures var steps := [BeginTick(order, map[id := Some(Telling(s.rules[id]))]), Persist];
            IsRun(s, steps) && !Chained(Run(s, steps).log)
  {
    var rule := s.rules[id];
    var tick := BeginTick(order, map[id := Some(Telling(rule))]);
    TellingTick(s, id, order);
    var s1 := Next(s, tick);
    LoggedSnoc(s1.log, Entry(id, s1.pending[0].from, s1.pending[0].to));
    assert [Persist] + [] == [Persist] && [tick] + [Persist] == [tick, Persist];
    RunCons(s1, Persist, []);
    RunCons(s, tick, [Persist]);
  }

  lemma TellingTick(s: System, id: string, order: seq<string>)
    requires Inv(s) && s.pending == [] && ListsActive(order, s.rules)
    requires id in s.rules && s.rules[id].active && Plain(s.rules[id])
    ensures var ts := Next(s, BeginTick(order, map[id := Some(Telling(s.rules[id]))])).pending;
            |ts| == 1 && ts[0].rule.id == id && ts[0].from == s.rules[id].state
  {
    var rule := s.rules[id];
    var rows := RowsOf(order, s.rules);
    RowsAre(order, s.rules);
    assert id in order;
    var i :| 0 <= i < |order| && order[i] == id;
    assert rows[i] == rule;
    TellingTells(rule, map[id := Some(Telling(rule))]);
    OnlyTransition(rows, id, Telling(rule));
    TickRows(s, order, map[id := Some(Telling(rule))]);
  }

  // ----- runs without overlap

  /** Edits and ticks that run to completion before anything else happens. */
  datatype Whole =
    | WholeCreate(rule: Rule)
    | WholeDelete(id: string)
    | WholeEdit(session: nat, id: string, edit: Edit)
    | WholeTick(order: seq<string>, engine: map<string, Option<real>>)

  ghost predicate WholeEnabled(s: System, w: Whole) {
    match w
    case WholeCreate(rule) => Enabled(s, Create(rule))
    case WholeDelete(_) => true
    case WholeEdit(_, id, _) => id in s.rules
    case WholeTick(order, engine) => Enabled(s, BeginTick(order, engine))
  }

  ghost function PersistAll(s: System): System
    decreases |s.pending|
  {
    if s.pending == [] then s else PersistAll(Next(s, Persist))
  }

  ghost function WholeNext(s: System, w: Whole): System
    requires WholeEnabled(s, w)
  {
    match w
    case WholeCreate(rule) => Next(s, Create(rule))
    case WholeDelete(id) => Next(s, Delete(id))
    case WholeEdit(session, id, edit) => Next(Next(s, BeginEdit(session, id)), CommitEdit(session, edit))
    case WholeTick(order, engine) => PersistAll(Next(s, BeginTick(order, engine)))
  }

  lemma {:induction false} PersistAllIsGood(s: System)
    requires AllGood(s)
    ensures AllGood(PersistAll(s)) && PersistAll(s).pending == []
    decreases |s.pending|
  {
    if s.pending != [] {
      InvKept(s, Persist);
      PendingStaysFresh(s, Persist);
      StepKeepsGoodIff(s, Persist);
      PersistAllIsGood(Next(s, Persist));
    }
  }

  lemma CreateKeepsGood(s: System, rule: Rule)
    requires AllGood(s) && Enabled(s, Create(rule))
    ensures AllGood(Next(s, Create(rule)))
  {
    LoggedUnused(s.log, rule.id);
  }

  lemma EditKeepsGood(s: System, session: nat, id: string, edit: Edit)
    requires AllGood(s) && s.pending == [] && id in s.rules
    ensures AllGood(Next(Next(s, BeginEdit(session, id)), CommitEdit(session, edit)))
  {
    var s1 := Next(s, BeginEdit(session, id));
    StepKeepsGoodIff(s, BeginEdit(session, id));
    StepKeepsGoodIff(s1, CommitEdit(session, edit));
  }

  lemma TickKeepsGood(s: System, order: seq<string>, engine: map<string, Option<real>>)
    requires AllGood(s) && Enabled(s, BeginTick(order, engine))
    ensures AllGood(Next(s, BeginTick(order, engine)))
  {
    InvKept(s, BeginTick(order, engine));
    PendingStaysFresh(s, BeginTick(order, engine));
  }

  lemma WholeKeepsGood(s: System, w: Whole)
    requires AllGood(s) && s.pending == [] && WholeEnabled(s, w)
    ensures AllGood(WholeNext(s, w)) && WholeNext(s, w).pending == []
  {
    match w
    case WholeCreate(rule) => CreateKeepsGood(s, rule);
    case WholeDelete(id) =>
    case WholeEdit(session, id, edit) => EditKeepsGood(s, session, id, edit);
    case WholeTick(order, engine) =>
      TickKeepsGood(s, order, engine);
      PersistAllIsGood(Next(s, BeginTick(order, engine)));
  }

  ghost predicate IsWholeRun(s: System, ws: seq<Whole>)
    decreases |ws|
  {
    ws == [] || (WholeEnabled(s, ws[0]) && IsWholeRun(WholeNext(s, ws[0]), ws[1..]))
  }

  ghost function WholeRun(s: System, ws: seq<Whole>): System
    requires IsWholeRun(s, ws)
    decreases |ws|
  {
    if ws == [] then s else WholeRun(WholeNext(s, ws[0]), ws[1..])
  }

  /** Any sequence of ticks, failed queries, creations, deletions and edits that do not
      overlap keeps the log chained and in step with the stored states. */
  lemma {:induction false} WholeRunsAreGood(s: System, ws: seq<Whole>)
    requires AllGood(s) && s.pending == [] && IsWholeRun(s, ws)
    ensures Good(WholeRun(s, ws))
    decreases |ws|
  {
    if ws != [] {
      WholeKeepsGood(s, ws[0]);
      WholeRunsAreGood(WholeNext(s, ws[0]), ws[1..]);
    }
  }

  // ----- what a chained log says

  /** Entry j follows entry i of the same rule with none of that rule in between. */
  predicate Follows(log: seq<Entry>, i: nat, j: nat) {
    i < j < |log| && log[i].id == log[j].id && forall k :: i < k < j ==> log[k].id != log[j].id
  }

  lemma {:induction false} LoggedAt(log: seq<Entry>, i: nat, n: nat)
    requires i < n <= |log| && forall k :: i < k < n ==> log[k].id != log[i].id
    ensures Logged(log[..n], log[i].id) == log[i].to
    decreases n
  {
    assert log[..n][..n - 1] == log[..n - 1];
    if i < n - 1 {
      LoggedAt(log, i, n - 1);
    }
  }

  lemma {:induction false} ChainedAt(log: seq<Entry>, j: nat)
    requires Chained(log) && j < |log|
    ensures log[j].from == Logged(log[..j], log[j].id) && Legal(log[j].from, log[j].to)
  {
    if j < |log| - 1 {
      ChainedAt(log[..|log| - 1], j);
      assert log[..|log| - 1][..j] == log[..j];
    }
  }

  /** A rule's transitions alternate between triggered and resolved, each starts where the
      one before ended, the first goes from ok to triggered, and ok is never re-entered. */
  lemma ChainedAlternates(log: seq<Entry>)
    requires Chained(log)
    ensures forall i: nat, j: nat :: Follows(log, i, j) ==> log[j].from == log[i].to && log[j].to != log[i].to
    ensures forall j :: 0 <= j < |log| && (forall k :: 0 <= k < j ==> log[k].id != log[j].id) ==>
              log[j].from == Ok && log[j].to == Triggered
    ensures forall j :: 0 <= j < |log| ==> log[j].to != Ok
  {
    forall i: nat, j: nat | Follows(log, i, j)
      ensures log[j].from == log[i].to && log[j].to != log[i].to
    {
      ChainedAt(log, j);
      LoggedAt(log, i, j);
    }
    forall j | 0 <= j < |log|
      ensures log[j].to != Ok
      ensures (forall k :: 0 <= k < j ==> log[k].id != log[j].id) ==> log[j].from == Ok && log[j].to == Triggered
    {
      ChainedAt(log, j);
      if forall k :: 0 <= k < j ==> log[k].id != log[j].id {
        LoggedUnused(log[..j], log[j].id);
      }
    }
  }

  // ----- an edit that overlaps a tick

  /** An edit begins, a tick triggers the rule, the edit writes the old state back, and the
      next tick triggers the rule again. */
  function OverlapSteps(rule: Rule, edit: Edit, v: real, w: real): seq<Step> {
    FirstSteps(rule, edit, v) + [BeginTick([rule.id], map[rule.id := Some(w)]), Persist]
  }

  lemma OneTick(s: System, rule: Rule, v: real)
    requires s.rules == map[rule.id := rule] && s.pending == [] && rule.active && Plain(rule) && rule.state == Ok
    requires Breached(rule, v)
    ensures var tick := BeginTick([rule.id], map[rule.id := Some(v)]);
            && Enabled(s, tick)
            && Next(s, tick) == s.(pending := [Transition(rule, Ok, Triggered, v)])
  {
    RowsAre([rule.id], s.rules);
    assert RowsOf([rule.id], s.rules) == [rule];
    OneRow(rule, v);
  }

  lemma OneRow(rule: Rule, v: real)
    requires Plain(rule) && rule.state == Ok && Breached(rule, v)
    ensures AllTransitions([rule], map[rule.id := Some(v)]) == [Transition(rule, Ok, Triggered, v)]
  {
    assert [rule][..0] == [];
    assert Query(rule, map[rule.id := Some(v)]) == Some(v);
  }

  /** Create the rule and begin the edit; the tick then sees the rule as created. */
  lemma OverlapBegin(rule: Rule, v: real) returns (s1: System, s2: System)
    requires rule.state == Ok && rule.active && Plain(rule) && rule.customMetricName == "" && Breached(rule, v)
    ensures s1 == Next(EMPTY, Create(rule))
    ensures Enabled(s1, BeginEdit(0, rule.id)) && s2 == Next(s1, BeginEdit(0, rule.id))
    ensures s2 == System(map[rule.id := rule], map[0 := rule], [], [], {rule.id})
  {
    assert Stored(rule) == rule;
    s1 := Next(EMPTY, Create(rule));
    s2 := Next(s1, BeginEdit(0, rule.id));
  }

  /** Store the transition and commit the edit: the state is back at ok. */
  lemma OverlapCommit(rule: Rule, edit: Edit, v: real) returns (s4: System, s: System)
    requires rule.state == Ok && ApplyEdit(rule, edit).Some?
    ensures var s3 := System(map[rule.id := rule], map[0 := rule], [Transition(rule, Ok, Triggered, v)], [], {rule.id});
            s4 == Next(s3, Persist) && Enabled(s4, CommitEdit(0, edit)) && s == Next(s4, CommitEdit(0, edit))
    ensures s == System(map[rule.id := Stored(ApplyEdit(rule, edit).value)], map[], [],
                        [Entry(rule.id, Ok, Triggered)], {rule.id})
  {
    var s3 := System(map[rule.id := rule], map[0 := rule], [Transition(rule, Ok, Triggered, v)], [], {rule.id});
    s4 := Next(s3, Persist);
    s := Next(s4, CommitEdit(0, edit));
    assert s.rules == map[rule.id := Stored(ApplyEdit(rule, edit).value)];
    assert s.edits == map[];
  }

  function FirstSteps(rule: Rule, edit: Edit, v: real): seq<Step> {
    [Create(rule), BeginEdit(0, rule.id), BeginTick([rule.id], map[rule.id := Some(v)]), Persist, CommitEdit(0, edit)]
  }

  lemma OverlapFirst(rule: Rule, edit: Edit, v: real, s: System, rest: seq<Step>)
    requires rule.state == Ok && rule.active && Plain(rule) && rule.customMetricName == "" && Breached(rule, v)
    requires ApplyEdit(rule, edit).Some?
    requires s == System(map[rule.id := Stored(ApplyEdit(rule, edit).value)], map[], [],
                         [Entry(rule.id, Ok, Triggered)], {rule.id})
    requires IsRun(s, rest)
    ensures IsRun(EMPTY, FirstSteps(rule, edit, v) + rest)
    ensures Run(EMPTY, FirstSteps(rule, edit, v) + rest) == Run(s, rest)
  {
    var tick := BeginTick([rule.id], map[rule.id := Some(v)]);
    var s1, s2 := OverlapBegin(rule, v);
    OneTick(s2, rule, v);
    var s3 := Next(s2, tick);
    var s4, s5 := OverlapCommit(rule, edit, v);
    var t4 := [CommitEdit(0, edit)] + rest;
    RunCons(s4, CommitEdit(0, edit), rest);
    RunCons(s3, Persist, t4);
    RunCons(s2, tick, [Persist] + t4);
    RunCons(s1, BeginEdit(0, rule.id), [tick] + ([Persist] + t4));
    RunCons(EMPTY, Create(rule), [BeginEdit(0, rule.id)] + ([tick] + ([Persist] + t4)));
    assert FirstSteps(rule, edit, v) + rest == [Create(rule)] + ([BeginEdit(0, rule.id)] + ([tick] + ([Persist] + t4)));
  }

  /** For every rule and every edit that leaves it active and answerable, the overlap stores
      two transitions from ok to triggered in a row: the log is not chained. */
  lemma OverlapBreaksChain(rule: Rule, edit: Edit, v: real, w: real)
    requires rule.state == Ok && rule.active && Plain(rule) && rule.customMetricName == "" && Breached(rule, v)
    requires var r := ApplyEdit(rule, edit);
             r.Some? && r.value.active && Plain(r.value) && Breached(r.value, w)
    ensures var steps := OverlapSteps(rule, edit, v, w);
            && IsRun(EMPTY, steps)
            && Run(EMPTY, steps).log == [Entry(rule.id, Ok, Triggered), Entry(rule.id, Ok, Triggered)]
            && !Chained(Run(EMPTY, steps).log)
  {
    var r := Stored(ApplyEdit(rule, edit).value);
    var tick := BeginTick([rule.id], map[rule.id := Some(w)]);
    var rest := [tick, Persist];
    var s := System(map[rule.id := r], map[], [], [Entry(rule.id, Ok, Triggered)], {rule.id});
    OneTick(s, r, w);
    var s1 := Next(s, tick);
    assert [Persist] + [] == [Persist] && [tick] + [Persist] == rest;
    RunCons(s1, Persist, []);
    RunCons(s, tick, [Persist]);
    var e := Entry(rule.id, Ok, Triggered);
    LoggedSnoc([], e);
    assert [] + [e] == [e] && [e] + [e] == [e, e];
    LoggedSnoc([e], e);
    OverlapFirst(rule, edit, v, s, rest);
  }

  const SAMPLE_RULE := Rule("r", "p", "errors", "error_count", "", 10.0, AboveLimit, 300, 0.0, "", true, Ok)
  const SAMPLE_EDIT := ProjectEdit("errors", "", "", 5.0, "", 0, 0.0, "", "active")

  /** A rule above 10 whose threshold is edited to 5 while a tick sees 20. */
  lemma StaleEditExample()
    ensures var steps := OverlapSteps(SAMPLE_RULE, SAMPLE_EDIT, 20.0, 20.0);
            IsRun(EMPTY, steps) && !Chained(Run(EMPTY, steps).log)
  {
    TrimFixed("errors", Space);
    TrimFixed("active", Space);
    LowerFixed("active");
    OverlapBreaksChain(SAMPLE_RULE, SAMPLE_EDIT, 20.0, 20.0);
  }

  // ----- when an edit survives

  /** Everything an edit sets: the row without its state. */
  function Settings(r: Rule): Rule {
    r.(state := Ok)
  }

  /** The step neither deletes the rule nor writes another edit of it. */
  ghost predicate LeavesAlone(s: System, step: Step, id: string)
    requires Enabled(s, step)
  {
    match step
    case Delete(d) => d != id
    case CommitEdit(session, edit) => s.edits[session].id != id || ApplyEdit(s.edits[session], edit).None?
    case _ => true
  }

  ghost predicate AllLeaveAlone(s: System, steps: seq<Step>, id: string)
    requires IsRun(s, steps)
    decreases |steps|
  {
    steps == [] || (LeavesAlone(s, steps[0], id) && AllLeaveAlone(Next(s, steps[0]), steps[1..], id))
  }

  ghost predicate HasSettings(s: System, id: string, r: Rule) {
    id in s.rules && Settings(s.rules[id]) == r
  }

  /** The running tick holds no older copy of the rule. */
  ghost predicate NoOlderCopy(s: System, id: string, r: Rule) {
    forall i :: 0 <= i < |s.pending| && s.pending[i].rule.id == id ==> Settings(Stored(s.pending[i].rule)) == r
  }

  /** Whatever happens next, short of deleting or editing the rule, its settings stay. */
  ghost predicate Survives(s: System, id: string, r: Rule) {
    forall steps :: IsRun(s, steps) && AllLeaveAlone(s, steps, id) ==> HasSettings(Run(s, steps), id, r)
  }

  lemma StepKeepsSettings(s: System, step: Step, id: string, r: Rule)
    requires Inv(s) && Enabled(s, step) && LeavesAlone(s, step, id) && !step.BeginTick?
    requires HasSettings(s, id, r) && NoOlderCopy(s, id, r) && Stored(r) == r
    ensures HasSettings(Next(s, step), id, r) && NoOlderCopy(Next(s, step), id, r)
  {
  }

  lemma TickKeepsSettings(s: System, order: seq<string>, engine: map<string, Option<real>>, id: string, r: Rule)
    requires Inv(s) && Enabled(s, BeginTick(order, engine)) && HasSettings(s, id, r) && Stored(r) == r
    ensures var s' := Next(s, BeginTick(order, engine)); HasSettings(s', id, r) && NoOlderCopy(s', id, r)
  {
    TickRows(s, order, engine);
  }

  /** A tick's transitions carry the stored rows. */
  lemma TickRows(s: System, order: seq<string>, engine: map<string, Option<real>>)
    requires Inv(s) && Enabled(s, BeginTick(order, engine))
    ensures var ts := Next(s, BeginTick(order, engine)).pending;
            forall i :: 0 <= i < |ts| ==> ts[i].rule.id in s.rules && ts[i].rule == s.rules[ts[i].rule.id]
  {
    RowsAre(order, s.rules);
    var rows := RowsOf(order, s.rules);
    var ts := AllTransitions(rows, engine);
    forall i | 0 <= i < |ts|
      ensures ts[i].rule.id in s.rules && ts[i].rule == s.rules[ts[i].rule.id]
    {
      var j := TransitionRow(rows, engine, i);
      assert order[j] in s.rules;
    }
  }

  lemma {:induction false} TransitionRow(rows: seq<Rule>, engine: map<string, Option<real>>, i: nat) returns (j: nat)
    requires i < |AllTransitions(rows, engine)|
    ensures j < |rows| && rows[j] == AllTransitions(rows, engine)[i].rule
  {
    if i < |AllTransitions(rows[..|rows| - 1], engine)| {
      j := TransitionRow(rows[..|rows| - 1], engine, i);
    } else {
      EvaluateFacts(rows[|rows| - 1], engine);
      j := |rows| - 1;
    }
  }

  lemma {:induction false} RunKeepsSettings(s: System, steps: seq<Step>, id: string, r: Rule)
    requires Inv(s) && IsRun(s, steps) && AllLeaveAlone(s, steps, id)
    requires HasSettings(s, id, r) && NoOlderCopy(s, id, r) && Stored(r) == r
    ensures HasSettings(Run(s, steps), id, r)
    decreases |steps|
  {
    if steps != [] {
      InvKept(s, steps[0]);
      if steps[0].BeginTick? {
        TickKeepsSettings(s, steps[0].order, steps[0].engine, id, r);
      } else {
        StepKeepsSettings(s, steps[0], id, r);
      }
      RunKeepsSettings(Next(s, steps[0]), steps[1..], id, r);
    }
  }

  function Persists(n: nat): seq<Step> {
    if n == 0 then [] else [Persist] + Persists(n - 1)
  }

  /** Storing the first k + 1 transitions writes the copy that the k-th holds. */
  lemma {:induction false} PersistWrites(s: System, k: nat, id: string)
    requires id in s.rules && k < |s.pending| && s.pending[k].rule.id == id
    ensures var steps := Persists(k + 1);
            && IsRun(s, steps) && AllLeaveAlone(s, steps, id)
            && id in Run(s, steps).rules && Settings(Run(s, steps).rules[id]) == Settings(Stored(s.pending[k].rule))
    decreases k
  {
    var rest := Persists(k);
    var s1 := Next(s, Persist);
    assert ([Persist] + rest)[1..] == rest;
    if k == 0 {
      assert Run(s1, rest) == s1;
    } else {
      PersistWrites(s1, k - 1, id);
    }
  }

  /** An accepted edit survives everything but a later edit or deletion of the rule, exactly
      when the tick that is running at its commit holds no older copy of the rule. */
  lemma EditSurvivesIff(s: System, session: nat, edit: Edit)
    requires Inv(s) && session in s.edits && s.edits[session].id in s.rules
    requires ApplyEdit(s.edits[session], edit).Some?
    ensures var r := Settings(Stored(ApplyEdit(s.edits[session], edit).value));
            Survives(Next(s, CommitEdit(session, edit)), r.id, r) <==> NoOlderCopy(s, r.id, r)
  {
    var r := Settings(Stored(ApplyEdit(s.edits[session], edit).value));
    var s1 := Next(s, CommitEdit(session, edit));
    InvKept(s, CommitEdit(session, edit));
    if NoOlderCopy(s, r.id, r) {
      forall steps | IsRun(s1, steps) && AllLeaveAlone(s1, steps, r.id)
        ensures HasSettings(Run(s1, steps), r.id, r)
      {
        RunKeepsSettings(s1, steps, r.id, r);
      }
    } else {
      var k :| 0 <= k < |s.pending| && s.pending[k].rule.id == r.id && Settings(Stored(s.pending[k].rule)) != r;
      PersistWrites(s1, k, r.id);
      assert !HasSettings(Run(s1, Persists(k + 1)), r.id, r);
    }
  }

  /** An edit that is committed during a tick of its rule: the tick then stores the row it
      read, and nothing of the edit is left. */
  lemma EditUndone(rule: Rule, edit: Edit, v: real)
    requires rule.state == Ok && rule.active && Plain(rule) && rule.customMetricName == "" && Breached(rule, v)
    requires ApplyEdit(rule, edit).Some?
    ensures var tick := BeginTick([rule.id], map[rule.id := Some(v)]);
            var steps := [Create(rule), BeginEdit(0, rule.id), tick, CommitEdit(0, edit), Persist];
            IsRun(EMPTY, steps) && Run(EMPTY, steps).rules == map[rule.id := rule.(state := Triggered)]
  {
    var tick := BeginTick([rule.id], map[rule.id := Some(v)]);
    var s1, s2 := OverlapBegin(rule, v);
    OneTick(s2, rule, v);
    var s3 := Next(s2, tick);
    var s4 := Next(s3, CommitEdit(0, edit));
    var s5 := Next(s4, Persist);
    assert s5.rules == map[rule.id := rule.(state := Triggered)];
    assert [Persist] + [] == [Persist];
    RunCons(s4, Persist, []);
    RunCons(s3, CommitEdit(0, edit), [Persist]);
    var t3 := [CommitEdit(0, edit)] + [Persist];
    RunCons(s2, tick, t3);
    RunCons(s1, BeginEdit(0, rule.id), [tick] + t3);
    RunCons(EMPTY, Create(rule), [BeginEdit(0, rule.id)] + ([tick] + t3));
    assert [Create(rule), BeginEdit(0, rule.id), tick, CommitEdit(0, edit), Persist] ==
           [Create(rule)] + ([BeginEdit(0, rule.id)] + ([tick] + t3));
  }

  /** The threshold is edited to 5 during a tick and is back at 10 after it. */
  lemma EditUndoneExample()
    ensures var tick := BeginTick(["r"], map["r" := Some(20.0)]);
            var steps := [Create(SAMPLE_RULE), BeginEdit(0, "r"), tick, CommitEdit(0, SAMPLE_EDIT), Persist];
            && ApplyEdit(SAMPLE_RULE, SAMPLE_EDIT).Some? && ApplyEdit(SAMPLE_RULE, SAMPLE_EDIT).value.threshold == 5.0
            && IsRun(EMPTY, steps) && "r" in Run(EMPTY, steps).rules
            && Run(EMPTY, steps).rules["r"].threshold == 10.0
  {
    TrimFixed("errors", Space);
    EditUndone(SAMPLE_RULE, SAMPLE_EDIT, 20.0);
  }

  // ----- metrics without an answer

  /** Every row that was stored has lost its custom metric name, and so have the rows read. */
  ghost predicate Nameless(s: System) {
    && (forall id :: id in s.rules ==> s.rules[id].customMetricName == "")
    && (forall k :: k in s.edits ==> s.edits[k].customMetricName == "")
    && (forall i :: 0 <= i < |s.pending| ==> s.pending[i].rule.customMetricName == "")
  }

  /** The rule was never out of state ok, and no transition of it is stored or pending. */
  ghost predicate Silent(s: System, id: string) {
    && (id in s.rules ==> s.rules[id].state == Ok)
    && (forall k :: k in s.edits && s.edits[k].id == id ==> s.edits[k].state == Ok)
    && NoneOf(s.pending, id)
    && (forall i :: 0 <= i < |s.log| ==> s.log[i].id != id)
  }

  predicate NoneOf(ts: seq<Transition>, id: string) {
    forall i :: 0 <= i < |ts| ==> ts[i].rule.id != id
  }

  /** Whenever the rule is stored during the run, its metric is not one of the four that the
      engine answers: it is the custom one, "apdex", or unknown. */
  ghost predicate StaysUnanswered(s: System, steps: seq<Step>, id: string)
    requires IsRun(s, steps)
    decreases |steps|
  {
    && (id in s.rules ==> !Plain(s.rules[id]))
    && (steps == [] || StaysUnanswered(Next(s, steps[0]), steps[1..], id))
  }

  lemma NamelessKept(s: System, step: Step)
    requires Inv(s) && Nameless(s) && Enabled(s, step)
    ensures Nameless(Next(s, step))
  {
    if step.BeginTick? {
      TickRows(s, step.order, step.engine);
    }
  }

  /** Such a rule, without a name, gets no answer, so a tick has no transition of it. */
  lemma {:induction false} NoTransition(rows: seq<Rule>, engine: map<string, Option<real>>, id: string)
    requires forall i :: 0 <= i < |rows| && rows[i].id == id ==> !Plain(rows[i]) && rows[i].customMetricName == ""
    ensures NoneOf(AllTransitions(rows, engine), id)
  {
    if rows != [] {
      var last := rows[|rows| - 1];
      NoTransition(rows[..|rows| - 1], engine, id);
      EvaluateFacts(last, engine);
      if last.id == id {
        NoAnswer(last, engine);
      }
    }
  }

  lemma NoAnswer(rule: Rule, engine: map<string, Option<real>>)
    requires !Plain(rule) && rule.customMetricName == ""
    ensures Query(rule, engine) == None
  {
    TrimFixed("", Space);
  }

  lemma SilentTick(s: System, order: seq<string>, engine: map<string, Option<real>>, id: string)
    requires Inv(s) && Nameless(s) && Enabled(s, BeginTick(order, engine))
    requires id in s.rules ==> !Plain(s.rules[id])
    ensures NoneOf(Next(s, BeginTick(order, engine)).pending, id)
  {
    var rows := RowsOf(order, s.rules);
    RowsAre(order, s.rules);
    forall i | 0 <= i < |rows| && rows[i].id == id
      ensures !Plain(rows[i]) && rows[i].customMetricName == ""
    {
      assert order[i] in s.rules;
    }
    NoTransition(rows, engine, id);
  }

  lemma SilentKept(s: System, step: Step, id: string)
    requires Inv(s) && Nameless(s) && Silent(s, id) && Enabled(s, step)
    requires id in s.rules ==> !Plain(s.rules[id])
    ensures Silent(Next(s, step), id)
  {
    if step.BeginTick? {
      SilentTick(s, step.order, step.engine, id);
    }
  }

  lemma {:induction false} UnansweredStaysSilent(s: System, steps: seq<Step>, id: string)
    requires Inv(s) && Nameless(s) && Silent(s, id) && IsRun(s, steps) && StaysUnanswered(s, steps, id)
    ensures Silent(Run(s, steps), id)
    decreases |steps|
  {
    if steps != [] {
      InvKept(s, steps[0]);
      NamelessKept(s, steps[0]);
      SilentKept(s, steps[0], id);
      UnansweredStaysSilent(Next(s, steps[0]), steps[1..], id);
    }
  }

  /** Over every run a rule on a custom metric or on "apdex" never changes state, whatever its
      edits and query answers: the store forgets the name of a custom metric, and the
      evaluator knows no other. */
  lemma UnansweredRulesNeverFire(steps: seq<Step>, id: string)
    requires IsRun(EMPTY, steps) && StaysUnanswered(EMPTY, steps, id)
    ensures Silent(Run(EMPTY, steps), id)
  {
    StartsGood();
    UnansweredStaysSilent(EMPTY, steps, id);
  }

  // ----- what an edit leaves

  /** The word, in any letter case and with blanks around it. */
  predicate Reads(s: string, word: string) {
    EqualFold(TrimSpace(s), word)
  }

  lemma ReadsIs(s: string, word: string)
    requires ToLower(word) == word
    ensures Reads(s, word) <==> ToLower(TrimSpace(s)) == word
  {
  }

  const METRICS := {"error_count", "transaction_count", "p95_latency", "failure_rate", "apdex", "custom_metric"}
  const WINDOWS := {60, 300, 600, 900, 1800, 3600}

  predicate Disabled(status: string) {
    Reads(status, "disabled") || Reads(status, "inactive")
  }

  lemma DisabledIs(status: string)
    ensures IsActive(status) <==> !Disabled(status)
  {
    LowerFixed("disabled");
    LowerFixed("inactive");
    ReadsIs(status, "disabled");
    ReadsIs(status, "inactive");
  }

  lemma DirectionIs(raw: string)
    ensures ParseDirection(raw) == BelowLimit <==> Reads(raw, "below")
  {
    LowerFixed("below");
    ReadsIs(raw, "below");
  }

  /** The project route: which edits are rejected, and what an accepted one leaves. Metric,
      direction and window keep their values when the edit does not set them. */
  lemma ProjectEditLeaves(r: Rule, edit: Edit)
    requires edit.ProjectEdit?
    ensures ApplyEdit(r, edit).None? <==>
            || TrimSpace(edit.name) == "" || edit.metric !in METRICS + {""}
            || (edit.metric == "custom_metric" && TrimSpace(edit.customMetricName) == "")
    ensures ApplyEdit(r, edit).Some? ==>
              var w := ApplyEdit(r, edit).value;
              && w.name == TrimSpace(edit.name) && w.environment == TrimSpace(edit.environment)
              && w.threshold == edit.threshold && w.resolveThreshold == edit.resolveThreshold
              && w.metric == (if edit.metric == "" then r.metric else edit.metric)
              && w.timeWindowSecs == (if edit.timeWindowSecs in WINDOWS then edit.timeWindowSecs else r.timeWindowSecs)
              && (w.active <==> !Disabled(edit.status))
              && (w.direction == BelowLimit <==>
                    if edit.thresholdType == "" then r.direction == BelowLimit else Reads(edit.thresholdType, "below"))
  {
    DisabledIs(edit.status);
    DirectionIs(edit.thresholdType);
  }

  /** The organisation route: it sets everything anew, and the window is 300 seconds unless the
      minutes given make one of the windows. */
  lemma OrgEditLeaves(r: Rule, edit: Edit)
    requires edit.OrgEdit?
    ensures ApplyEdit(r, edit).None? <==>
            TrimSpace(edit.name) == "" || edit.metric !in METRICS || (edit.threshold == 0.0 && !edit.hasTriggers)
    ensures ApplyEdit(r, edit).Some? ==>
              var w := ApplyEdit(r, edit).value;
              && w.name == TrimSpace(edit.name) && w.environment == TrimSpace(edit.environment)
              && w.threshold == edit.threshold && w.resolveThreshold == edit.resolveThreshold
              && w.metric == edit.metric && w.customMetricName == ""
              && w.timeWindowSecs == (if edit.timeWindow * 60 in WINDOWS then edit.timeWindow * 60 else 300)
              && (w.active <==> !Disabled(edit.status))
              && (w.direction == BelowLimit <==> edit.below)
  {
    DisabledIs(edit.status);
  }

  // ----- an edit and the tick after it

  function Find(ts: seq<Transition>, id: string): Option<Transition> {
    if ts == [] then None else if ts[0].rule.id == id then Some(ts[0]) else Find(ts[1..], id)
  }

  lemma {:induction false} FindSnoc(ts: seq<Transition>, t: Transition, id: string)
    ensures Find(ts + [t], id) ==
            if Find(ts, id).Some? then Find(ts, id) else if t.rule.id == id then Some(t) else None
  {
    if ts == [] {
      assert ts + [t] == [t] && [t][1..] == [];
    } else {
      assert (ts + [t])[1..] == ts[1..] + [t];
      FindSnoc(ts[1..], t, id);
    }
  }

  lemma {:induction false} FindNone(rows: seq<Rule>, engine: map<string, Option<real>>, id: string)
    requires forall i :: 0 <= i < |rows| ==> rows[i].id != id
    ensures Find(AllTransitions(rows, engine), id) == None
  {
    if rows != [] {
      FindNone(rows[..|rows| - 1], engine, id);
      EvaluateFacts(rows[|rows| - 1], engine);
      var t := EvaluateOne(rows[|rows| - 1], engine);
      if t.Some? {
        FindSnoc(AllTransitions(rows[..|rows| - 1], engine), t.value, id);
      }
    }
  }

  /** A tick's transition of a rule is what the rule makes of its own answer. */
  lemma {:induction false} FindTransition(rows: seq<Rule>, engine: map<string, Option<real>>, k: nat)
    requires k < |rows| && forall i, j :: 0 <= i < j < |rows| ==> rows[i].id != rows[j].id
    ensures Find(AllTransitions(rows, engine), rows[k].id) == EvaluateOne(rows[k], engine)
    decreases |rows|
  {
    var init, last := rows[..|rows| - 1], rows[|rows| - 1];
    var t := EvaluateOne(last, engine);
    EvaluateFacts(last, engine);
    if k == |rows| - 1 {
      FindNone(init, engine, last.id);
    } else {
      FindTransition(init, engine, k);
    }
    if t.Some? {
      FindSnoc(AllTransitions(init, engine), t.value, rows[k].id);
    }
  }

  ghost predicate DistinctPending(s: System) {
    forall i, j :: 0 <= i < j < |s.pending| ==> s.pending[i].rule.id != s.pending[j].rule.id
  }

  lemma {:induction false} FindAbsent(ts: seq<Transition>, id: string)
    requires NoneOf(ts, id)
    ensures Find(ts, id) == None
  {
    if ts != [] {
      FindAbsent(ts[1..], id);
    }
  }

  /** Storing everything leaves each rule in the state its transition leads to, if it has one. */
  lemma {:induction false} PersistAllStates(s: System, id: string)
    requires id in s.rules && DistinctPending(s)
    ensures var t := Find(s.pending, id);
            && id in PersistAll(s).rules
            && PersistAll(s).rules[id].state == if t.Some? then t.value.to else s.rules[id].state
    decreases |s.pending|
  {
    if s.pending != [] {
      var s' := Next(s, Persist);
      PersistAllStates(s', id);
      if s.pending[0].rule.id == id {
        FindAbsent(s'.pending, id);
      }
    }
  }

  /** What a tick computes for a listed rule. */
  lemma TickFinds(s: System, id: string, order: seq<string>, engine: map<string, Option<real>>)
    requires Inv(s) && s.pending == [] && ListsActive(order, s.rules) && id in order
    ensures var s1 := Next(s, BeginTick(order, engine));
            s1.rules == s.rules && DistinctPending(s1) && Find(s1.pending, id) == EvaluateOne(s.rules[id], engine)
  {
    var rows := RowsOf(order, s.rules);
    RowsAre(order, s.rules);
    var k :| 0 <= k < |order| && order[k] == id;
    FindTransition(rows, engine, k);
    TickStarts(s, order, engine);
  }

  /** The state a whole tick leaves a listed rule in. */
  lemma WholeTickState(s: System, id: string, order: seq<string>, engine: map<string, Option<real>>)
    requires AllGood(s) && s.pending == [] && ListsActive(order, s.rules) && id in s.rules && s.rules[id].active
    ensures var s' := WholeNext(s, WholeTick(order, engine));
            var t := EvaluateOne(s.rules[id], engine);
            id in s'.rules && s'.rules[id].state == if t.Some? then t.value.to else s.rules[id].state
  {
    TickFinds(s, id, order, engine);
    PersistAllStates(Next(s, BeginTick(order, engine)), id);
  }

  /** Whether the rule watches for values below its threshold after the edit. */
  predicate WatchesBelow(r: Rule, edit: Edit) {
    match edit
    case ProjectEdit(_, _, _, _, thresholdType, _, _, _, _) =>
      if thresholdType == "" then r.direction == BelowLimit else Reads(thresholdType, "below")
    case OrgEdit(_, _, _, _, below, _, _, _, _) => below
  }

  /** After a whole edit that leaves a rule active on a metric that the engine answers, a whole
      tick triggers it exactly when the value is beyond the edit's threshold; a triggered rule
      resolves exactly when the value has come back to the edit's resolve threshold, or, when
      that is not positive, is no longer beyond the threshold. */
  lemma EditThenTick(s: System, session: nat, id: string, edit: Edit, order: seq<string>,
      engine: map<string, Option<real>>, v: real)
    requires AllGood(s) && s.pending == [] && id in s.rules && ApplyEdit(s.rules[id], edit).Some?
    requires var s1 := WholeNext(s, WholeEdit(session, id, edit));
             ListsActive(order, s1.rules) && s1.rules[id].active && Plain(s1.rules[id])
    requires id in engine && engine[id] == Some(v)
    ensures var s2 := WholeNext(WholeNext(s, WholeEdit(session, id, edit)), WholeTick(order, engine));
            var below := WatchesBelow(s.rules[id], edit);
            var beyond := if below then v < edit.threshold else v > edit.threshold;
            var back := if edit.resolveThreshold <= 0.0 then !beyond
                        else if below then v >= edit.resolveThreshold else v <= edit.resolveThreshold;
            && id in s2.rules
            && (s.rules[id].state != Triggered ==>
                  s2.rules[id].state == if beyond then Triggered else s.rules[id].state)
            && (s.rules[id].state == Triggered ==> s2.rules[id].state == if back then Resolved else Triggered)
  {
    var s1 := WholeNext(s, WholeEdit(session, id, edit));
    WholeKeepsGood(s, WholeEdit(session, id, edit));
    EditedRow(s, session, id, edit);
    WholeTickState(s1, id, order, engine);
    EditedEvaluates(s.rules[id], edit, v, engine);
  }

  lemma EditedRow(s: System, session: nat, id: string, edit: Edit)
    requires Inv(s) && id in s.rules && ApplyEdit(s.rules[id], edit).Some?
    ensures var s1 := WholeNext(s, WholeEdit(session, id, edit));
            s1.pending == s.pending && id in s1.rules && s1.rules[id] == Stored(ApplyEdit(s.rules[id], edit).value)
  {
  }

  lemma EditedEvaluates(r: Rule, edit: Edit, v: real, engine: map<string, Option<real>>)
    requires ApplyEdit(r, edit).Some? && Plain(Stored(ApplyEdit(r, edit).value))
    requires r.id in engine && engine[r.id] == Some(v)
    ensures var w := Stored(ApplyEdit(r, edit).value);
            var below := WatchesBelow(r, edit);
            var beyond := if below then v < edit.threshold else v > edit.threshold;
            var back := if edit.resolveThreshold <= 0.0 then !beyond
                        else if below then v >= edit.resolveThreshold else v <= edit.resolveThreshold;
            var t := EvaluateOne(w, engine);
            if r.state == Triggered then (t.Some? <==> back) && (t.Some? ==> t.value.to == Resolved)
            else (t.Some? <==> beyond) && (t.Some? ==> t.value.to == Triggered)
  {
    if edit.ProjectEdit? {
      ProjectEditLeaves(r, edit);
    } else {
      OrgEditLeaves(r, edit);
    }
  }
}
