/** Metric alert rules (internal/alert/metric_evaluator.go): a rule is a latch that the
    trigger threshold sets and the resolve threshold, or the end of the breach, resets. */
module MetricRules {
  import opened Options
  import opened Text

  datatype State = Ok | Triggered | Resolved
  datatype Direction = AboveLimit | BelowLimit

  datatype Rule = Rule(
    id: string, projectId: string, name: string, metric: string, customMetricName: string,
    threshold: real, direction: Direction, timeWindowSecs: int, resolveThreshold: real,
    environment: string, active: bool, state: State)

  /** Anything but "below" means above. */
  function ParseDirection(raw: string): Direction {
    if ToLower(TrimSpace(raw)) == "below" then BelowLimit else AboveLimit
  }

  predicate Breached(rule: Rule, value: real) {
    match rule.direction
    case BelowLimit => value < rule.threshold
    case AboveLimit => value > rule.threshold
  }

  /** A resolve threshold of zero or less is no threshold: the rule resolves when the
      breach ends. */
  predicate ShouldResolve(rule: Rule, value: real) {
    if rule.resolveThreshold > 0.0 then
      match rule.direction
      case BelowLimit => value >= rule.resolveThreshold
      case AboveLimit => value <= rule.resolveThreshold
    else !Breached(rule, value)
  }

  datatype Transition = Transition(rule: Rule, from: State, to: State, value: real)

  function Evaluate(rule: Rule, value: real): Option<Transition> {
    match rule.state
    case Triggered =>
      if ShouldResolve(rule, value) then Some(Transition(rule, Triggered, Resolved, value)) else None
    case _ =>
      if Breached(rule, value) then Some(Transition(rule, rule.state, Triggered, value)) else None
  }

  // ----- one rule over a sequence of values

  function Tick(rule: Rule, value: real): Rule {
    match Evaluate(rule, value)
    case None => rule
    case Some(t) => rule.(state := t.to)
  }

  function After(rule: Rule, values: seq<real>): Rule {
    if values == [] then rule else Tick(After(rule, values[..|values| - 1]), values[|values| - 1])
  }

  function Changes(rule: Rule, values: seq<real>): nat {
    if values == [] then 0
    else
      var init := values[..|values| - 1];
      Changes(rule, init) + if Evaluate(After(rule, init), values[|values| - 1]).Some? then 1 else 0
  }

  /** No value both breaches and resolves. */
  ghost predicate Disjoint(rule: Rule) {
    forall v :: !(Breached(rule, v) && ShouldResolve(rule, v))
  }

  /** The regions overlap exactly when an explicit resolve threshold lies on the breach
      side of the trigger threshold. */
  lemma DisjointIff(rule: Rule)
    ensures Disjoint(rule) <==>
            rule.resolveThreshold <= 0.0 ||
            match rule.direction
            case AboveLimit => rule.resolveThreshold <= rule.threshold
            case BelowLimit => rule.resolveThreshold >= rule.threshold
  {
    if rule.resolveThreshold > 0.0 {
      var v := (rule.resolveThreshold + rule.threshold) / 2.0;
      assert Breached(rule, v) && ShouldResolve(rule, v) <==>
             match rule.direction
             case AboveLimit => rule.resolveThreshold > rule.threshold
             case BelowLimit => rule.resolveThreshold < rule.threshold;
    }
  }

  /** Whether the last value that breaches or resolves was a breach. */
  function LastWord(rule: Rule, values: seq<real>): Option<bool> {
    if values == [] then None
    else
      var v := values[|values| - 1];
      if Breached(rule, v) then Some(true)
      else if ShouldResolve(rule, v) then Some(false)
      else LastWord(rule, values[..|values| - 1])
  }

  /** A tick changes the state and nothing else. */
  lemma {:induction false} AfterKeepsRule(rule: Rule, values: seq<real>)
    ensures After(rule, values) == rule.(state := After(rule, values).state)
  {
    if values != [] {
      AfterKeepsRule(rule, values[..|values| - 1]);
    }
  }

  /** Latch: with disjoint regions, a rule that starts untriggered is triggered exactly
      when the last value that says anything said "breach". */
  lemma {:induction false} Latch(rule: Rule, values: seq<real>)
    requires Disjoint(rule) && rule.state != Triggered
    ensures After(rule, values).state == Triggered <==> LastWord(rule, values) == Some(true)
  {
    if values != [] {
      var init, v := values[..|values| - 1], values[|values| - 1];
      Latch(rule, init);
      AfterKeepsRule(rule, init);
      assert !(Breached(rule, v) && ShouldResolve(rule, v));
    }
  }

  lemma OneMore(rule: Rule, values: seq<real>, v: real)
    ensures After(rule, values + [v]) == Tick(After(rule, values), v)
    ensures Changes(rule, values + [v]) ==
            Changes(rule, values) + if Evaluate(After(rule, values), v).Some? then 1 else 0
  {
    assert (values + [v])[..|values|] == values;
  }

  /** What one tick does to a rule that differs from `rule` in its state only. */
  lemma TickState(rule: Rule, state: State, v: real)
    ensures var r := rule.(state := state);
            && Evaluate(r, v).Some? == (if state == Triggered then ShouldResolve(rule, v) else Breached(rule, v))
            && Tick(r, v).state ==
               if Evaluate(r, v).None? then state else if state == Triggered then Resolved else Triggered
  {
  }

  function Constant(v: real, n: nat): seq<real> {
    if n == 0 then [] else Constant(v, n - 1) + [v]
  }

  lemma FlipsAgain(rule: Rule, values: seq<real>, v: real)
    requires Breached(rule, v) && ShouldResolve(rule, v)
    ensures Changes(rule, values + [v]) == Changes(rule, values) + 1
    ensures After(rule, values + [v]).state == Triggered <==> After(rule, values).state != Triggered
  {
    AfterKeepsRule(rule, values);
    TickState(rule, After(rule, values).state, v);
    OneMore(rule, values, v);
  }

  /** A constant value in both regions flips the rule on every tick. */
  lemma {:induction false} OverlapChatters(rule: Rule, v: real, n: nat)
    requires Breached(rule, v) && ShouldResolve(rule, v) && rule.state != Triggered
    ensures Changes(rule, Constant(v, n)) == n
    ensures After(rule, Constant(v, n)).state == Triggered <==> n % 2 == 1
  {
    if n > 0 {
      OverlapChatters(rule, v, n - 1);
      FlipsAgain(rule, Constant(v, n - 1), v);
      assert Constant(v, n) == Constant(v, n - 1) + [v];
      Parity(n);
    }
  }

  lemma Parity(n: nat)
    requires n > 0
    ensures n % 2 == 1 <==> (n - 1) % 2 != 1
  {
  }

  lemma {:induction false} QuietConstant(rule: Rule, v: real, n: nat)
    requires !(Breached(rule, v) && ShouldResolve(rule, v)) && rule.state != Triggered
    ensures Changes(rule, Constant(v, n)) == if Breached(rule, v) && n > 0 then 1 else 0
    ensures After(rule, Constant(v, n)).state == if Breached(rule, v) && n > 0 then Triggered else rule.state
  {
    if n > 0 {
      var init := Constant(v, n - 1);
      QuietConstant(rule, v, n - 1);
      AfterKeepsRule(rule, init);
      TickState(rule, After(rule, init).state, v);
      OneMore(rule, init, v);
    }
  }

  ghost predicate SteadyInputSettles(rule: Rule) {
    forall v: real, n: nat :: Changes(rule, Constant(v, n)) <= 1
  }

  /** Steady input causes at most one transition, whatever the value, exactly when the
      breach and resolve regions are disjoint. */
  lemma SettlesIff(rule: Rule)
    requires rule.state != Triggered
    ensures SteadyInputSettles(rule) <==> Disjoint(rule)
  {
    if Disjoint(rule) {
      forall v: real, n: nat
        ensures Changes(rule, Constant(v, n)) <= 1
      {
        assert !(Breached(rule, v) && ShouldResolve(rule, v));
        QuietConstant(rule, v, n);
      }
    } else {
      var v :| Breached(rule, v) && ShouldResolve(rule, v);
      OverlapChatters(rule, v, 2);
      assert Changes(rule, Constant(v, 2)) == 2;
    }
  }

  // ----- evaluating every rule

  /** The engine's answer for a rule: nothing on an error, an unsupported metric, or a
      custom metric without a name. */
  function Query(rule: Rule, engine: map<string, Option<real>>): Option<real> {
    var supported :=
      || rule.metric in {"error_count", "transaction_count", "p95_latency", "failure_rate"}
      || (rule.metric == "custom_metric" && TrimSpace(rule.customMetricName) != "");
    if supported && rule.id in engine then engine[rule.id] else None
  }

  function EvaluateOne(rule: Rule, engine: map<string, Option<real>>): Option<Transition> {
    match Query(rule, engine)
    case None => None
    case Some(value) => Evaluate(rule, value)
  }

  function AllTransitions(rules: seq<Rule>, engine: map<string, Option<real>>): seq<Transition> {
    if rules == [] then []
    else
      var ts := AllTransitions(rules[..|rules| - 1], engine);
      match EvaluateOne(rules[|rules| - 1], engine)
      case None => ts
      case Some(t) => ts + [t]
  }

  method EvaluateAll(rules: seq<Rule>, engine: map<string, Option<real>>) returns (transitions: seq<Transition>)
    ensures transitions == AllTransitions(rules, engine)
  {
    transitions := [];
    for i := 0 to |rules|
      invariant transitions == AllTransitions(rules[..i], engine)
    {
      assert rules[..i + 1][..i] == rules[..i];
      var value := Query(rules[i], engine);
      if value.None? {
        continue;
      }
      var transition := Evaluate(rules[i], value.value);
      if transition.Some? {
        transitions := transitions + [transition.value];
      }
    }
    assert rules[..|rules|] == rules;
  }

  function Of(id: string, ts: seq<Transition>): seq<Transition> {
    if ts == [] then []
    else
      var r, t := Of(id, ts[..|ts| - 1]), ts[|ts| - 1];
      if t.rule.id == id then r + [t] else r
  }

  /** A rule's transitions depend on its own query only: changing or failing the queries
      of all other rules leaves them as they are. */
  lemma {:induction false} QueriesAreIsolated(rules: seq<Rule>, e1: map<string, Option<real>>,
      e2: map<string, Option<real>>, id: string)
    requires id in e1 <==> id in e2
    requires id in e1 ==> e1[id] == e2[id]
    ensures Of(id, AllTransitions(rules, e1)) == Of(id, AllTransitions(rules, e2))
  {
    if rules != [] {
      var init, x := rules[..|rules| - 1], rules[|rules| - 1];
      QueriesAreIsolated(init, e1, e2, id);
      OfSnoc(id, AllTransitions(init, e1), x, e1);
      OfSnoc(id, AllTransitions(init, e2), x, e2);
    }
  }

  lemma OfSnoc(id: string, ts: seq<Transition>, rule: Rule, engine: map<string, Option<real>>)
    ensures match EvaluateOne(rule, engine)
            case None => true
            case Some(t) => Of(id, ts + [t]) == if rule.id == id then Of(id, ts) + [t] else Of(id, ts)
  {
    match EvaluateOne(rule, engine)
    case None =>
    case Some(t) => assert (ts + [t])[..|ts|] == ts;
  }
}
