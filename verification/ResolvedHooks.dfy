/** issue.resolved hooks (internal/api/issues.go): read the statuses, patch them, and
    dispatch a hook for each issue that the patch resolved. */
module ResolvedHooks {
  import opened Options

  type Statuses = map<string, string>

  const MAX_BULK_IDS: nat := 200

  /** What may fail: reads of some issues before the patch, the patch itself (the store
      rolls back), and reads or project look-ups of some issues after it. */
  datatype Faults = Faults(before: set<string>, patch: bool, after: set<string>)

  datatype Request =
    | Bulk(ids: seq<string>, status: string, faults: Faults)
    | Update(id: string, status: string, faults: Faults)
    | Elsewhere(id: string, newStatus: Option<string>) // ingestion, merge, discard or delete

  predicate ValidStatus(status: string) {
    status == "" || status == "resolved" || status == "unresolved" || status == "ignored"
  }

  function Needing(m: Statuses, ids: seq<string>, failing: set<string>): seq<string> {
    if ids == [] then []
    else
      var r, x := Needing(m, ids[..|ids| - 1], failing), ids[|ids| - 1];
      if x !in failing && x in m && m[x] != "resolved" then r + [x] else r
  }

  function Fired(m: Statuses, ids: seq<string>, failing: set<string>): seq<string> {
    if ids == [] then []
    else
      var r, x := Fired(m, ids[..|ids| - 1], failing), ids[|ids| - 1];
      if x !in failing && x in m && m[x] == "resolved" then r + [x] else r
  }

  function Patched(m: Statuses, ids: seq<string>, status: string): Statuses {
    map x | x in m :: if status != "" && x in ids then status else m[x]
  }

  datatype Effect = Effect(statuses: Statuses, fired: seq<string>)

  function Mutate(m: Statuses, ids: seq<string>, status: string, faults: Faults): Effect {
    if !ValidStatus(status) || faults.patch then Effect(m, [])
    else
      var need := if status == "resolved" then Needing(m, ids, faults.before) else [];
      var m' := Patched(m, ids, status);
      Effect(m', Fired(m', need, faults.after))
  }

  function Step(m: Statuses, req: Request): Effect {
    match req
    case Bulk(ids, status, faults) =>
      if 1 <= |ids| <= MAX_BULK_IDS then Mutate(m, ids, status, faults) else Effect(m, [])
    case Update(id, status, faults) => Mutate(m, [id], status, faults)
    case Elsewhere(id, None) => Effect(m - {id}, [])
    case Elsewhere(id, Some(s)) => Effect(m[id := s], [])
  }

  /** The service: the issue store and the log of dispatched hooks. */
  class IssueApi {
    var statuses: Statuses
    var dispatched: seq<string>

    constructor (initial: Statuses)
      ensures statuses == initial && dispatched == []
    {
      statuses, dispatched := initial, [];
    }

    method IdsNeedingResolvedHook(ids: seq<string>, failing: set<string>) returns (out: seq<string>)
      ensures out == Needing(statuses, ids, failing)
    {
      out := [];
      for i := 0 to |ids|
        invariant out == Needing(statuses, ids[..i], failing)
      {
        assert ids[..i + 1][..i] == ids[..i];
        if ids[i] in failing || ids[i] !in statuses {
          continue;
        }
        if statuses[ids[i]] != "resolved" {
          out := out + [ids[i]];
        }
      }
      assert ids[..|ids|] == ids;
    }

    method FireResolvedHooks(ids: seq<string>, failing: set<string>)
      modifies this`dispatched
      ensures dispatched == old(dispatched) + Fired(statuses, ids, failing)
    {
      ghost var before := dispatched;
      for i := 0 to |ids|
        invariant dispatched == before + Fired(statuses, ids[..i], failing)
      {
        assert ids[..i + 1][..i] == ids[..i];
        if ids[i] in failing || ids[i] !in statuses {
          continue;
        }
        if statuses[ids[i]] != "resolved" {
          continue;
        }
        dispatched := dispatched + [ids[i]];
      }
      assert ids[..|ids|] == ids;
    }

    method ApplyBulkMutation(ids: seq<string>, status: string, faults: Faults)
      modifies this
      ensures var e := Step(old(statuses), Bulk(ids, status, faults));
              statuses == e.statuses && dispatched == old(dispatched) + e.fired
    {
      if |ids| == 0 || |ids| > MAX_BULK_IDS || !ValidStatus(status) {
        return;
      }
      var transitions := [];
      if status == "resolved" {
        transitions := IdsNeedingResolvedHook(ids, faults.before);
      }
      if faults.patch {
        return;
      }
      statuses := Patched(statuses, ids, status);
      if |transitions| > 0 {
        FireResolvedHooks(transitions, faults.after);
      }
    }

    method UpdateIssue(id: string, status: string, faults: Faults)
      modifies this
      ensures var e := Step(old(statuses), Update(id, status, faults));
              statuses == e.statuses && dispatched == old(dispatched) + e.fired
    {
      if !ValidStatus(status) {
        return;
      }
      var transitions := [];
      if status == "resolved" {
        transitions := IdsNeedingResolvedHook([id], faults.before);
        OneId(statuses, id, faults.before);
      }
      if faults.patch {
        return;
      }
      statuses := Patched(statuses, [id], status);
      if id in faults.after || id !in statuses {
        OneId(statuses, id, faults.after);
        return;
      }
      if |transitions| > 0 {
        FireResolvedHooks(transitions, faults.after);
      }
    }
  }

  lemma OneId(m: Statuses, id: string, failing: set<string>)
    ensures Needing(m, [id], failing) == [] || Needing(m, [id], failing) == [id]
    ensures id in failing || id !in m ==> Fired(m, [id], failing) == []
    ensures Fired(m, [], failing) == []
  {
    assert [id][..0] == [];
  }

  // ----- statuses

  predicate Settable(status: string) {
    status == "resolved" || status == "unresolved" || status == "ignored"
  }

  /** A request sets the status of exactly the issues it lists, when the status is one of the
      three, the patch goes through, and a bulk request lists 1 to 200 issues. */
  lemma StatusAfter(m: Statuses, req: Request, x: string)
    requires !req.Elsewhere?
    ensures var m' := Step(m, req).statuses;
            var ids := if req.Bulk? then req.ids else [req.id];
            && (x in m' <==> x in m)
            && (x in m && Settable(req.status) && !req.faults.patch && x in ids && 1 <= |ids| <= 200 ==>
                  m'[x] == req.status)
            && (x in m && !(Settable(req.status) && !req.faults.patch && x in ids && 1 <= |ids| <= 200) ==>
                  m'[x] == m[x])
  {
  }

  // ----- counting

  function Count(x: string, s: seq<string>): nat {
    if s == [] then 0 else Count(x, s[..|s| - 1]) + if s[|s| - 1] == x then 1 else 0
  }

  function Ids(req: Request): seq<string> {
    match req
    case Bulk(ids, _, _) => ids
    case Update(id, _, _) => [id]
    case Elsewhere(_, _) => []
  }

  /** The request resolved the issue: it existed, was not resolved, and is resolved now. */
  predicate Resolves(m: Statuses, req: Request, x: string) {
    !req.Elsewhere? && BecomesResolved(m, Step(m, req).statuses, x)
  }

  /** No read of `x` fails in this request. */
  predicate Reads(req: Request, x: string) {
    req.Elsewhere? || (x !in req.faults.before && x !in req.faults.after)
  }

  lemma CountSnoc(x: string, s: seq<string>, y: string)
    ensures Count(x, s + [y]) == Count(x, s) + if x == y then 1 else 0
  {
    assert (s + [y])[..|s|] == s;
  }

  lemma {:induction false} CountNeeding(m: Statuses, ids: seq<string>, failing: set<string>, x: string)
    ensures Count(x, Needing(m, ids, failing)) ==
            if x !in failing && x in m && m[x] != "resolved" then Count(x, ids) else 0
  {
    if ids != [] {
      var init, y := ids[..|ids| - 1], ids[|ids| - 1];
      CountNeeding(m, init, failing, x);
      CountSnoc(x, Needing(m, init, failing), y);
    }
  }

  lemma {:induction false} CountFired(m: Statuses, ids: seq<string>, failing: set<string>, x: string)
    ensures Count(x, Fired(m, ids, failing)) ==
            if x !in failing && x in m && m[x] == "resolved" then Count(x, ids) else 0
  {
    if ids != [] {
      var init, y := ids[..|ids| - 1], ids[|ids| - 1];
      CountFired(m, init, failing, x);
      CountSnoc(x, Fired(m, init, failing), y);
    }
  }

  lemma {:induction false} CountZero(x: string, s: seq<string>)
    ensures Count(x, s) > 0 <==> x in s
  {
    if s != [] {
      CountZero(x, s[..|s| - 1]);
    }
  }

  /** How many hooks one request dispatches for an issue: as many as it lists the issue,
      if it resolves it and can read it before and after; none otherwise. */
  lemma RequestDispatches(m: Statuses, req: Request, x: string)
    ensures Count(x, Step(m, req).fired) ==
            if Resolves(m, req, x) && Reads(req, x) then Count(x, Ids(req)) else 0
    ensures Resolves(m, req, x) ==> Count(x, Ids(req)) >= 1
  {
    if !req.Elsewhere? {
      MutateDispatches(m, Ids(req), req.status, req.faults, x);
    }
  }

  /** The issue was there before and after, and became resolved. */
  predicate BecomesResolved(m: Statuses, m': Statuses, x: string) {
    x in m && x in m' && m[x] != "resolved" && m'[x] == "resolved"
  }

  lemma MutateDispatches(m: Statuses, ids: seq<string>, status: string, faults: Faults, x: string)
    ensures var e := Mutate(m, ids, status, faults);
            && (BecomesResolved(m, e.statuses, x) ==> Count(x, ids) >= 1)
            && Count(x, e.fired) ==
               if BecomesResolved(m, e.statuses, x) && x !in faults.before && x !in faults.after then Count(x, ids)
               else 0
  {
    CountZero(x, ids);
    if status == "resolved" {
      CountNeeding(m, ids, faults.before, x);
      CountFired(Patched(m, ids, status), Needing(m, ids, faults.before), faults.after, x);
    } else {
      CountFired(Patched(m, ids, status), [], faults.after, x);
    }
  }

  // ----- runs

  function Run(m: Statuses, reqs: seq<Request>): Effect {
    if reqs == [] then Effect(m, [])
    else
      var e := Run(m, reqs[..|reqs| - 1]);
      var f := Step(e.statuses, reqs[|reqs| - 1]);
      Effect(f.statuses, e.fired + f.fired)
  }

  /** How often the run resolved `x`. */
  function Transitions(m: Statuses, reqs: seq<Request>, x: string): nat {
    if reqs == [] then 0
    else
      var init := reqs[..|reqs| - 1];
      Transitions(m, init, x) + if Resolves(Run(m, init).statuses, reqs[|reqs| - 1], x) then 1 else 0
  }

  lemma {:induction false} CountConcat(x: string, a: seq<string>, b: seq<string>)
    ensures Count(x, a + b) == Count(x, a) + Count(x, b)
  {
    if b == [] {
      assert a + b == a;
    } else {
      assert (a + b)[..|a + b| - 1] == a + b[..|b| - 1];
      CountConcat(x, a, b[..|b| - 1]);
    }
  }

  /** Every request of the run that resolves `x` lists `x` just once. */
  predicate ListsOnce(m: Statuses, reqs: seq<Request>, x: string) {
    reqs == [] ||
    var init, req := reqs[..|reqs| - 1], reqs[|reqs| - 1];
    ListsOnce(m, init, x) && (Resolves(Run(m, init).statuses, req, x) ==> Count(x, Ids(req)) == 1)
  }

  /** Over any run whose reads succeed, an issue gets at least one hook for every time it
      is resolved, and exactly one exactly when no resolving request lists it twice. */
  lemma {:induction false} DispatchesMatchTransitions(m: Statuses, reqs: seq<Request>, x: string)
    requires forall i :: 0 <= i < |reqs| ==> Reads(reqs[i], x)
    ensures Count(x, Run(m, reqs).fired) >= Transitions(m, reqs, x)
    ensures Count(x, Run(m, reqs).fired) == Transitions(m, reqs, x) <==> ListsOnce(m, reqs, x)
  {
    if reqs != [] {
      var init, req := reqs[..|reqs| - 1], reqs[|reqs| - 1];
      DispatchesMatchTransitions(m, init, x);
      RequestDispatches(Run(m, init).statuses, req, x);
      CountConcat(x, Run(m, init).fired, Step(Run(m, init).statuses, req).fired);
    }
  }

  /** Failing reads lose hooks and never add any: without repeated ids an issue never
      gets more hooks than it has transitions. */
  lemma {:induction false} NeverMoreThanTransitions(m: Statuses, reqs: seq<Request>, x: string)
    requires ListsOnce(m, reqs, x)
    ensures Count(x, Run(m, reqs).fired) <= Transitions(m, reqs, x)
  {
    if reqs != [] {
      var init, req := reqs[..|reqs| - 1], reqs[|reqs| - 1];
      NeverMoreThanTransitions(m, init, x);
      RequestDispatches(Run(m, init).statuses, req, x);
      CountConcat(x, Run(m, init).fired, Step(Run(m, init).statuses, req).fired);
    }
  }

  /** Resolving again dispatches nothing. */
  lemma ResolvingAgainIsSilent(m: Statuses, req: Request, again: Request, x: string)
    requires Resolves(m, req, x)
    ensures Count(x, Step(Step(m, req).statuses, again).fired) == 0
  {
    RequestDispatches(Step(m, req).statuses, again, x);
  }

  /** Listing an issue twice in one request dispatches two hooks for one transition. */
  lemma RepeatedIdExample()
    ensures var m := map["a" := "unresolved"];
            var req := Bulk(["a", "a"], "resolved", Faults({}, false, {}));
            Count("a", Step(m, req).fired) == 2 && Transitions(m, [req], "a") == 1
  {
    var m := map["a" := "unresolved"];
    var req := Bulk(["a", "a"], "resolved", Faults({}, false, {}));
    RequestDispatches(m, req, "a");
    assert ["a", "a"][..1] == ["a"] && ["a"][..0] == [];
    assert Count("a", ["a", "a"]) == 2;
    assert [req][..0] == [];
  }
}
