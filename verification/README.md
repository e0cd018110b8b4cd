# A Dafny model of urgentry

Urgentry is an error-tracking server written in Go. This project models the parts of it that
compute something intricate or keep state over time, and proves what they promise. The models
take the form of the code: objects whose methods update fields are classes, loops are loops
proved against a specification function, in-place sorts work on arrays, expressions are
functions. `sort.Slice` may return any sorted permutation, so its result is shown to be unique;
ranging over a Go map may take any order, so results are shown not to depend on it. 64-bit
wrap-around is written out where a request parameter can reach it, in the cursor parsers and the
test-result pager. Floating-point numbers are reals.

## Contents

- Test analytics: `TestResults` (group statistics with in-place accumulators), `Aggregates` (the
  snapshot and the five slowest groups), `ResultFilter`, `ResultSort`, `ResultPaging`.
- `Anomaly`: mean, population standard deviation, and the two-sigma rule.
- `Replay`: base-time inference, unit conversion and the stable sort of replay events.
- `MetricRules` and `AlertRuns`: the alert latch, and its runs interleaved with rule edits.
- `Pagination` (with `Pages` and `Decimal`): cursor strings and the two pagers; links follow
  section 5 of RFC 5988.
- `ScimGroups` and `Slugs`: SCIM group PATCH (section 3.5.2 of RFC 7644) and both slug builders.
- `EventNeighbors` and `ResolvedHooks`: previous/next events, and issue.resolved dispatch.
- `Predicates`, `LikePatterns`, `SqlCompile`, `SqlAssemble`, `SqlAnswers`: discover predicates from a
  dashboard widget down to the SQL text, its bound arguments and what a database answers to it, in
  SQL's three-valued logic.
- `IngestLog`: the append-only ingest queue.
- `Options`, `Text`, `Permutations`, `Sorting` and `Sums` are shared helpers.

## Laws that hold only under a condition

Each of these has a lemma with the exact condition and a lemma with an input at which the law fails.

- Normalising replay events twice equals once if and only if the first run settles every event
  (`Replay.IdempotentIff`, `NotIdempotentExample`). It does with no start time or one of at least
  1e11 milliseconds.
- The log of alert transitions stays chained and in step with the stored states if and only if no
  edit writes a stale state (`AlertRuns.RunIsGoodIff`). Ticks never break it, and neither does a
  transition that the store fails to keep. An edit reads a rule
  and later writes the whole row, state included; once a stored state is out of step, the next tick
  can break the chain itself (`OutOfStepBreaks`), as it does in `StaleEditExample`.
- An accepted edit survives until the next edit or deletion of its rule if and only if the tick
  that is running at its commit holds no older copy of the rule (`AlertRuns.EditSurvivesIff`),
  because a tick stores whole rows as well (`PersistWrites`, `EditUndoneExample`).
- An issue gets one hook per resolution if and only if no resolving request lists it twice
  (`ResolvedHooks.DispatchesMatchTransitions`, `RepeatedIdExample`).
- A filtered SCIM remove names the user if and only if the id has no upper-case letter
  (`ScimGroups.RemovePathNames`, `RemoveExample`).
- The test-result pager computes invalid slice bounds if and only if an addition passes the
  largest 64-bit integer (`ResultPaging.OutOfRangeIff`, `OutOfRangeExample`).
- "next" undoes "previous" if and only if the page starts at least one page in
  (`NextUndoesPrev` and `NextAfterPrevExample` in `Pagination` and in `ResultPaging`).
- The assembled WHERE text means scope, predicate and time range together unless the predicate is
  a top-level "or" with two or more alternatives, because the predicate is not parenthesised there
  (`SqlAssemble.AssembledMeans`, `AssembledOrMeans`, `SomeDatabaseDiffers`, `TopLevelOrExample`). A
  dashboard filter that applies always puts an "and" on top, so filtered widgets are not affected.
- The ingest queue loses no accepted row if and only if rows are marked done in turn
  (`IngestLog.RunLosesNothingIff`, `RetryExample`). A single worker breaks this if and only if it
  finishes a row claimed while the head row waits for a retry (`WorkLosesNothingIff`).
- The reported ingest backlog is right if and only if the log is not empty or nothing was consumed
  (`IngestLog.BacklogIff`, `BacklogExample`), yet admission is always right (`AdmissionIsExact`).

"Replace members" would drop a wanted user who has two rows. The store cannot hold two: the
`team_members` table is unique on team and user (`internal/sqlite/migrations_core.go:212`), and
`ScimGroups.Team.ListTeamMembers` says so.

`internal/alert/alert.go:140` says that a resolve threshold of 0 means no automatic resolution.
`internal/alert/metric_evaluator.go:183-185` resolves when the value no longer breaches; the model
follows the evaluator.

## Model

| member | source | states |
|---|---|---|
| TestResults.Accumulator.Add | internal/api/prevent.go:891-898 | adds one result to the accumulator object of its group and changes nothing else |
| TestResults.AddItem | internal/api/prevent.go:884-899 | finds or creates the accumulator of the item's key; the other accumulators keep their sums |
| TestResults.Accumulate | internal/api/prevent.go:883-899 | after one pass every key has one fresh accumulator holding the sums of its group |
| TestResults.FinishAll | internal/api/prevent.go:900-916 | finishing the accumulators in any order gives the same map |
| TestResults.BuildStats | internal/api/prevent.go:875-917 | the one-pass loop returns, for every key, the statistics of the whole group taken by itself |
| TestResults.GroupsConserve | internal/api/prevent.go:875-917 | durations, tests, failures and skips summed over groups equal the sums over items, for every visiting order |
| TestResults.GroupAverageBounded | internal/api/prevent.go:773-778 | with positive test counts a group average lies between any bounds on its items' averages |
| TestResults.FlakyIff | internal/api/prevent.go:894-913 | a group is flaky exactly when it has an item with failures and one without |
| TestResults.AverageOf | internal/api/prevent.go:900-905 | the average of a group is its summed duration divided by its number of tests, or the duration when it has none |
| TestResults.FlakyFigures | internal/api/prevent.go:900-916 | a flaky group reports its summed failures and their share of its tests, any other group zero |
| TestResults.SameGroupIff | internal/api/prevent.go:919-925 | two results are in one group exactly when suite (or else id) and branch agree up to blanks |
| TestResults.StatsOfPermutation | internal/api/prevent.go:875-917 | reordering the input changes no statistic |
| Aggregates.BuildAggregates | internal/api/prevent.go:837-866 | whatever order the map is ranged over in: the totals are sums over the items, the counts are the numbers of slow and flaky groups, the rate is the share of flaky ones, and the snapshot is that of every order |
| Aggregates.VisitStats | internal/api/prevent.go:846-854 | the range loop counts slow and flaky groups and collects the averages of each key once |
| Aggregates.SnapshotIsOrderFree | internal/api/prevent.go:837-866 | the snapshot is the same for every map order and every permutation of the input |
| Aggregates.SnapshotFigures | internal/api/prevent.go:837-866 | each figure of the snapshot but the slowest sum: sums over the items, cardinalities of sets of groups, and their share |
| Aggregates.DescendingUnique | internal/api/prevent.go:855-861 | a descending arrangement of the averages is unique, so the unstable sort has one result |
| Aggregates.SlowestIsUpperBound | internal/api/prevent.go:837-866 | with non-negative durations no choice of at most five groups has a larger summed average |
| Aggregates.SlowestIsAttained | internal/api/prevent.go:837-866 | some choice of at most five distinct groups reaches the reported sum |
| ResultFilter.FilterTestResults | internal/api/prevent.go:651-703 | the filter loops keep, in order, what matches branch, suites, time, term and mode |
| ResultFilter.KeptIff | internal/api/prevent.go:651-703 | a result is kept, as often as it occurs, exactly when it is young enough or undated, on the branch, in the suites, has the term in suite, branch, commit or id, and fits the mode |
| ResultFilter.FlakyFilterKeepsStats | internal/api/prevent.go:692-702 | exactly the flaky groups survive, each with its original statistics, and all are still flaky |
| ResultFilter.FlakyFilterIdempotent | internal/api/prevent.go:692-702 | filtering the survivors again keeps all of them |
| ResultFilter.FilteredIdempotent | internal/api/prevent.go:651-703 | the whole filter is idempotent in every mode |
| ResultFilter.FilterWindow | internal/api/prevent.go:705-717 | keeps the results of a branch inside a half-open window |
| ResultFilter.WindowContents | internal/api/prevent.go:705-717 | a result is in the window, as often as it occurs, exactly when it is on the branch and start <= date < end |
| ResultFilter.WindowsPartition | internal/api/prevent.go:705-717 | adjacent windows share nothing and miss nothing of their union |
| ResultSort.BeforeIsTotal | internal/api/prevent.go:719-771 | for every field and direction, results with different ids compare one way and only one way |
| ResultSort.BeforeTransitive | internal/api/prevent.go:719-771 | the comparison is transitive |
| ResultSort.SortedIsUnique | internal/api/prevent.go:719-771 | with distinct ids any two sorted permutations are the same list |
| ResultSort.SortHasOneResult | internal/api/prevent.go:719-771 | any sorted permutation of a list with distinct ids is the list the model returns |
| ResultSort.RequestMeans | internal/api/prevent.go:719-771 | a list sorted for a request that names a field, in any letter case, falls or rises in that quantity |
| ResultSort.DefaultMeans | internal/api/prevent.go:719-771 | with nothing named the list falls in failures, or in average duration when the slowest tests are asked for |
| ResultSort.SortSlice | internal/api/prevent.go:757-770 | the in-place sort promises a sorted permutation and no more |
| ResultSort.SortTestResults | internal/api/prevent.go:719-771 | sorts the array in place so that the quantity that the request names falls (with "-") or rises, ties as in the source, for each of five fields and both defaults; with distinct ids into the only such list |
| ResultPaging.OutOfRangeIff | internal/api/prevent.go:607-641 | slice bounds are invalid exactly when cursor plus one or start plus limit passes the largest integer |
| ResultPaging.OutOfRangeExample | internal/api/prevent.go:624-635 | the largest cursor on a one-row list has invalid bounds |
| ResultPaging.InvalidCursorIff | internal/api/prevent.go:607-617 | a cursor is refused exactly when the list is not empty and it is neither blank nor a non-negative number |
| ResultPaging.PastTheEnd | internal/api/prevent.go:607-640 | past the end there is an empty page without cursors; only a non-empty list has a previous page |
| ResultPaging.StartOfCursor | internal/api/prevent.go:612-626 | a printed cursor leads to the page after it, and with "prev" to the page that ends before it |
| ResultPaging.PageFromContents | internal/api/prevent.go:627-640 | the rows, flags and cursors of the page at an offset that does not overflow |
| ResultPaging.UsuallyFits | internal/api/prevent.go:583-592 | no page overflows when one page holds the list, or when length plus limit is in range |
| ResultPaging.FitsIff | internal/api/prevent.go:607-641 | no page of a walk overflows exactly when the end of its last full page is in range |
| ResultPaging.WalkIsExact | internal/api/prevent.go:607-641 | following end cursors from the empty cursor yields exactly the list, in full pages except the last, when no page of the walk overflows |
| ResultPaging.PrevUndoesNext | internal/api/prevent.go:607-641 | the next page is valid exactly when it does not overflow, and then "prev" from its start cursor returns the same page, flags and cursors |
| ResultPaging.NextUndoesPrev | internal/api/prevent.go:607-641 | going back and forth returns to the page exactly when it starts at least one page in |
| ResultPaging.NextAfterPrevExample | internal/api/prevent.go:618-625 | three rows, two to a page: back and forth from the second row ends at the third |
| Anomaly.MeanStdDev | internal/alert/anomaly.go:145-162 | returns the mean and the non-negative square root of the population variance |
| Anomaly.EvaluateProject | internal/alert/anomaly.go:98-141 | the branches return the verdict on the last day against the earlier ones |
| Anomaly.FewDaysAboveThreshold | internal/alert/anomaly.go:98-162 | fewer than one baseline day in five lies above mean plus two deviations |
| Anomaly.BoundIsAttained | internal/alert/anomaly.go:98-162 | for every k there are 5k+1 days of which k lie above, so the bound cannot be improved |
| Anomaly.ZeroDeviationIff | internal/alert/anomaly.go:145-162 | the deviation is zero exactly when all baseline days are equal |
| Anomaly.FlaggedIff | internal/alert/anomaly.go:98-141 | exactly when today is flagged, for flat and for varying baselines, and the count, mean, deviation and threshold reported |
| Replay.InferBase | internal/api/replay_playback.go:215-228 | the loop infers the earliest absolute time, or keeps the start time |
| Replay.ConvertEvents | internal/api/replay_playback.go:230-257 | the loop converts seconds, milliseconds and relative times and passes untimed events through |
| Replay.RelativeTimes | internal/api/replay_playback.go:230-257 | on a positive base a relative time counts from the base, and a time up to zero becomes the base |
| Replay.UnitsAgree | internal/api/replay_playback.go:230-257 | the same instant in seconds and in milliseconds is converted to the same time |
| Replay.TimesThatStay | internal/api/replay_playback.go:230-257 | absolute milliseconds stay, and relative times stay without a base |
| Replay.StartIsBase | internal/api/replay_playback.go:215-228 | a positive start time is the base, whatever the events |
| Replay.NormalizeEvents | internal/api/replay_playback.go:210-270 | the three phases together compute the normalised list |
| Replay.StableSortUnique | internal/api/replay_playback.go:258-268 | a stable sort has exactly one result |
| Replay.NormalizedIsStableSort | internal/api/replay_playback.go:210-270 | the output is the only sorted list that has the converted events, ties in input order and untimed events last |
| Replay.OutputRunsForward | internal/api/replay_playback.go:258-268 | of any two output events the later one is not earlier in time, and is untimed if the first is |
| Replay.EarliestOutputIsBase | internal/api/replay_playback.go:215-257 | with no start time the base is the earliest absolute time, and the smallest output equals it |
| Replay.BaseIsStable | internal/api/replay_playback.go:215-228 | a second run infers the same base |
| Replay.IdempotentIff | internal/api/replay_playback.go:210-270 | a second run changes nothing exactly when the first settled every event |
| Replay.Idempotent | internal/api/replay_playback.go:210-270 | with no start time, or one of at least 1e11 milliseconds, twice is once |
| Replay.NotIdempotentExample | internal/api/replay_playback.go:230-257 | a start time of 5 milliseconds moves an event again on the second run |
| MetricRules.DisjointIff | internal/alert/metric_evaluator.go:161-186 | breach and resolve regions overlap exactly when an explicit resolve threshold lies on the breach side |
| MetricRules.Latch | internal/alert/metric_evaluator.go:130-186 | with disjoint regions a rule is triggered exactly when the last telling value was a breach |
| MetricRules.OverlapChatters | internal/alert/metric_evaluator.go:130-186 | a constant value in both regions flips the state on every tick |
| MetricRules.SettlesIff | internal/alert/metric_evaluator.go:130-186 | every constant input causes at most one transition exactly when the regions are disjoint |
| MetricRules.EvaluateAll | internal/alert/metric_evaluator.go:60-91 | the loop returns the transitions of the rules whose queries succeed, in order |
| MetricRules.QueriesAreIsolated | internal/alert/metric_evaluator.go:60-117 | a rule's transitions do not depend on the queries of other rules |
| AlertRuns.ApplyEdit | internal/api/metric_alerts.go:195-266 | an accepted edit keeps the rule's id, project and state |
| AlertRuns.ProjectEditLeaves | internal/api/metric_alerts.go:195-266 | on the project route, exactly which edits are rejected, and every setting that an accepted one leaves |
| AlertRuns.OrgEditLeaves | internal/api/metric_alerts.go:361-475 | on the organisation route, exactly which edits are rejected, and every setting that an accepted one leaves |
| AlertRuns.EditThenTick | internal/alert/metric_evaluator.go:130-186 | after a whole edit a whole tick triggers the rule exactly when the value is beyond the edited threshold, and resolves it exactly when the value is back |
| AlertRuns.InvKept | internal/pipeline/scheduler.go:191-228 | every step of every interleaving keeps the structural invariant |
| AlertRuns.PendingStaysFresh | internal/pipeline/scheduler.go:191-228 | whatever happens during a tick, its transitions still start at the logged states |
| AlertRuns.StepKeepsGoodIff | internal/pipeline/scheduler.go:205-220 | a step keeps the log chained and in step with the stored states exactly when it is not an edit writing a stale state |
| AlertRuns.RunIsGoodIff | internal/api/metric_alerts.go:195-266 | over any interleaving of edits and ticks the log stays chained and in step with the stored states exactly when no edit writes a stale state |
| AlertRuns.HistoryIsGoodIff | internal/api/metric_alerts.go:195-266 | the same for every interleaving from the empty store, store failures included |
| AlertRuns.OutOfStepBreaks | internal/pipeline/scheduler.go:191-228 | whenever an active rule with a metric that the engine answers is out of step, the next tick stores an unchained transition for some query answer |
| AlertRuns.WholeRunsAreGood | internal/alert/metric_evaluator.go:56-91 | creations, deletions, edits and ticks that do not overlap always keep the log chained and in step with the stored states |
| AlertRuns.ChainedAlternates | internal/alert/metric_evaluator.go:130-157 | in a chained history transitions alternate, each starts where the last ended, and ok is never re-entered |
| AlertRuns.OverlapBreaksChain | internal/api/metric_alerts.go:195-266 | for every breaching rule and every edit that leaves it active, the overlap stores two ok-to-triggered transitions in a row |
| AlertRuns.StaleEditExample | internal/api/metric_alerts.go:195-266 | a concrete rule and edit: the edit overlaps a tick, the next tick triggers the rule again, and the log is not chained |
| AlertRuns.EditSurvivesIff | internal/pipeline/scheduler.go:205-220 | an accepted edit survives every later run without edits or deletion of its rule exactly when the running tick holds no older copy |
| AlertRuns.PersistWrites | internal/pipeline/scheduler.go:209-217 | storing a transition writes back the settings that its tick had read |
| AlertRuns.EditUndone | internal/pipeline/scheduler.go:209-217 | for every rule that the running tick triggers and every accepted edit: a commit during the tick leaves nothing of the edit |
| AlertRuns.EditUndoneExample | internal/api/metric_alerts.go:195-266 | a threshold edited to 5 during a tick is back at 10 after it |
| AlertRuns.UnansweredRulesNeverFire | internal/alert/metric_evaluator.go:93-118 | over every run a rule that stays on a custom metric or on "apdex" never changes state: the store has no column for the name of a custom metric, and the evaluator knows no other |
| Decimal.AtoiItoa | internal/api/api.go:28-44 | printed numbers up to the largest 64-bit integer parse back |
| Pagination.ParseFormat | internal/api/api.go:101-110 | a printed cursor parses back to its offset in either direction |
| Pagination.ParsePlain | internal/api/api.go:28-44 | plain decimal cursors parse as well |
| Pagination.ResponseWriter.SetLinkHeader | internal/api/api.go:81-99 | writes both links with their flags and cursors |
| Pagination.ResponseWriter.Paginate | internal/api/api.go:50-78 | returns the page and writes the links of the in-memory pager |
| Pagination.ResponseWriter.SetPaginationHeaders | internal/api/api.go:140-156 | cuts the probe row off and writes the links |
| Pagination.ProbeRefinesInMemory | internal/api/api.go:50-78 | at limit 100 the probing pager returns the same page, flags and cursors for every cursor string |
| Pagination.ProbePageContents | internal/api/api.go:127-156 | the rows, flags and cursors of a probed page, read off the table |
| Pagination.WalkIsExact | internal/api/api.go:127-156 | following next cursors, printed and parsed, yields exactly the rest of the table in full pages and ends |
| Pagination.WalkFromStart | internal/api/api.go:28-78 | from the empty cursor the walk yields the whole table |
| Pagination.RequestIsProbe | internal/api/api.go:127-156 | every request with a fixed per_page string is a page at the parsed limit |
| Pagination.PerPageCounts | internal/api/api.go:124-136 | a printed per_page from 1 to 100 is the limit, and any other number means 100 |
| Pagination.PerPageIs | internal/api/api.go:124-136 | for every per_page string: a number from 1 to 100 is the limit, everything else means 100 |
| Pagination.RequestsAreExact | internal/api/api.go:127-156 | for every per_page string, repeating the request with each next cursor yields the table in pages of at most 100 rows |
| Pagination.PrevUndoesNext | internal/api/api.go:50-78 | the page after any page links back to it |
| Pagination.NextUndoesPrev | internal/api/api.go:50-78 | next undoes previous exactly from offsets at least one page in |
| Pagination.NextAfterPrevExample | internal/api/api.go:140-156 | three rows, two to a page: back and forth from offset 1 ends at offset 2 |
| ScimGroups.Team.DropUnwanted | internal/api/scim.go:611-623 | the first loop drops who is not wanted and ticks off who is; what two rows of one user do |
| ScimGroups.Team.AddAll | internal/api/scim.go:635-651 | adds users in order, only ever adding, and stops at the first failure |
| ScimGroups.Team.ReplaceMembers | internal/api/scim.go:596-634 | success leaves exactly the wanted users (two rows aside); at every point members in both sets stay and nobody else appears |
| ScimGroups.Team.Apply | internal/api/scim.go:581-659 | on success one operation leaves the members and name it asks for; at every point members lie between before and asked; a malformed member list fails, and on a sound store nothing else with known users does |
| ScimGroups.Team.PatchGroup | internal/api/scim.go:580-660 | the operation loop: on success members and name are what all operations ask for in turn; after an abort members lie between two consecutive ones and the name is the one before; on a sound store it succeeds for known users and well-formed lists |
| ScimGroups.MembersOp | internal/api/scim.go:581-651 | "replace members" asks for exactly the trimmed ids listed, "add members" for them in addition, and exactly malformed or blank entries make either bad |
| ScimGroups.NameOp | internal/api/scim.go:581-595 | "displayName" with a string that is not blank sets the trimmed name, and members stay |
| ScimGroups.RemoveOp | internal/api/scim.go:652-658 | "remove" on a members path removes the id that the lower-cased path quotes, if any |
| ScimGroups.OtherOp | internal/api/scim.go:581-659 | every other operation changes nothing |
| ScimGroups.FilterOfPath | internal/api/scim.go:757-772 | the filter parser returns the id that the path quotes, with either kind of quote |
| ScimGroups.FilterReads | internal/api/scim.go:757-772 | the first double quote, or else the first single quote, opens the id, and the next quote of either kind or the end closes it |
| ScimGroups.FilterCases | internal/api/scim.go:757-772 | every path with a quote has the form that the parser reads |
| ScimGroups.FilterOfNoQuote | internal/api/scim.go:757-772 | a path without a quote has no id |
| ScimGroups.RemovePathNames | internal/api/scim.go:652-658 | a filtered remove removes the lower-cased id, which is the id exactly when it has no upper case |
| ScimGroups.RemoveExample | internal/api/scim.go:652-658 | asked to remove U7, the operation removes u7 |
| Slugs.ScimSlugify | internal/api/scim.go:733-753 | the dash-rewriting loop terminates and equals squeezing every dash run to one |
| Slugs.ReplaceKeepsSqueeze | internal/api/scim.go:745-747 | one rewriting pass does not change what the string squeezes to |
| Slugs.ScimSlugFixedPoints | internal/api/scim.go:733-753 | outputs are non-empty slugs, the fixed points are exactly the non-empty slugs, and the function is idempotent |
| Slugs.SeparatorsAreDashes | internal/api/scim.go:733-753 | a name has the slug of its trimmed form with dashes for blanks and underscores |
| Slugs.OthersAreDropped | internal/api/scim.go:733-744 | in both builders a character that is no letter, digit or separator has no effect, wherever it stands |
| Slugs.NormalizeMonitorSlugString | internal/api/monitors.go:413-441 | the one-pass scanner with its flag equals map, squeeze and trim |
| Slugs.MonitorSlugFixedPoints | internal/api/monitors.go:413-441 | outputs are slugs, the fixed points are exactly the slugs, and the function is idempotent |
| Slugs.BuildersAgree | internal/api/scim.go:733-753 | on names without underscore both builders agree, except that an empty SCIM slug becomes "team" |
| EventNeighbors.PreviousIsAdjacent | internal/api/events.go:594-624 | the previous event is newer with none of the group between, or there is no newer one |
| EventNeighbors.NextIsAdjacent | internal/api/events.go:594-624 | the next event is older with none of the group between, or there is no older one |
| EventNeighbors.NeighborsInTime | internal/api/events.go:594-624 | the previous event was ingested later, or at the same time with a larger id; the next one earlier, or with a smaller id |
| EventNeighbors.NeighborsAreInverse | internal/api/events.go:594-624 | p is previous of e exactly when e is next of p, equal ingest times included |
| EventNeighbors.LinksLeadBack | internal/api/events.go:594-624 | the two returned ids lead back to the event, and are empty exactly at the ends |
| EventNeighbors.WalkVisitsGroup | internal/api/events.go:594-624 | walking next from the newest event visits each event of the group exactly once |
| ResolvedHooks.IssueApi.IdsNeedingResolvedHook | internal/api/issues.go:958-973 | the listed issues that are readable and not yet resolved, in order, repeats included |
| ResolvedHooks.IssueApi.FireResolvedHooks | internal/api/issues.go:917-956 | dispatches for the ids that are readable and resolved now; statuses stay |
| ResolvedHooks.IssueApi.ApplyBulkMutation | internal/api/issues.go:666-728 | the bulk request's effect on all statuses and on the dispatch log, failures included |
| ResolvedHooks.IssueApi.UpdateIssue | internal/api/issues.go:319-436 | the single update's effect on all statuses and on the dispatch log, failures included |
| ResolvedHooks.StatusAfter | internal/api/issues.go:264-272 | a request sets exactly the issues it lists to its status, if that is one of three, the patch goes through and 1 to 200 ids are listed; otherwise nothing changes |
| ResolvedHooks.RequestDispatches | internal/api/issues.go:709-720 | a request dispatches for an issue as often as it lists it if it resolves it and reads succeed, else never |
| ResolvedHooks.DispatchesMatchTransitions | internal/api/issues.go:382-428 | over any run dispatches equal transitions exactly when no resolving request lists the issue twice |
| ResolvedHooks.NeverMoreThanTransitions | internal/api/issues.go:917-973 | failing reads lose dispatches and never add any |
| ResolvedHooks.ResolvingAgainIsSilent | internal/api/issues.go:709-720 | resolving a resolved issue dispatches nothing |
| ResolvedHooks.RepeatedIdExample | internal/api/issues.go:958-973 | an id listed twice gets two dispatches for one transition |
| Predicates.ExtendArgs | internal/analyticsreport/runner.go:253-268 | the extended argument list is a new array and the caller's array is left alone |
| Predicates.BuildAppended | internal/analyticsreport/runner.go:253-268 | on the caller's slice of arguments: returns the extended predicate and leaves the slice as it was |
| Predicates.AppendMeans | internal/analyticsreport/runner.go:253-268 | the extended predicate means the old one and the filter, for any nesting and letter case of "and" |
| Predicates.WidgetQueryMeans | internal/analyticsreport/runner.go:210-222 | the rewritten query means the original and every supported non-blank filter, unknowns included |
| Predicates.WidgetMeans | internal/analyticsreport/runner.go:210-222 | for each dataset, exactly which of the three dashboard filters take part |
| Predicates.ConnectivesMean | internal/discovershared/sql.go:90-108 | "and", "or" and "not", in any letter case, mean conjunction, disjunction and negation |
| Predicates.TruthTables | internal/discovershared/sql.go:90-108 | when a conjunction, a disjunction and a negation are true and when they are false |
| Predicates.AppendKeepsValidity | internal/discover/validate.go:192-251 | adding a filter keeps validity and invalidity, except that it repairs an empty "and" |
| Predicates.EvalAgrees | internal/discovershared/sql.go:90-152 | a predicate depends only on the comparisons that occur in it |
| LikePatterns.EscapedMatchesItself | internal/sqlutil/helpers.go:11-16 | an escaped text inside a pattern matches exactly itself, wildcards and backslashes included |
| LikePatterns.PrefixMeans | internal/discovershared/sql.go:133-134 | the prefix pattern matches exactly the values that start with the text |
| LikePatterns.ContainsMeans | internal/discovershared/sql.go:131-132 | the contains pattern matches exactly the values in which the text occurs |
| SqlCompile.ArgBuilder.AddAll | internal/discovershared/sql.go:44-55 | appends the values and returns their numbers |
| SqlCompile.ChooseAtom | internal/discovershared/sql.go:109-151 | a comparison is decided by the override first, then by field and operator |
| SqlCompile.CompilePredicate | internal/discovershared/sql.go:90-152 | the recursive compiler returns the specified text and leaves exactly its arguments in the builder |
| SqlCompile.CompileAll | internal/discovershared/sql.go:92-101 | the argument loop compiles and parenthesises each child and stops at the first failure |
| SqlCompile.NormalizeIsNormal | internal/discover/query.go:217-228 | normalisation reaches a normal form |
| SqlCompile.NormalizeKeepsMeaning | internal/discover/query.go:217-228 | the normal form has the same meaning and validity |
| SqlCompile.NormalAsIs | internal/discovershared/sql.go:90-108 | a normal predicate means the same with its operators and fields taken as they stand, and a valid one is well shaped |
| SqlCompile.CompilesIff | internal/discovershared/sql.go:90-152 | a valid predicate compiles exactly when every comparison has a known field and operator |
| SqlCompile.CompilerPreservesMeaning | internal/discovershared/sql.go:90-152 | the text, parsed with SQL's precedence and evaluated with its bound arguments, means the predicate |
| SqlCompile.PlaceholdersInOrder | internal/discovershared/sql.go:22-55 | placeholders stand in argument order, so counted and numbered placeholders bind the same values |
| SqlAssemble.BuildStatement | internal/discovershared/plan.go:52-98 | scope, predicate and time range are added in turn and joined; the arguments are numbered through |
| SqlAssemble.AssembledMeans | internal/discovershared/plan.go:91-98 | unless the predicate is a top-level "or", the statement means scope, predicate and time range together |
| SqlAssemble.AssembledOrMeans | internal/discovershared/plan.go:91-98 | what a top-level "or" is assembled to: the scope guards the first alternative, the time range the last |
| SqlAssemble.WidenedAgreesIff | internal/discovershared/plan.go:91-98 | a top-level "or" never loses a row asked for, and agrees with the request on a row exactly when scope and time range hold or it admits nothing |
| SqlAssemble.LastAlternativeEscapes | internal/discovershared/plan.go:91-98 | the failing family: a row is admitted whenever the last alternative and the time range hold |
| SqlAssemble.FirstAlternativeEscapes | internal/discovershared/plan.go:91-98 | the mirror family: a row is admitted whenever the scope and the first alternative hold |
| SqlAssemble.SomeDatabaseDiffers | internal/discovershared/plan.go:91-98 | statement and request differ on some database whenever the last alternative can hold and asks for none of some scope clause |
| SqlAssemble.SomeDatabaseDiffersInTime | internal/discovershared/plan.go:91-98 | the same for a time clause that neither the first alternative nor the scope asks for |
| SqlAssemble.TopLevelOrExample | internal/discovershared/plan.go:91-98 | a concrete query and row for which the statement and the request differ |
| SqlAssemble.FilterIsNotTopLevelOr | internal/analyticsreport/runner.go:253-268 | a filter that applies leaves no top-level "or" |
| SqlAssemble.WidgetStatementMeans | internal/analyticsreport/runner.go:210-222 | end to end, a widget's statement means scope, predicate, dashboard filters and time range together |
| SqlAnswers.PromiseKept | internal/discovershared/sql.go:109-151 | for every operator, the SQL condition chosen holds of a value exactly when the comparison promises it, text search included |
| SqlAnswers.CompiledTextMeans | internal/discovershared/sql.go:90-152 | on an SQL database the compiled text, with its arguments, means the predicate read off the column values, for every operator and any nesting |
| SqlAnswers.CompilesWhenAccepted | internal/discovershared/sql.go:90-152 | a valid predicate compiles exactly when the backend accepts all its comparisons |
| SqlAnswers.StatementMeans | internal/discovershared/plan.go:91-98 | on an SQL database the whole statement means scope, predicate and time range, the predicate read off the column values |
| IngestLog.Queue.Enqueue | internal/sqlite/append_only_event_queue.go:30-65 | appends under the next number when the backlog is below the limit, and changes nothing otherwise |
| IngestLog.Queue.ClaimNext | internal/sqlite/append_only_event_queue.go:76-119 | returns the first ready row past the position and its attempt number |
| IngestLog.Queue.MarkDone | internal/sqlite/append_only_event_queue.go:121-150 | moves the position forward only, drops the retry, and trims at every 256th number |
| IngestLog.Queue.Requeue | internal/sqlite/append_only_event_queue.go:152-173 | counts the attempt and sets the time the row is ready again |
| IngestLog.InvKept | internal/sqlite/append_only_event_queue.go:30-173 | the log has no gaps, keeps every accepted payload past the position, and the position is the largest number done |
| IngestLog.RetriesAre | internal/sqlite/append_only_event_queue.go:121-173 | over any run the attempts of a row are its requeues since it was last done or trimmed, and its time is that of the last one |
| IngestLog.StepLosesNothingIff | internal/sqlite/append_only_event_queue.go:121-150 | a step loses no accepted row exactly when it moves the position by at most one |
| IngestLog.RunLosesNothingIff | internal/sqlite/append_only_event_queue.go:121-150 | over any run no accepted row is ever lost exactly when rows are marked done in turn |
| IngestLog.QueueLosesNothingIff | internal/sqlite/append_only_event_queue.go:121-150 | the same for every run from the empty queue |
| IngestLog.ClaimIsHeadIff | internal/sqlite/append_only_event_queue.go:76-119 | a claim returns the row just past the position, with its payload, exactly when that row is not waiting |
| IngestLog.ClaimThenDoneIff | internal/sqlite/append_only_event_queue.go:76-150 | claim then done loses nothing exactly when the head row was not waiting |
| IngestLog.WorkLosesNothingIff | internal/sqlite/append_only_event_queue.go:76-173 | over any run of a single worker no accepted row is lost exactly when no row is finished that was claimed while the head waited |
| IngestLog.WorkerLosesNothingIff | internal/sqlite/append_only_event_queue.go:76-173 | the same for a single worker from the empty queue |
| IngestLog.LostForever | internal/sqlite/append_only_event_queue.go:76-119 | a row behind the position is never handed out in any later run |
| IngestLog.RetryExample | internal/sqlite/append_only_event_queue.go:152-173 | two rows and one retry after which an accepted row is lost |
| IngestLog.BacklogIff | internal/sqlite/append_only_event_queue.go:190-206 | the reported backlog is right exactly when the log is non-empty or nothing was consumed |
| IngestLog.BacklogExample | internal/sqlite/append_only_event_queue.go:141-147 | after 256 rows and their trimming nothing is pending and the reported backlog is -256 |
| IngestLog.AdmissionIsExact | internal/sqlite/append_only_event_queue.go:38-54 | a row is admitted exactly when fewer rows than the limit are past the position; a limit of zero or less means 1000 |
| IngestLog.PendingIsBounded | internal/sqlite/append_only_event_queue.go:30-65 | over any run the rows past the position never exceed the largest limit asked for |

## Left out

- Route registration, authentication, request decoding and response mapping: plumbing.
- Store implementations: replaced by maps, sets and failure flags; the SQL of the ingest queue and of the event neighbours is modelled as the query result it defines.
- Floating-point rounding and NaN: durations, counts and thresholds are reals; the square root is a parameter that satisfies its defining equation.
- Unicode case folding and white space: `Text` covers ASCII.
- JSON and URL parsing, link URLs and their query parameters: values arrive decoded, and a link is its cursor and flag.
- Clocks: times are parameters.
- 64-bit overflow of the sums over test results, of sequence numbers and of alert windows: those are unbounded integers.
- `AnomalyDetector.EvaluateAll`: a loop over projects that calls the modelled evaluation.
- Notification dispatch, `UpdatedAt`, `LastTriggeredAt` and the action lists of alert rules: they do not take part in the state.
- ORDER BY and LIMIT of the assembled statement: they come after the WHERE text.
- Concurrent admissions between the count and the insert of the ingest queue, the fallback queue, and failures between the statements of one `MarkDone`.
- SCIM users, tokens and the other group routes: single store calls.
- SqlCompile.CompilePredicate: a "not" without arguments, which indexes an empty slice in the source, is modelled as a compile failure; validation rejects it before.
- SqlCompile.ChooseAtom: an override answers with one comparison, as the one override in the repository does.
- SqlCompile.NormalizeKeepsMeaning: models the normalised value and not the update of the caller's slices in place.
- LikePatterns.PrefixMeans: matches without regard to ASCII letter case only, as SQLite does; Postgres folds more letters.
- LikePatterns.ContainsMeans: matches without regard to ASCII letter case only, as SQLite does; Postgres folds more letters.
- SqlAssemble.AssembledMeans: scope and time-range clauses are single comparisons joined by AND, as all callers build them.
