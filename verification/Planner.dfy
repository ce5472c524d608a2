/** The planner's execution loop, and what its result reports. */
module Planner {
  import opened Wrappers
  import opened RecoveryLineage
  import opened PlannerState
  import opened PlannerLog

  // ----- What a run reports -----

  function AllResults(outcomes: seq<StrategyOutcome>): seq<TaskResult> {
    if outcomes == [] then [] else ResultsOf(outcomes[0]) + AllResults(outcomes[1..])
  }

  /** The last success reported for a task, if any. */
  function LastSuccess(results: seq<TaskResult>, id: string): Option<TaskResult> {
    if results == [] then None
    else
      var last := results[|results| - 1];
      if last.Success? && last.taskId == id then Some(last) else LastSuccess(results[..|results| - 1], id)
  }

  lemma {:induction false} RecordedSum(r: Record, a: seq<TaskResult>, b: seq<TaskResult>)
    ensures Recorded(r, a + b) == Recorded(Recorded(r, a), b)
    decreases |a|
  {
    hide Put;
    if a == [] {
      assert a + b == b;
    } else {
      assert (a + b)[1..] == a[1..] + b;
      RecordedSum(if a[0].Success? then Put(r, a[0]) else r, a[1..], b);
    }
  }

  /** The record holds, for each task, its last success. */
  lemma {:induction false} RecordHoldsLastSuccess(r: Record, results: seq<TaskResult>, id: string)
    ensures var after := Recorded(r, results).byId;
            if LastSuccess(results, id).Some? then id in after && after[id] == LastSuccess(results, id).value
            else (id in after <==> id in r.byId) && (id in after ==> after[id] == r.byId[id])
    decreases |results|
  {
    if results != [] {
      var front, last := results[..|results| - 1], results[|results| - 1];
      assert results == front + [last];
      RecordedSum(r, front, [last]);
      RecordHoldsLastSuccess(r, front, id);
      assert [last][1..] == [];
    }
  }

  ghost predicate OneEach(results: seq<TaskResult>) {
    forall i, j :: 0 <= i < j < |results| ==> results[i].taskId != results[j].taskId
  }

  function IdsIn(results: seq<TaskResult>): set<string> {
    set r | r in results :: r.taskId
  }

  lemma ValuesReport(r: Record)
    requires WellKept(r)
    ensures OneEach(Values(r)) && IdsIn(Values(r)) == r.byId.Keys
    ensures forall t :: t in Values(r) ==> t.taskId in r.byId && t == r.byId[t.taskId]
  {
    forall id | id in r.byId ensures id in IdsIn(Values(r)) {
      var i :| 0 <= i < |r.order| && r.order[i] == id;
      assert Values(r)[i] == r.byId[id];
    }
  }

  lemma Prepended(o: StrategyOutcome, outcomes: seq<StrategyOutcome>)
    ensures AllResults([o] + outcomes) == ResultsOf(o) + AllResults(outcomes)
  {
    assert ([o] + outcomes)[1..] == outcomes;
  }

  /** A completed run's report is the record of all results of all rounds. */
  lemma {:induction false} CompletedRunIsOneRecord(env: Env, lineages: seq<string>, st: Loop, n: nat)
    requires FailuresTraced(env, lineages) && InLoop(env, st) && Run(env, lineages, st, n).Done?
    ensures var done := Recorded(st.done, AllResults(Outcomes(env, lineages, st, n)));
            && WellKept(done) && OnlySuccesses(done)
            && Run(env, lineages, st, n) == Done(Values(done))
    decreases Remaining(st.attempts, lineages, env.maxAttempts), |st.continuations|
  {
    hide InLoop, FailuresTraced, WellKept, OnlySuccesses, Values, RecoverAll, Merged, Remaining, Recorded, SuccessIds;
    LoopKeeps(env, st);
    var o := env.strategy(n, st.graph, st.ids);
    var rest := if Round(env, st, n).Goes? then Outcomes(env, lineages, NextState(env, lineages, st, n), n + 1) else [];
    Prepended(o, rest);
    RecordedIsKept(st.done, ResultsOf(o));
    if Round(env, st, n).Goes? {
      CompletedRunIsOneRecord(env, lineages, NextState(env, lineages, st, n), n + 1);
      RecordedSum(st.done, ResultsOf(o), AllResults(rest));
    } else {
      assert [o] + [] == [o] && ResultsOf(o) + [] == ResultsOf(o);
    }
  }

  /** The state the next round starts from. */
  ghost function NextState(env: Env, lineages: seq<string>, st: Loop, n: nat): (next: Loop)
    requires FailuresTraced(env, lineages) && InLoop(env, st) && Round(env, st, n).Goes?
    ensures next == Round(env, st, n).state && InLoop(env, next)
    ensures (next.attempts == st.attempts && |next.continuations| < |st.continuations|)
      || Remaining(next.attempts, lineages, env.maxAttempts) < Remaining(st.attempts, lineages, env.maxAttempts)
  {
    RoundProgresses(env, lineages, st, n);
    Round(env, st, n).state
  }

  lemma LoopKeeps(env: Env, st: Loop)
    requires InLoop(env, st)
    ensures WellKept(st.done) && OnlySuccesses(st.done)
  {
  }

  /** A completed plan reports exactly one success for every task that ever succeeded: its last. */
  lemma CompletedReportsEverySuccess(env: Env, lineages: seq<string>, graph: Graph)
    requires FailuresTraced(env, lineages) && Run(env, lineages, Start(graph), 0).Done?
    ensures var report := Run(env, lineages, Start(graph), 0).results;
            var results := AllResults(Outcomes(env, lineages, Start(graph), 0));
            && OneEach(report) && IdsIn(report) == SuccessIds(results)
            && forall t :: t in report ==> LastSuccess(results, t.taskId) == Some(t)
  {
    hide FailuresTraced, Run, Outcomes, Values, OneEach, WellKept, OnlySuccesses;
    NothingIsKept();
    var st := Start(graph);
    var results := AllResults(Outcomes(env, lineages, st, 0));
    CompletedRunIsOneRecord(env, lineages, st, 0);
    var done := Recorded(NOTHING, results);
    RecordedIsKept(NOTHING, results);
    OrderIsKept(done);
    ValuesReport(done);
    forall t | t in Values(done) ensures LastSuccess(results, t.taskId) == Some(t) {
      RecordHoldsLastSuccess(NOTHING, results, t.taskId);
    }
  }

  lemma NothingIsKept()
    ensures WellKept(NOTHING) && OnlySuccesses(NOTHING)
  {
  }

  /** A plan given up on after failed recovery still reports each earlier success, once, except
      where the last round says otherwise about the task. */
  lemma {:induction false} GivenUpKeepsSuccesses(env: Env, lineages: seq<string>, st: Loop, n: nat)
    requires FailuresTraced(env, lineages) && InLoop(env, st) && Run(env, lineages, st, n).GaveUp?
    requires var outcomes := Outcomes(env, lineages, st, n); outcomes[|outcomes| - 1].Failing?
    ensures var outcomes := Outcomes(env, lineages, st, n);
            var report := Run(env, lineages, st, n).results;
            && OneEach(report)
            && IdsIn(report) == st.ids + SuccessIds(AllResults(outcomes)) + IdsIn(outcomes[|outcomes| - 1].results)
    decreases Remaining(st.attempts, lineages, env.maxAttempts), |st.continuations|
  {
    hide FailuresTraced, WellKept, OnlySuccesses, Values, RecoverAll, Merged, Remaining, Recorded, OneEach, SuccessIds;
    LoopKeeps(env, st);
    var o := env.strategy(n, st.graph, st.ids);
    var outcomes := Outcomes(env, lineages, st, n);
    if Round(env, st, n).Goes? {
      var next := NextState(env, lineages, st, n);
      var rest := Outcomes(env, lineages, next, n + 1);
      Prepended(o, rest);
      assert outcomes[|outcomes| - 1] == rest[|rest| - 1];
      GivenUpKeepsSuccesses(env, lineages, next, n + 1);
      assert next.ids == st.ids + SuccessIds(ResultsOf(o));
      SuccessesOfSum(ResultsOf(o), AllResults(rest));
    } else {
      RecordedIsKept(st.done, o.results);
      MergedIsKept(Recorded(st.done, o.results), o.results);
      ValuesReport(Merged(Recorded(st.done, o.results), o.results));
      Prepended(o, []);
      assert [o] + [] == [o] && AllResults([]) == [] && o.results + [] == o.results;
    }
  }

  lemma SuccessesOfSum(a: seq<TaskResult>, b: seq<TaskResult>)
    ensures SuccessIds(a + b) == SuccessIds(a) + SuccessIds(b)
  {
  }

  function FailingRounds(outcomes: seq<StrategyOutcome>): nat {
    if outcomes == [] then 0 else (if outcomes[0].Failing? then 1 else 0) + FailingRounds(outcomes[1..])
  }

  /** At most one failing round for each attempt the limit allows each lineage, and one more. */
  lemma {:induction false} FailingRoundsAreBounded(env: Env, lineages: seq<string>, st: Loop, n: nat)
    requires FailuresTraced(env, lineages) && InLoop(env, st)
    ensures FailingRounds(Outcomes(env, lineages, st, n)) <= Remaining(st.attempts, lineages, env.maxAttempts) + 1
    decreases Remaining(st.attempts, lineages, env.maxAttempts), |st.continuations|
  {
    hide FailuresTraced, InLoop, RecoverAll, Remaining, Recorded;
    LoopKeeps(env, st);
    var o := env.strategy(n, st.graph, st.ids);
    if Round(env, st, n).Goes? {
      var next := NextState(env, lineages, st, n);
      var rest := Outcomes(env, lineages, next, n + 1);
      assert ([o] + rest)[1..] == rest;
      FailingRoundsAreBounded(env, lineages, next, n + 1);
      if o.Failing? {
        FailingRoundDrops(env, lineages, st, n);
      }
    } else {
      assert [o][1..] == [];
    }
  }

  lemma FailingRoundDrops(env: Env, lineages: seq<string>, st: Loop, n: nat)
    requires FailuresTraced(env, lineages) && InLoop(env, st) && Round(env, st, n).Goes?
    requires env.strategy(n, st.graph, st.ids).Failing?
    ensures var next := Round(env, st, n).state;
            Remaining(next.attempts, lineages, env.maxAttempts) < Remaining(st.attempts, lineages, env.maxAttempts)
  {
    hide Recorded, Merged, Root, AttemptsOf, Remaining;
    var o := env.strategy(n, st.graph, st.ids);
    RoundProgresses(env, lineages, st, n);
    assert Traced(o, lineages);
    var from := if o.recoveryGraph.Some? then o.recoveryGraph.value else st.graph;
    RecoverAllRaises(env, n, FailuresOf(o), from, st.attempts);
  }

  /** The limit over all lineages at the start. */
  lemma {:induction false} FullAllowance(lineages: seq<string>, max: nat)
    ensures Remaining(map[], lineages, max) == |lineages| * max
  {
    if lineages != [] {
      FullAllowance(lineages[1..], max);
      assert |lineages| * max == max + |lineages[1..]| * max;
    }
  }

  // ----- Failing rounds that list no failures -----

  lemma RoundStaysKept(env: Env, st: Loop, n: nat)
    requires WellKept(st.done) && Round(env, st, n).Goes?
    ensures WellKept(Round(env, st, n).state.done)
  {
    hide WellKept, Recorded, Merged, RecoverAll, Values;
    var o := env.strategy(n, st.graph, st.ids);
    RecordedIsKept(st.done, ResultsOf(o));
  }

  /** What "k" rounds come to. */
  function Rounds(env: Env, st: Loop, n: nat, k: nat): RoundEnd
    requires WellKept(st.done)
    decreases k
  {
    if k == 0 then Goes(st)
    else
      match Round(env, st, n)
      case Stops(result) => Stops(result)
      case Goes(next) =>
        RoundStaysKept(env, st, n);
        Rounds(env, next, n + 1, k - 1)
  }

  ghost predicate FailsWithoutFailures(o: StrategyOutcome) {
    o.Failing? && o.failures == Some([])
  }

  /** A failing round that goes on uses up attempts if and only if it lists a failure. */
  lemma AttemptsUsedIffFailures(env: Env, lineages: seq<string>, st: Loop, n: nat)
    requires InLoop(env, st) && env.strategy(n, st.graph, st.ids).Failing? && Round(env, st, n).Goes?
    requires forall f :: f in FailuresOf(env.strategy(n, st.graph, st.ids)) ==> Root(f.taskId) in lineages
    ensures var next := Round(env, st, n).state;
            Remaining(next.attempts, lineages, env.maxAttempts) < Remaining(st.attempts, lineages, env.maxAttempts)
            <==> FailuresOf(env.strategy(n, st.graph, st.ids)) != []
  {
    hide Root, WellKept, OnlySuccesses, SuccessIds, Recorded, Merged, AttemptsOf, RecoverAll, Remaining;
    var o := env.strategy(n, st.graph, st.ids);
    var failures := FailuresOf(o);
    var from := if o.recoveryGraph.Some? then o.recoveryGraph.value else st.graph;
    if failures == [] {
      NothingToRecover(env, n, from, st.attempts);
    } else {
      RecoverAllRaises(env, n, failures, from, st.attempts);
      var after := Round(env, st, n).state.attempts;
      RemainingDrops(st.attempts, after, lineages, env.maxAttempts, Root(failures[0].taskId));
    }
  }

  lemma NothingToRecover(env: Env, n: nat, graph: Graph, attempts: Attempts)
    ensures RecoverAll(env, n, [], graph, attempts) == Repaired(graph, attempts)
  {
  }

  /** A strategy that keeps failing without listing failures keeps the loop going: it has not ended after
      any number of rounds, whatever results, graphs and continuations come with the answers. */
  lemma {:induction false} NoFailuresNoEnd(env: Env, st: Loop, n: nat, k: nat)
    requires WellKept(st.done)
    requires forall m: nat, graph, ids :: m >= n ==> FailsWithoutFailures(env.strategy(m, graph, ids))
    ensures Rounds(env, st, n, k).Goes? && Rounds(env, st, n, k).state.attempts == st.attempts
    decreases k
  {
    hide WellKept, Recorded, Merged, RecoverAll, Values, SuccessIds;
    if k > 0 {
      var o := env.strategy(n, st.graph, st.ids);
      assert FailsWithoutFailures(o);
      NothingToRecover(env, n, if o.recoveryGraph.Some? then o.recoveryGraph.value else st.graph, st.attempts);
      RoundStaysKept(env, st, n);
      NoFailuresNoEnd(env, Round(env, st, n).state, n + 1, k - 1);
    }
  }

  /** A strategy that always fails, and lists nothing. */
  function Stuck(max: nat): Env {
    Env((n, graph, ids) => Failing([], "", "", Some([]), None, []), (n, id, graph, attempt) => UnknownError, max)
  }

  /** Under it the loop is in the same state after every number of rounds. */
  lemma {:induction false} StuckForEver(max: nat, st: Loop, n: nat, k: nat)
    requires WellKept(st.done)
    ensures Rounds(Stuck(max), st, n, k) == Goes(st)
    decreases k
  {
    assert FailsWithoutFailures(Stuck(max).strategy(n, st.graph, st.ids));
    if k > 0 {
      assert [] + st.continuations == st.continuations;
      assert Round(Stuck(max), st, n) == Goes(st);
      StuckForEver(max, st, n + 1, k - 1);
    }
  }

  // ----- When a plan ends -----

  /** If every failing round names a failure, and all of them trace back to the given tasks, the plan
      ends, with the result the laws are about. */
  lemma {:induction false} TracedRunEnds(env: Env, lineages: seq<string>, st: Loop, n: nat) returns (k: nat)
    requires FailuresTraced(env, lineages) && InLoop(env, st)
    ensures Rounds(env, st, n, k) == Stops(Run(env, lineages, st, n))
    decreases Remaining(st.attempts, lineages, env.maxAttempts), |st.continuations|
  {
    hide FailuresTraced, WellKept, OnlySuccesses, RecoverAll, Remaining, Recorded, Merged, Values;
    k := 1;
    if Round(env, st, n).Goes? {
      RoundProgresses(env, lineages, st, n);
      var rest := TracedRunEnds(env, lineages, Round(env, st, n).state, n + 1);
      k := rest + 1;
    }
  }

  // ----- The loop -----

  function Start(graph: Graph): (st: Loop)
    ensures WellKept(st.done)
  {
    Loop(graph, map[], {}, NOTHING, [])
  }

  lemma TracedPlanEnds(env: Env, lineages: seq<string>, graph: Graph) returns (k: nat)
    requires FailuresTraced(env, lineages)
    ensures InLoop(env, Start(graph)) && Rounds(env, Start(graph), 0, k) == Stops(Run(env, lineages, Start(graph), 0))
  {
    hide FailuresTraced, Run, Rounds;
    k := TracedRunEnds(env, lineages, Start(graph), 0);
  }

  method RecordCompletedTasks(results: seq<TaskResult>, ids: set<string>, done: Record)
    returns (ids': set<string>, done': Record)
    ensures ids' == ids + SuccessIds(results) && done' == Recorded(done, results)
  {
    hide Put;
    ids', done' := ids, done;
    var i := 0;
    assert results[0..] == results;
    while i < |results|
      invariant 0 <= i <= |results|
      invariant Recorded(done', results[i..]) == Recorded(done, results)
      invariant ids' + SuccessIds(results[i..]) == ids + SuccessIds(results)
    {
      assert results[i..][1..] == results[i + 1..];
      SuccessIdsSplit(results[i..]);
      if results[i].Success? {
        ids' := ids' + {results[i].taskId};
        done' := Put(done', results[i]);
      }
      i := i + 1;
    }
  }

  method MergeCompletedIntoFailedResult(results: seq<TaskResult>, done: Record) returns (merged: seq<TaskResult>)
    requires WellKept(done)
    ensures WellKept(Merged(done, results)) && merged == Values(Merged(done, results))
  {
    hide Put, WellKept;
    var byId := done;
    var i := 0;
    assert results[0..] == results;
    while i < |results|
      invariant 0 <= i <= |results| && WellKept(byId)
      invariant Merged(byId, results[i..]) == Merged(done, results)
    {
      assert results[i..][1..] == results[i + 1..];
      PutIsKept(byId, results[i]);
      byId := Put(byId, results[i]);
      i := i + 1;
    }
    OrderIsKept(byId);
    merged := Values(byId);
  }

  lemma OrderIsKept(r: Record)
    requires WellKept(r)
    ensures forall i :: 0 <= i < |r.order| ==> r.order[i] in r.byId
  {
  }

  /** The attempts counted are the recovery calls made. */
  ghost predicate Counts(attempts: Attempts, log: Log, calls: seq<RecoveryCall>) {
    forall l :: AttemptsOf(attempts, l) == RecoveriesOf(log, l) + CallsFor(calls, l)
  }

  lemma OneMoreCounted(attempts: Attempts, log: Log, calls: seq<RecoveryCall>, c: RecoveryCall)
    requires Counts(attempts, log, calls)
    ensures var l := Root(c.taskId);
            Counts(attempts[l := AttemptsOf(attempts, l) + 1], log, calls + [c])
  {
    hide Root, RecoveriesOf, CallsFor;
    forall l {
      OneMoreCall(calls, c, l);
    }
  }

  lemma CountsFromLog(attempts: Attempts, log: Log, calls: seq<RecoveryCall>, longer: Log)
    requires Counts(attempts, log, calls)
    requires forall l :: RecoveriesOf(longer, l) == RecoveriesOf(log, l) + CallsFor(calls, l)
    ensures Counts(attempts, longer, [])
  {
  }

  /** The calls so far, all of which recovered, and what they leave. */
  ghost predicate RecoveredSoFar(env: Env, before: Log, failures: seq<TaskResult>, start: Graph,
                                 calls: seq<RecoveryCall>, left: Graph) {
    && |calls| <= |failures| && AllRecovered(calls) && left == LastReply(start, calls)
    && forall j :: 0 <= j < |calls| ==> CallFits(env, before, failures, start, calls, j)
  }

  lemma OneMoreInTurn(env: Env, before: Log, failures: seq<TaskResult>, start: Graph, calls: seq<RecoveryCall>,
                      left: Graph, c: RecoveryCall)
    requires RecoveredSoFar(env, before, failures, start, calls, left) && |calls| < |failures|
    requires c.taskId == failures[|calls|].taskId && c.graph == left
    requires c.attempt == RecoveriesOf(before, Root(c.taskId)) + CallsFor(calls, Root(c.taskId)) + 1
    requires c.reply == Recover(env, |before|, c.taskId, c.graph, c.attempt)
    ensures forall j :: 0 <= j <= |calls| ==> CallFits(env, before, failures, start, calls + [c], j)
    ensures c.reply.Next? ==> RecoveredSoFar(env, before, failures, start, calls + [c], c.reply.graph)
    ensures !c.reply.Next? ==> RecoversInTurn(env, before, failures, start, calls + [c])
  {
    hide Root, RecoveriesOf, CallsFor, Recover;
    var more := calls + [c];
    forall j | 0 <= j <= |calls| ensures CallFits(env, before, failures, start, more, j) {
      assert more[..j] == calls[..j];
      if j < |calls| {
        assert CallFits(env, before, failures, start, calls, j) && more[j] == calls[j];
      } else {
        assert calls[..j] == calls && more[j] == c;
      }
    }
  }

  lemma AllInTurn(env: Env, before: Log, failures: seq<TaskResult>, start: Graph, calls: seq<RecoveryCall>, left: Graph)
    requires RecoveredSoFar(env, before, failures, start, calls, left) && |calls| == |failures|
    ensures RecoversInTurn(env, before, failures, start, calls)
  {
    hide CallFits;
  }

  /** Recovers the failures of one round one after the other, on the graph the last one left. */
  method RecoverFailures(env: Env, n: nat, failures: seq<TaskResult>, graph: Graph, attempts: Attempts,
                         ghost log: Log)
    returns (r: RoundRecovery, ghost calls: seq<RecoveryCall>)
    requires n == |log| && Counts(attempts, log, [])
    ensures r == RecoverAll(env, n, failures, graph, attempts)
    ensures RecoversInTurn(env, log, failures, graph, calls)
    ensures match r
            case Repaired(g, after) =>
              |calls| == |failures| && AllRecovered(calls) && g == LastReply(graph, calls) && Counts(after, log, calls)
            case Unrepaired(f) =>
              && 0 < |calls| <= |failures| && var last := calls[|calls| - 1];
                 (last.reply.Exhausted? || last.reply.Escalated?) && f == failures[|calls| - 1]
            case Broken(e) => 0 < |calls| <= |failures| && calls[|calls| - 1].reply == Throws(e)
  {
    hide Root, RecoversInTurn, RecoveredSoFar, RecoveriesOf, CallsFor, Counts;
    var recoveredGraph, byTask := graph, attempts;
    calls := [];
    var i := 0;
    assert failures[0..] == failures;
    assert RecoveredSoFar(env, log, failures, graph, calls, graph) by { NothingRecovered(env, log, failures, graph); }
    while i < |failures|
      invariant 0 <= i <= |failures| && |calls| == i && Counts(byTask, log, calls)
      invariant RecoveredSoFar(env, log, failures, graph, calls, recoveredGraph)
      invariant
        RecoverAll(env, n, failures[i..], recoveredGraph, byTask) == RecoverAll(env, n, failures, graph, attempts)
    {
      assert failures[i..][1..] == failures[i + 1..];
      var failure := failures[i];
      var lineage := GetRecoveryLineageRoot(failure.taskId);
      var attempt := AttemptsOf(byTask, lineage) + 1;
      var reply := Recover(env, n, failure.taskId, recoveredGraph, attempt);
      ghost var call := RecoveryCall(failure.taskId, recoveredGraph, attempt, reply);
      CountsAt(byTask, log, calls, lineage);
      OneMoreInTurn(env, log, failures, graph, calls, recoveredGraph, call);
      OneMoreCounted(byTask, log, calls, call);
      calls := calls + [call];
      match reply {
        case Next(g) =>
          recoveredGraph := g;
          byTask := byTask[lineage := attempt];
        case Exhausted => return Unrepaired(failure), calls;
        case Escalated => return Unrepaired(failure), calls;
        case Throws(e) => return Broken(e), calls;
      }
      i := i + 1;
    }
    AllInTurn(env, log, failures, graph, calls, recoveredGraph);
    RecoveredFields(env, log, failures, graph, calls, recoveredGraph);
    return Repaired(recoveredGraph, byTask), calls;
  }

  lemma NothingRecovered(env: Env, before: Log, failures: seq<TaskResult>, start: Graph)
    ensures RecoveredSoFar(env, before, failures, start, [], start)
  {
  }

  lemma RecoveredFields(env: Env, before: Log, failures: seq<TaskResult>, start: Graph, calls: seq<RecoveryCall>,
                        left: Graph)
    requires RecoveredSoFar(env, before, failures, start, calls, left)
    ensures AllRecovered(calls) && left == LastReply(start, calls)
  {
  }

  lemma CountsAt(attempts: Attempts, log: Log, calls: seq<RecoveryCall>, l: string)
    requires Counts(attempts, log, calls)
    ensures AttemptsOf(attempts, l) == RecoveriesOf(log, l) + CallsFor(calls, l)
  {
  }

  lemma NothingCounted()
    ensures Counts(map[], [], [])
  {
  }

  /** What the loop's variables say of the rounds so far. */
  ghost predicate Due(env: Env, graph: Graph, log: Log, st: Loop) {
    && LogFits(env, graph, log)
    && (if log == [] then st.graph == graph
        else
          var last, before := log[|log| - 1], log[..|log| - 1];
          GoesOn(before, last) && st.graph == GraphAfter(before, last))
    && st.ids == Succeeded(log) && st.continuations == Waiting(log) && Counts(st.attempts, log, [])
  }

  lemma NothingDue(env: Env, graph: Graph)
    ensures Due(env, graph, [], Start(graph))
  {
  }

  lemma DueFields(env: Env, graph: Graph, log: Log, st: Loop)
    requires Due(env, graph, log, st)
    ensures LogFits(env, graph, log) && st.continuations == Waiting(log) && Counts(st.attempts, log, [])
  {
  }

  lemma RoundIsDue(env: Env, graph: Graph, log: Log, st: Loop, calls: seq<RecoveryCall>)
    requires Due(env, graph, log, st)
    requires var o := env.strategy(|log|, st.graph, st.ids);
             var r := RoundLog(st.graph, st.ids, o, calls);
             if o.Failing? then RecoversInTurn(env, log, FailuresOf(o), RecoveryStart(r), calls) else calls == []
    ensures var r := RoundLog(st.graph, st.ids, env.strategy(|log|, st.graph, st.ids), calls);
            RoundFits(env, graph, log, r) && LogFits(env, graph, log + [r])
  {
    hide RecoversInTurn, LogFits, GoesOn, GraphAfter, Waiting, Succeeded;
    LogGrows(env, graph, log, RoundLog(st.graph, st.ids, env.strategy(|log|, st.graph, st.ids), calls));
  }

  lemma NextIsDue(env: Env, graph: Graph, log: Log, st: Loop, r: RoundLog, next: Loop)
    requires Due(env, graph, log, st) && LogFits(env, graph, log + [r]) && GoesOn(log, r)
    requires next.graph == GraphAfter(log, r) && next.ids == st.ids + SuccessIds(ResultsOf(r.outcome))
    requires next.continuations
             == if r.outcome.Failing? then r.outcome.continuations + st.continuations else st.continuations[1..]
    requires Counts(next.attempts, log, r.recoveries)
    ensures Due(env, graph, log + [r], next)
  {
    hide RoundFits, LogFits, GoesOn, GraphAfter, Waiting, Succeeded, RecoveriesOf, CallsFor, Counts;
    OneMoreRound(log, r);
    CountsFromLog(next.attempts, log, r.recoveries, log + [r]);
  }

  lemma NoCallsCounted(attempts: Attempts, log: Log)
    ensures Counts(attempts, log, []) <==> forall l :: AttemptsOf(attempts, l) == RecoveriesOf(log, l)
  {
    hide RecoveriesOf;
    assert forall l :: CallsFor([], l) == 0;
  }

  lemma RoundEnds(log: Log, r: RoundLog, result: PlanResult)
    requires EndsWith([r], result) && !GoesOn(log, r)
    ensures EndsWith(log + [r], result)
  {
    assert (log + [r])[..|log|] == log;
    hide GoesOn;
  }

  /** Executes graphs until a plan completes, is given up on, or an error gets through; asked for only
      where it ends, after "rounds" rounds at most. The log says what was asked and answered. */
  method ExecutePlan(env: Env, ghost rounds: nat, graph: Graph) returns (result: PlanResult, ghost log: Log)
    requires Rounds(env, Start(graph), 0, rounds).Stops?
    ensures Rounds(env, Start(graph), 0, rounds) == Stops(result)
    ensures log != [] && LogFits(env, graph, log) && EndsWith(log, result)
  {
    var currentGraph := graph;
    var attempts: Attempts := map[];
    var completedIds: set<string> := {};
    var completed := NOTHING;
    var continuations: seq<Graph> := [];
    var n := 0;
    ghost var st := Start(graph);
    log := [];
    NothingDue(env, graph);
    hide Root, RecoverAll, Recorded, Merged, Values, SuccessIds, WellKept, Due, LogFits, RecoversInTurn, Waiting,
         Counts, RecoveriesOf, CallsFor, Succeeded, RoundFits;
    while true
      invariant st == Loop(currentGraph, attempts, completedIds, completed, continuations) && WellKept(st.done)
      invariant n <= rounds && Rounds(env, st, n, rounds - n) == Rounds(env, Start(graph), 0, rounds)
      invariant Rounds(env, st, n, rounds - n).Stops?
      invariant n == |log| && Due(env, graph, log, st)
      decreases rounds - n
    {
      var outcome := env.strategy(n, currentGraph, completedIds);
      ghost var r := RoundLog(currentGraph, completedIds, outcome, []);
      DueFields(env, graph, log, st);
      match outcome {
        case RationaleRejectedError(id) =>
          result := RationaleRejected(id);
          LogEnds(env, graph, log, st, r, result);
          return result, log + [r];
        case DomainError(e) =>
          result := GaveUp([Failed(DOMAIN_FAILURE_TASK_ID, e)], DOMAIN_FAILURE_TASK_ID, e);
          LogEnds(env, graph, log, st, r, result);
          return result, log + [r];
        case ForeignError(e) =>
          result := Thrown(e);
          LogEnds(env, graph, log, st, r, result);
          return result, log + [r];
        case OtherStatus =>
          result := Passed;
          LogEnds(env, graph, log, st, r, result);
          return result, log + [r];
        case Completed(results) =>
          RecordedIsKept(completed, results);
          completedIds, completed := RecordCompletedTasks(results, completedIds, completed);
          if continuations == [] {
            OrderIsKept(completed);
            result := Done(Values(completed));
            LogEnds(env, graph, log, st, r, result);
            return result, log + [r];
          }
          RoundIsDue(env, graph, log, st, []);
          currentGraph, continuations := continuations[0], continuations[1..];
        case Failing(results, failedTaskId, error, failures, recoveryGraph, more) =>
          RecordedIsKept(completed, results);
          completedIds, completed := RecordCompletedTasks(results, completedIds, completed);
          var recoveryFailures := if failures.Some? then failures.value else [Failed(failedTaskId, error)];
          var from := if recoveryGraph.Some? then recoveryGraph.value else currentGraph;
          var recovery;
          ghost var calls;
          recovery, calls := RecoverFailures(env, n, recoveryFailures, from, attempts, log);
          r := r.(recoveries := calls);
          RoundIsDue(env, graph, log, st, calls);
          match recovery {
            case Unrepaired(f) =>
              var merged := MergeCompletedIntoFailedResult(results, completed);
              result := GaveUp(merged, f.taskId, if f.Failed? then f.error else "");
              RoundEnds(log, r, result);
              return result, log + [r];
            case Broken(e) =>
              result := Thrown(e);
              RoundEnds(log, r, result);
              return result, log + [r];
            case Repaired(g, a) =>
              currentGraph, attempts := g, a;
              continuations := more + continuations;
          }
      }
      RoundStaysKept(env, st, n);
      ghost var next := Round(env, st, n).state;
      assert next == Loop(currentGraph, attempts, completedIds, completed, continuations);
      NextIsDue(env, graph, log, st, r, next);
      st, log := next, log + [r];
      n := n + 1;
    }
  }

  /** A round without recovery calls that ends the plan. */
  lemma LogEnds(env: Env, graph: Graph, log: Log, st: Loop, r: RoundLog, result: PlanResult)
    requires Due(env, graph, log, st) && !r.outcome.Failing?
    requires r == RoundLog(st.graph, st.ids, env.strategy(|log|, st.graph, st.ids), [])
    requires EndsWith([r], result) && (r.outcome.Completed? ==> st.continuations == [])
    ensures LogFits(env, graph, log + [r]) && EndsWith(log + [r], result)
  {
    hide LogFits, RoundFits, RecoversInTurn, Succeeded, Counts, EndsWith;
    RoundIsDue(env, graph, log, st, []);
    RoundEnds(log, r, result);
  }
}
