/** The log of one plan: what strategy and recovery were asked and what they answered, and what the
    answers so far make the next question. */
module PlannerLog {
  import opened Wrappers
  import opened RecoveryLineage
  import opened PlannerState

  datatype RecoveryCall = RecoveryCall(taskId: string, graph: Graph, attempt: nat, reply: Recovery)

  /** One round: the graph and the completed ids the strategy was given, its answer, and the recovery
      calls that followed. */
  datatype RoundLog = RoundLog(graph: Graph, ids: set<string>, outcome: StrategyOutcome, recoveries: seq<RecoveryCall>)

  type Log = seq<RoundLog>

  function ResultsOf(o: StrategyOutcome): seq<TaskResult> {
    if o.Completed? || o.Failing? then o.results else []
  }

  // ----- What the answers so far come to -----

  /** The continuations not executed yet: those of a failing round come before the ones already
      waiting, and a completed round takes the first. */
  function Waiting(log: Log): seq<Graph> {
    if log == [] then []
    else
      var waiting, last := Waiting(log[..|log| - 1]), log[|log| - 1].outcome;
      if last.Failing? then last.continuations + waiting
      else if last.Completed? && waiting != [] then waiting[1..]
      else waiting
  }

  /** The tasks that have succeeded. */
  function Succeeded(log: Log): set<string> {
    set i, r | 0 <= i < |log| && r in ResultsOf(log[i].outcome) && r.Success? :: r.taskId
  }

  /** The recovery calls made so far for the tasks of one lineage. */
  function CallsFor(calls: seq<RecoveryCall>, lineage: string): nat {
    if calls == [] then 0
    else CallsFor(calls[..|calls| - 1], lineage) + (if Root(calls[|calls| - 1].taskId) == lineage then 1 else 0)
  }

  function RecoveriesOf(log: Log, lineage: string): nat {
    if log == [] then 0
    else RecoveriesOf(log[..|log| - 1], lineage) + CallsFor(log[|log| - 1].recoveries, lineage)
  }

  /** The graph recovery starts from after a failing round. */
  function RecoveryStart(r: RoundLog): Graph
    requires r.outcome.Failing?
  {
    if r.outcome.recoveryGraph.Some? then r.outcome.recoveryGraph.value else r.graph
  }

  predicate AllRecovered(calls: seq<RecoveryCall>) {
    forall j :: 0 <= j < |calls| ==> calls[j].reply.Next?
  }

  /** The graph of the last recovery reply. */
  function LastReply(start: Graph, calls: seq<RecoveryCall>): Graph
    requires AllRecovered(calls)
  {
    if calls == [] then start else calls[|calls| - 1].reply.graph
  }

  // ----- What is asked next -----

  /** The graph a recovery call is given: what the call before it left. */
  function GraphGiven(start: Graph, calls: seq<RecoveryCall>, j: nat): Graph
    requires j < |calls| && (j > 0 ==> calls[j - 1].reply.Next?)
  {
    if j == 0 then start else calls[j - 1].reply.graph
  }

  ghost predicate CallFits(env: Env, before: Log, failures: seq<TaskResult>, start: Graph, calls: seq<RecoveryCall>,
                           j: nat)
    requires j < |calls| <= |failures| && (j > 0 ==> calls[j - 1].reply.Next?)
  {
    var c := calls[j];
    && c.taskId == failures[j].taskId
    && c.graph == GraphGiven(start, calls, j)
    && c.attempt == RecoveriesOf(before, Root(c.taskId)) + CallsFor(calls[..j], Root(c.taskId)) + 1
    && c.reply == Recover(env, |before|, c.taskId, c.graph, c.attempt)
  }

  /** The recovery calls of one round: one for each failure in order, each on the graph the one before
      it left, counted by lineage, until one does not recover. */
  ghost predicate RecoversInTurn(env: Env, before: Log, failures: seq<TaskResult>, start: Graph,
                                 calls: seq<RecoveryCall>) {
    && |calls| <= |failures|
    && (forall j :: 0 <= j < |calls| - 1 ==> calls[j].reply.Next?)
    && (|calls| < |failures| ==> calls != [] && !calls[|calls| - 1].reply.Next?)
    && (forall j :: 0 <= j < |calls| ==> CallFits(env, before, failures, start, calls, j))
  }

  /** The plan goes on after this round. */
  predicate GoesOn(before: Log, r: RoundLog) {
    || (r.outcome.Completed? && Waiting(before) != [])
    || (r.outcome.Failing? && |r.recoveries| == |FailuresOf(r.outcome)| && AllRecovered(r.recoveries))
  }

  /** The graph the round after this one executes. */
  function GraphAfter(before: Log, r: RoundLog): Graph
    requires GoesOn(before, r)
  {
    if r.outcome.Completed? then Waiting(before)[0] else LastReply(RecoveryStart(r), r.recoveries)
  }

  /** One round as the answers before it require. */
  ghost predicate RoundFits(env: Env, graph: Graph, before: Log, r: RoundLog) {
    && (if before == [] then r.graph == graph
        else
          var last, earlier := before[|before| - 1], before[..|before| - 1];
          GoesOn(earlier, last) && r.graph == GraphAfter(earlier, last))
    && r.ids == Succeeded(before)
    && r.outcome == env.strategy(|before|, r.graph, r.ids)
    && (if r.outcome.Failing? then RecoversInTurn(env, before, FailuresOf(r.outcome), RecoveryStart(r), r.recoveries)
        else r.recoveries == [])
  }

  ghost predicate LogFits(env: Env, graph: Graph, log: Log) {
    forall i :: 0 <= i < |log| ==> RoundFits(env, graph, log[..i], log[i])
  }

  /** What the last round makes of the plan. */
  ghost predicate EndsWith(log: Log, result: PlanResult)
    requires log != []
  {
    var last, before := log[|log| - 1], log[..|log| - 1];
    && !GoesOn(before, last)
    && match last.outcome
       case Completed(_) => result.Done?
       case Failing(_, _, _, _, _, _) =>
         && var calls, failures := last.recoveries, FailuresOf(last.outcome);
         && 0 < |calls| <= |failures|
         && (match calls[|calls| - 1].reply
             case Throws(e) => result == Thrown(e)
             case _ =>
               && result.GaveUp? && result.failedTaskId == failures[|calls| - 1].taskId
               && result.error == if failures[|calls| - 1].Failed? then failures[|calls| - 1].error else "")
       case OtherStatus => result.Passed?
       case RationaleRejectedError(id) => result == RationaleRejected(id)
       case DomainError(e) =>
         result == GaveUp([Failed(DOMAIN_FAILURE_TASK_ID, e)], DOMAIN_FAILURE_TASK_ID, e)
       case ForeignError(e) => result == Thrown(e)
  }

  // ----- Steps -----

  lemma OneMoreRound(before: Log, r: RoundLog)
    ensures var log := before + [r];
            && (forall i :: 0 <= i <= |before| ==> log[..i] == before[..i])
            && log[..|log| - 1] == before && log[|log| - 1] == r
            && Succeeded(log) == Succeeded(before) + SuccessIds(ResultsOf(r.outcome))
            && (GoesOn(before, r) ==>
                 Waiting(log)
                 == if r.outcome.Failing? then r.outcome.continuations + Waiting(before) else Waiting(before)[1..])
            && forall l :: RecoveriesOf(log, l) == RecoveriesOf(before, l) + CallsFor(r.recoveries, l)
  {
    hide CallsFor, AllRecovered;
    var log := before + [r];
    assert log[..|log| - 1] == before;
    assert forall i :: 0 <= i < |before| ==> log[i] == before[i];
    assert log[|before|] == r;
    assert forall id :: id in Succeeded(log) <==> id in Succeeded(before) || id in SuccessIds(ResultsOf(r.outcome));
  }

  lemma LogGrows(env: Env, graph: Graph, before: Log, r: RoundLog)
    requires LogFits(env, graph, before) && RoundFits(env, graph, before, r)
    ensures LogFits(env, graph, before + [r])
  {
    hide RoundFits;
    var log := before + [r];
    forall i | 0 <= i < |log| ensures RoundFits(env, graph, log[..i], log[i]) {
      if i < |before| {
        assert log[..i] == before[..i];
      } else {
        assert log[..i] == before;
      }
    }
  }

  lemma OneMoreCall(calls: seq<RecoveryCall>, c: RecoveryCall, lineage: string)
    ensures CallsFor(calls + [c], lineage) == CallsFor(calls, lineage) + (if Root(c.taskId) == lineage then 1 else 0)
  {
    hide Root;
    assert (calls + [c])[..|calls|] == calls;
  }

  // ----- Results -----

  lemma RoundBeforeGoesOn(env: Env, graph: Graph, log: Log, i: nat)
    requires LogFits(env, graph, log) && i + 1 < |log|
    ensures GoesOn(log[..i], log[i]) && log[i + 1].graph == GraphAfter(log[..i], log[i])
    ensures RoundFits(env, graph, log[..i], log[i])
  {
    hide GoesOn, GraphAfter, RecoversInTurn;
    assert RoundFits(env, graph, log[..i + 1], log[i + 1]);
    assert log[..i + 1][..i] == log[..i];
  }

  /** The calls of one round answer its failures in order, each on the graph the one before it left. */
  ghost predicate AnswerFailures(failures: seq<TaskResult>, start: Graph, calls: seq<RecoveryCall>) {
    && |calls| == |failures| && AllRecovered(calls)
    && forall j :: 0 <= j < |calls| ==>
         calls[j].taskId == failures[j].taskId && calls[j].graph == GraphGiven(start, calls, j)
  }

  /** A failing round that goes on and lists no failures of its own has had its failed task recovered. */
  lemma FailedTaskIsRecovered(env: Env, graph: Graph, log: Log, i: nat)
    requires LogFits(env, graph, log) && i + 1 < |log|
    requires log[i].outcome.Failing? && log[i].outcome.failures.None?
    ensures |log[i].recoveries| == 1 && log[i].recoveries[0].taskId == log[i].outcome.failedTaskId
  {
    hide LogFits, Waiting, Succeeded, RecoveriesOf, CallsFor, Root, RecoveryStart, Recover;
    RoundBeforeGoesOn(env, graph, log, i);
    assert CallFits(env, log[..i], FailuresOf(log[i].outcome), RecoveryStart(log[i]), log[i].recoveries, 0);
  }

  lemma RepairedInTurn(env: Env, before: Log, failures: seq<TaskResult>, start: Graph, calls: seq<RecoveryCall>)
    requires RecoversInTurn(env, before, failures, start, calls) && |calls| == |failures| && AllRecovered(calls)
    ensures AnswerFailures(failures, start, calls)
  {
    hide Recover, RecoveriesOf, CallsFor, Root;
    assert forall j :: 0 <= j < |calls| ==> calls[j].reply.Next?;
    forall j | 0 <= j < |calls|
      ensures calls[j].taskId == failures[j].taskId && calls[j].graph == GraphGiven(start, calls, j)
    {
      assert CallFits(env, before, failures, start, calls, j);
    }
  }

  /** After a repaired failing round the next strategy call gets the graph of the last recovery reply;
      the first recovery call got the recovery graph or the executed one, each other the graph of the
      reply before it. */
  lemma RecoveredGraphIsNext(env: Env, graph: Graph, log: Log, i: nat)
    requires LogFits(env, graph, log) && i + 1 < |log| && log[i].outcome.Failing?
    ensures var start, calls := RecoveryStart(log[i]), log[i].recoveries;
            && AnswerFailures(FailuresOf(log[i].outcome), start, calls)
            && log[i + 1].graph == if calls == [] then start else calls[|calls| - 1].reply.graph
  {
    hide LogFits, Waiting, RecoversInTurn, AnswerFailures, Succeeded, RecoveryStart;
    RoundBeforeGoesOn(env, graph, log, i);
    RepairedInTurn(env, log[..i], FailuresOf(log[i].outcome), RecoveryStart(log[i]), log[i].recoveries);
  }

  /** After a completed round that is not the last, the next strategy call gets the first continuation
      waiting. */
  lemma ContinuationIsNext(env: Env, graph: Graph, log: Log, i: nat)
    requires LogFits(env, graph, log) && i + 1 < |log| && !log[i].outcome.Failing?
    ensures log[i].outcome.Completed? && Waiting(log[..i]) == [log[i + 1].graph] + Waiting(log[..i + 1])
  {
    RoundBeforeGoesOn(env, graph, log, i);
    assert log[..i + 1][..i] == log[..i];
  }

  function Executed(log: Log): multiset<Graph> {
    if log == [] then multiset{} else Executed(log[..|log| - 1]) + multiset{log[|log| - 1].graph}
  }

  /** The graphs asked for: the plan's own, and for each failing round its continuations and the graph
      recovery left. */
  function AskedFor(graph: Graph, log: Log): multiset<Graph> {
    if log == [] then multiset{graph}
    else
      var asked, last := AskedFor(graph, log[..|log| - 1]), log[|log| - 1];
      if !last.outcome.Failing? then asked
      else
        asked + multiset(last.outcome.continuations)
        + (if AllRecovered(last.recoveries) then multiset{LastReply(RecoveryStart(last), last.recoveries)}
           else multiset{})
  }

  /** Nothing asked for is lost or executed twice: up to any round, each graph asked for has been
      executed once or still waits. */
  lemma {:induction false} EveryGraphOnce(env: Env, graph: Graph, log: Log)
    requires log != [] && LogFits(env, graph, log)
    ensures Executed(log) + multiset(Waiting(log[..|log| - 1])) == AskedFor(graph, log[..|log| - 1])
    decreases |log|
  {
    hide RecoversInTurn, Succeeded, LogFits;
    var before, last := log[..|log| - 1], log[|log| - 1];
    if before == [] {
      assert Executed([]) == multiset{};
      FitsAt(env, graph, log, 0);
    } else {
      FitsPrefix(env, graph, log);
      EveryGraphOnce(env, graph, before);
      RoundBeforeGoesOn(env, graph, log, |before| - 1);
      assert log[..|before| - 1] == before[..|before| - 1];
      OneMoreExecuted(graph, before, last.graph);
    }
  }

  lemma OneMoreExecuted(graph: Graph, log: Log, next: Graph)
    requires log != []
    requires GoesOn(log[..|log| - 1], log[|log| - 1]) && next == GraphAfter(log[..|log| - 1], log[|log| - 1])
    requires Executed(log) + multiset(Waiting(log[..|log| - 1])) == AskedFor(graph, log[..|log| - 1])
    ensures Executed(log) + multiset{next} + multiset(Waiting(log)) == AskedFor(graph, log)
  {
    hide Executed;
    var waiting, last := Waiting(log[..|log| - 1]), log[|log| - 1];
    if last.outcome.Failing? {
      assert multiset(last.outcome.continuations + waiting) == multiset(last.outcome.continuations) + multiset(waiting);
    } else {
      assert waiting == [next] + Waiting(log);
      assert multiset([next] + Waiting(log)) == multiset{next} + multiset(Waiting(log));
    }
  }

  lemma FitsAt(env: Env, graph: Graph, log: Log, i: nat)
    requires LogFits(env, graph, log) && i < |log|
    ensures RoundFits(env, graph, log[..i], log[i])
  {
  }

  lemma FitsPrefix(env: Env, graph: Graph, log: Log)
    requires log != [] && LogFits(env, graph, log)
    ensures LogFits(env, graph, log[..|log| - 1])
  {
    hide RoundFits;
    var before := log[..|log| - 1];
    forall i | 0 <= i < |before| ensures RoundFits(env, graph, before[..i], before[i]) {
      assert before[..i] == log[..i];
    }
  }

  /** A plan that completes has executed every graph asked for exactly once. */
  lemma CompletedPlanRanEveryGraph(env: Env, graph: Graph, log: Log, result: PlanResult)
    requires log != [] && LogFits(env, graph, log) && EndsWith(log, result) && result.Done?
    ensures Executed(log) == AskedFor(graph, log)
  {
    hide LogFits, RecoversInTurn, Executed;
    EveryGraphOnce(env, graph, log);
  }

  // ----- How often a lineage is recovered -----

  /** Recovery is asked for every failure within the limit of its lineage, and answers; beyond the limit
      it is not asked. */
  lemma RecoveryAskedWithinLimit(env: Env, graph: Graph, log: Log, i: nat, j: nat)
    requires LogFits(env, graph, log) && i < |log| && j < |log[i].recoveries|
    ensures var c := log[i].recoveries[j];
            && (c.attempt > env.maxAttempts ==> c.reply == Exhausted)
            && (c.attempt <= env.maxAttempts ==>
                 match env.recover(i, c.taskId, c.graph, c.attempt)
                 case Recovered(g) => c.reply == Next(g)
                 case UnknownError => c.reply == Escalated
                 case RecoveryThrows(e) => c.reply == Throws(e))
  {
    hide LogFits, Waiting, Succeeded, RecoveriesOf, CallsFor, Root, RecoveryStart, GoesOn;
    FitsAt(env, graph, log, i);
    var r := log[i];
    assert CallFits(env, log[..i], FailuresOf(r.outcome), RecoveryStart(r), r.recoveries, j);
  }

  /** The calls of one round that recover are within the limit of every lineage. */
  lemma {:induction false} CallsWithinLimit(env: Env, before: Log, failures: seq<TaskResult>, start: Graph,
                                            calls: seq<RecoveryCall>, lineage: string, n: nat)
    requires RecoversInTurn(env, before, failures, start, calls) && n <= |calls|
    requires AllRecovered(calls[..n]) && RecoveriesOf(before, lineage) <= env.maxAttempts
    ensures RecoveriesOf(before, lineage) + CallsFor(calls[..n], lineage) <= env.maxAttempts
    decreases n
  {
    hide Root, RecoveriesOf;
    if n > 0 {
      assert calls[..n][..n - 1] == calls[..n - 1];
      var c := calls[n - 1];
      assert c == calls[..n][n - 1] && CallFits(env, before, failures, start, calls, n - 1);
      if Root(c.taskId) != lineage {
        CallsWithinLimit(env, before, failures, start, calls, lineage, n - 1);
      }
    }
  }

  /** No lineage is ever recovered more often than the limit allows. */
  lemma {:induction false} RecoveriesWithinLimit(env: Env, graph: Graph, log: Log, lineage: string)
    requires log != [] && LogFits(env, graph, log)
    ensures RecoveriesOf(log[..|log| - 1], lineage) <= env.maxAttempts
    decreases |log|
  {
    hide LogFits, CallsFor, RecoversInTurn;
    if |log| > 1 {
      var before := log[..|log| - 1];
      var earlier, r := before[..|before| - 1], before[|before| - 1];
      FitsPrefix(env, graph, log);
      RecoveriesWithinLimit(env, graph, before, lineage);
      RoundBeforeGoesOn(env, graph, log, |before| - 1);
      assert log[..|before| - 1] == earlier && log[|before| - 1] == r;
      if r.outcome.Failing? {
        assert r.recoveries[..|r.recoveries|] == r.recoveries;
        CallsWithinLimit(env, earlier, FailuresOf(r.outcome), RecoveryStart(r), r.recoveries, lineage, |r.recoveries|);
      } else {
        NoCalls(lineage);
      }
    }
  }

  lemma NoCalls(lineage: string)
    ensures CallsFor([], lineage) == 0
  {
  }
}
