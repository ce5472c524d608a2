/** The planner's self-correction loop as a function of what strategy and recovery answer. */
module PlannerState {
  import opened Wrappers
  import opened RecoveryLineage

  datatype Graph = Graph(id: nat)

  datatype TaskResult = Success(taskId: string, output: string) | Failed(taskId: string, error: string)

  /** One execution of a graph: its results, or an error it throws. */
  datatype StrategyOutcome =
    | Completed(results: seq<TaskResult>)
    | Failing(results: seq<TaskResult>, failedTaskId: string, error: string,
              failures: Option<seq<TaskResult>>, recoveryGraph: Option<Graph>, continuations: seq<Graph>)
    | OtherStatus
    | RationaleRejectedError(taskId: string)
    | DomainError(error: string)
    | ForeignError(error: string)

  datatype RecoveryReply = Recovered(graph: Graph) | UnknownError | RecoveryThrows(error: string)

  datatype PlanResult =
    | Done(results: seq<TaskResult>)
    | GaveUp(results: seq<TaskResult>, failedTaskId: string, error: string)
    | Passed
    | RationaleRejected(taskId: string)
    | Thrown(error: string)

  const DOMAIN_FAILURE_TASK_ID: string := "planner-domain-error"

  /** Strategy and recovery as they answer in round n; recovery refuses attempts beyond the limit. */
  datatype Env = Env(
    strategy: (nat, Graph, set<string>) -> StrategyOutcome,
    recover: (nat, string, Graph, nat) -> RecoveryReply,
    maxAttempts: nat)

  // ----- Completed tasks -----

  /** A map that remembers the order in which its keys were first set. */
  datatype Record = Record(order: seq<string>, byId: map<string, TaskResult>)

  const NOTHING: Record := Record([], map[])

  function Put(r: Record, result: TaskResult): Record {
    Record(if result.taskId in r.byId then r.order else r.order + [result.taskId], r.byId[result.taskId := result])
  }

  function Values(r: Record): seq<TaskResult>
    requires forall i :: 0 <= i < |r.order| ==> r.order[i] in r.byId
  {
    seq(|r.order|, i requires 0 <= i < |r.order| => r.byId[r.order[i]])
  }

  ghost predicate WellKept(r: Record) {
    && (forall i :: 0 <= i < |r.order| ==> r.order[i] in r.byId)
    && (forall id :: id in r.byId ==> id in r.order && r.byId[id].taskId == id)
    && (forall i, j :: 0 <= i < j < |r.order| ==> r.order[i] != r.order[j])
  }

  ghost predicate OnlySuccesses(r: Record) {
    forall id :: id in r.byId ==> r.byId[id].Success?
  }

  /** The successes among the results recorded, a later one in place of an earlier one. */
  function Recorded(r: Record, results: seq<TaskResult>): Record
    decreases |results|
  {
    if results == [] then r
    else Recorded(if results[0].Success? then Put(r, results[0]) else r, results[1..])
  }

  /** Every result put over the completed ones. */
  function Merged(r: Record, results: seq<TaskResult>): Record
    decreases |results|
  {
    if results == [] then r else Merged(Put(r, results[0]), results[1..])
  }

  // ----- One round -----

  type Attempts = map<string, nat>

  function AttemptsOf(attempts: Attempts, lineage: string): nat {
    if lineage in attempts then attempts[lineage] else 0
  }

  /** RecoveryController.recover, with its limit. */
  datatype Recovery = Next(graph: Graph) | Exhausted | Escalated | Throws(error: string)

  function Recover(env: Env, n: nat, id: string, graph: Graph, attempt: nat): Recovery {
    if attempt > env.maxAttempts then Exhausted
    else
      match env.recover(n, id, graph, attempt)
      case Recovered(g) => Next(g)
      case UnknownError => Escalated
      case RecoveryThrows(e) => Throws(e)
  }

  /** All failures of a round recovered in order, or the first one that cannot be. */
  datatype RoundRecovery =
    | Repaired(graph: Graph, attempts: Attempts)
    | Unrepaired(failure: TaskResult)
    | Broken(error: string)

  function RecoverAll(env: Env, n: nat, failures: seq<TaskResult>, graph: Graph, attempts: Attempts): RoundRecovery
    decreases |failures|
  {
    if failures == [] then Repaired(graph, attempts)
    else
      var f := failures[0];
      var attempt := AttemptsOf(attempts, Root(f.taskId)) + 1;
      match Recover(env, n, f.taskId, graph, attempt)
      case Next(g) => RecoverAll(env, n, failures[1..], g, attempts[Root(f.taskId) := attempt])
      case Exhausted => Unrepaired(f)
      case Escalated => Unrepaired(f)
      case Throws(e) => Broken(e)
  }

  datatype Loop = Loop(graph: Graph, attempts: Attempts, ids: set<string>, done: Record, continuations: seq<Graph>)

  datatype RoundEnd = Goes(state: Loop) | Stops(result: PlanResult)

  function FailuresOf(o: StrategyOutcome): seq<TaskResult>
    requires o.Failing?
  {
    if o.failures.Some? then o.failures.value else [Failed(o.failedTaskId, o.error)]
  }

  function SuccessIds(results: seq<TaskResult>): set<string> {
    set r | r in results && r.Success? :: r.taskId
  }

  function WithResults(st: Loop, results: seq<TaskResult>): Loop {
    st.(ids := st.ids + SuccessIds(results), done := Recorded(st.done, results))
  }

  function Round(env: Env, st: Loop, n: nat): RoundEnd
    requires WellKept(st.done)
  {
    match env.strategy(n, st.graph, st.ids)
    case RationaleRejectedError(id) => Stops(RationaleRejected(id))
    case DomainError(e) => Stops(GaveUp([Failed(DOMAIN_FAILURE_TASK_ID, e)], DOMAIN_FAILURE_TASK_ID, e))
    case ForeignError(e) => Stops(Thrown(e))
    case OtherStatus => Stops(Passed)
    case Completed(results) =>
      var after := WithResults(st, results);
      RecordedIsKept(st.done, results);
      if after.continuations == [] then Stops(Done(Values(after.done)))
      else Goes(after.(graph := after.continuations[0], continuations := after.continuations[1..]))
    case Failing(results, id, error, failures, graph, continuations) =>
      var after := WithResults(st, results);
      var from := if graph.Some? then graph.value else st.graph;
      RecordedIsKept(st.done, results);
      MergedIsKept(after.done, results);
      match RecoverAll(env, n, FailuresOf(env.strategy(n, st.graph, st.ids)), from, st.attempts)
      case Repaired(g, attempts) =>
        Goes(after.(graph := g, attempts := attempts, continuations := continuations + after.continuations))
      case Unrepaired(f) =>
        Stops(GaveUp(Values(Merged(after.done, results)), f.taskId, if f.Failed? then f.error else ""))
      case Broken(e) => Stops(Thrown(e))
  }

  lemma PutIsKept(r: Record, result: TaskResult)
    requires WellKept(r)
    ensures WellKept(Put(r, result)) && Put(r, result).byId.Keys == r.byId.Keys + {result.taskId}
    ensures OnlySuccesses(r) && result.Success? ==> OnlySuccesses(Put(r, result))
  {
    if result.taskId !in r.byId {
      assert forall i :: 0 <= i < |r.order| ==> r.order[i] != result.taskId;
    }
    assert result.taskId in Put(r, result).order;
  }

  lemma {:induction false} RecordedIsKept(r: Record, results: seq<TaskResult>)
    requires WellKept(r)
    ensures WellKept(Recorded(r, results))
    ensures Recorded(r, results).byId.Keys == r.byId.Keys + SuccessIds(results)
    ensures OnlySuccesses(r) ==> OnlySuccesses(Recorded(r, results))
    decreases |results|
  {
    hide WellKept, OnlySuccesses, Put;
    if results != [] {
      PutIsKept(r, results[0]);
      RecordedIsKept(if results[0].Success? then Put(r, results[0]) else r, results[1..]);
      SuccessIdsSplit(results);
    }
  }

  lemma SuccessIdsSplit(results: seq<TaskResult>)
    requires results != []
    ensures SuccessIds(results) == (if results[0].Success? then {results[0].taskId} else {}) + SuccessIds(results[1..])
  {
  }

  lemma {:induction false} MergedIsKept(r: Record, results: seq<TaskResult>)
    requires WellKept(r)
    ensures WellKept(Merged(r, results))
    ensures Merged(r, results).byId.Keys == r.byId.Keys + (set t | t in results :: t.taskId)
    decreases |results|
  {
    hide WellKept, Put;
    if results != [] {
      PutIsKept(r, results[0]);
      MergedIsKept(Put(r, results[0]), results[1..]);
      assert (set t | t in results :: t.taskId) == {results[0].taskId} + (set t | t in results[1..] :: t.taskId);
    }
  }

  // ----- Termination -----

  /** The recovery attempts still allowed for the given lineages. */
  function Remaining(attempts: Attempts, lineages: seq<string>, max: nat): nat {
    if lineages == [] then 0
    else (if AttemptsOf(attempts, lineages[0]) < max then max - AttemptsOf(attempts, lineages[0]) else 0)
         + Remaining(attempts, lineages[1..], max)
  }

  /** Every failing round names a failure, and every failure traces back to one of the lineages. */
  ghost predicate FailuresTraced(env: Env, lineages: seq<string>) {
    forall n, graph, ids :: Traced(env.strategy(n, graph, ids), lineages)
  }

  ghost predicate Traced(o: StrategyOutcome, lineages: seq<string>) {
    o.Failing? ==> FailuresOf(o) != [] && forall f :: f in FailuresOf(o) ==> Root(f.taskId) in lineages
  }

  lemma {:induction false} RemainingDrops(a: Attempts, b: Attempts, lineages: seq<string>, max: nat, lineage: string)
    requires forall l :: AttemptsOf(a, l) <= AttemptsOf(b, l)
    ensures Remaining(b, lineages, max) <= Remaining(a, lineages, max)
    ensures lineage in lineages && AttemptsOf(a, lineage) < AttemptsOf(b, lineage) <= max ==>
      Remaining(b, lineages, max) < Remaining(a, lineages, max)
  {
    hide AttemptsOf;
    if lineages != [] {
      RemainingDrops(a, b, lineages[1..], max, lineage);
    }
  }

  /** Recovery only ever raises the attempts of the lineages it is called for, up to the limit. */
  lemma {:induction false} RecoverAllRaises(
      env: Env, n: nat, failures: seq<TaskResult>, graph: Graph, attempts: Attempts)
    requires RecoverAll(env, n, failures, graph, attempts).Repaired?
    ensures var after := RecoverAll(env, n, failures, graph, attempts).attempts;
            && (forall l :: AttemptsOf(attempts, l) <= AttemptsOf(after, l))
            && (failures != [] ==>
                 var l := Root(failures[0].taskId); AttemptsOf(attempts, l) < AttemptsOf(after, l))
            && ((forall l :: AttemptsOf(attempts, l) <= env.maxAttempts) ==>
                 forall l :: AttemptsOf(after, l) <= env.maxAttempts)
    decreases |failures|
  {
    hide Root;
    if failures != [] {
      var f := failures[0];
      var attempt := AttemptsOf(attempts, Root(f.taskId)) + 1;
      var next := attempts[Root(f.taskId) := attempt];
      var g := Recover(env, n, f.taskId, graph, attempt).graph;
      RecoverAllRaises(env, n, failures[1..], g, next);
      assert forall l :: AttemptsOf(attempts, l) <= AttemptsOf(next, l);
    }
  }

  ghost predicate InLoop(env: Env, st: Loop) {
    && WellKept(st.done) && OnlySuccesses(st.done) && st.ids == st.done.byId.Keys
    && forall l :: AttemptsOf(st.attempts, l) <= env.maxAttempts
  }

  /** Each round that goes on uses up an attempt or a continuation. */
  lemma RoundProgresses(env: Env, lineages: seq<string>, st: Loop, n: nat)
    requires FailuresTraced(env, lineages) && InLoop(env, st) && Round(env, st, n).Goes?
    ensures var next := Round(env, st, n).state;
            && InLoop(env, next)
            && (Remaining(next.attempts, lineages, env.maxAttempts) < Remaining(st.attempts, lineages, env.maxAttempts)
                || (next.attempts == st.attempts && |next.continuations| < |st.continuations|))
  {
    hide Root, WellKept, OnlySuccesses, SuccessIds, Recorded, Merged, AttemptsOf, RecoverAll, Remaining;
    var o := env.strategy(n, st.graph, st.ids);
    RecordedIsKept(st.done, o.results);
    if o.Failing? {
      assert Traced(o, lineages);
      var failures := FailuresOf(o);
      var from := if o.recoveryGraph.Some? then o.recoveryGraph.value else st.graph;
      RecoverAllRaises(env, n, failures, from, st.attempts);
      var l := Root(failures[0].taskId);
      assert failures[0] in failures;
      RemainingDrops(st.attempts, Round(env, st, n).state.attempts, lineages, env.maxAttempts, l);
    }
  }

  /** The whole loop. */
  ghost function Run(env: Env, lineages: seq<string>, st: Loop, n: nat): PlanResult
    requires FailuresTraced(env, lineages) && InLoop(env, st)
    decreases Remaining(st.attempts, lineages, env.maxAttempts), |st.continuations|
  {
    match Round(env, st, n)
    case Stops(result) => result
    case Goes(next) =>
      RoundProgresses(env, lineages, st, n);
      Run(env, lineages, next, n + 1)
  }

  /** What the strategy answered, round by round. */
  ghost function Outcomes(env: Env, lineages: seq<string>, st: Loop, n: nat): (r: seq<StrategyOutcome>)
    requires FailuresTraced(env, lineages) && InLoop(env, st)
    ensures r != []
    decreases Remaining(st.attempts, lineages, env.maxAttempts), |st.continuations|
  {
    var o := env.strategy(n, st.graph, st.ids);
    match Round(env, st, n)
    case Stops(result) => [o]
    case Goes(next) =>
      RoundProgresses(env, lineages, st, n);
      [o] + Outcomes(env, lineages, next, n + 1)
  }
}
