/** In which order, and with which result, a plan reports its tasks. */
module PlannerReport {
  import opened Wrappers
  import opened RecoveryLineage
  import opened PlannerState
  import opened PlannerLog
  import opened Planner

  function TaskIds(results: seq<TaskResult>): seq<string> {
    seq(|results|, i requires 0 <= i < |results| => results[i].taskId)
  }

  /** The tasks that succeeded, as often as they did, in order. */
  function SuccessOrder(results: seq<TaskResult>): seq<string> {
    if results == [] then []
    else (if results[0].Success? then [results[0].taskId] else []) + SuccessOrder(results[1..])
  }

  /** Each id where it came first. */
  function FirstOnly(ids: seq<string>): seq<string> {
    if ids == [] then []
    else
      var before, last := FirstOnly(ids[..|ids| - 1]), ids[|ids| - 1];
      if last in before then before else before + [last]
  }

  lemma {:induction false} DistinctStay(ids: seq<string>)
    requires forall i, j :: 0 <= i < j < |ids| ==> ids[i] != ids[j]
    ensures FirstOnly(ids) == ids
  {
    if ids != [] {
      DistinctStay(ids[..|ids| - 1]);
      assert ids == ids[..|ids| - 1] + [ids[|ids| - 1]];
    }
  }

  lemma {:induction false} FirstOnlyTwice(a: seq<string>, b: seq<string>)
    ensures FirstOnly(FirstOnly(a) + b) == FirstOnly(a + b)
    decreases |b|
  {
    if b == [] {
      assert a + b == a && FirstOnly(a) + b == FirstOnly(a);
      FirstOnlyIsDistinct(a);
      DistinctStay(FirstOnly(a));
    } else {
      var front := b[..|b| - 1];
      FirstOnlyTwice(a, front);
      assert (a + b)[..|a + b| - 1] == a + front;
      assert (FirstOnly(a) + b)[..|FirstOnly(a) + b| - 1] == FirstOnly(a) + front;
    }
  }

  lemma {:induction false} FirstOnlyIsDistinct(ids: seq<string>)
    ensures forall i, j :: 0 <= i < j < |FirstOnly(ids)| ==> FirstOnly(ids)[i] != FirstOnly(ids)[j]
  {
    if ids != [] {
      FirstOnlyIsDistinct(ids[..|ids| - 1]);
    }
  }

  lemma OrderIsFirstOnly(r: Record)
    requires WellKept(r)
    ensures FirstOnly(r.order) == r.order
  {
    DistinctStay(r.order);
  }

  lemma PutOrder(r: Record, result: TaskResult)
    requires WellKept(r)
    ensures Put(r, result).order == FirstOnly(r.order + [result.taskId])
  {
    OrderIsFirstOnly(r);
    assert (r.order + [result.taskId])[..|r.order|] == r.order;
    assert result.taskId in r.byId <==> result.taskId in r.order;
  }

  lemma FirstThenRest(order: seq<string>, first: seq<string>, rest: seq<string>)
    ensures FirstOnly(FirstOnly(order + first) + rest) == FirstOnly(order + (first + rest))
  {
    hide FirstOnly;
    FirstOnlyTwice(order + first, rest);
    assert order + first + rest == order + (first + rest);
  }

  lemma {:induction false} RecordedOrder(r: Record, results: seq<TaskResult>)
    requires WellKept(r)
    ensures Recorded(r, results).order == FirstOnly(r.order + SuccessOrder(results))
    decreases |results|
  {
    hide WellKept, Put, FirstOnly;
    OrderIsFirstOnly(r);
    assert r.order + [] == r.order;
    if results != [] {
      var result, rest := results[0], results[1..];
      if result.Success? {
        PutOrder(r, result);
        PutIsKept(r, result);
        RecordedOrder(Put(r, result), rest);
        FirstThenRest(r.order, [result.taskId], SuccessOrder(rest));
      } else {
        RecordedOrder(r, rest);
        assert [] + SuccessOrder(rest) == SuccessOrder(rest);
      }
    }
  }

  lemma {:induction false} MergedOrder(r: Record, results: seq<TaskResult>)
    requires WellKept(r)
    ensures Merged(r, results).order == FirstOnly(r.order + TaskIds(results))
    decreases |results|
  {
    hide WellKept, Put, FirstOnly;
    OrderIsFirstOnly(r);
    if results == [] {
      assert r.order + TaskIds(results) == r.order;
    } else {
      PutOrder(r, results[0]);
      PutIsKept(r, results[0]);
      MergedOrder(Put(r, results[0]), results[1..]);
      FirstThenRest(r.order, [results[0].taskId], TaskIds(results[1..]));
      assert [results[0].taskId] + TaskIds(results[1..]) == TaskIds(results);
    }
  }

  /** The last result reported for a task, if any. */
  function LastResult(results: seq<TaskResult>, id: string): Option<TaskResult> {
    if results == [] then None
    else if results[|results| - 1].taskId == id then Some(results[|results| - 1])
    else LastResult(results[..|results| - 1], id)
  }

  lemma {:induction false} MergedSum(r: Record, a: seq<TaskResult>, b: seq<TaskResult>)
    ensures Merged(r, a + b) == Merged(Merged(r, a), b)
    decreases |a|
  {
    hide Put;
    if a == [] {
      assert a + b == b;
    } else {
      assert (a + b)[1..] == a[1..] + b;
      MergedSum(Put(r, a[0]), a[1..], b);
    }
  }

  lemma {:induction false} MergedHoldsLast(r: Record, results: seq<TaskResult>, id: string)
    ensures var after := Merged(r, results).byId;
            if LastResult(results, id).Some? then id in after && after[id] == LastResult(results, id).value
            else (id in after <==> id in r.byId) && (id in after ==> after[id] == r.byId[id])
    decreases |results|
  {
    if results != [] {
      var front, last := results[..|results| - 1], results[|results| - 1];
      assert results == front + [last];
      MergedSum(r, front, [last]);
      MergedHoldsLast(r, front, id);
      assert [last][1..] == [];
    }
  }

  lemma ReportedIds(r: Record)
    requires WellKept(r)
    ensures TaskIds(Values(r)) == r.order
    ensures forall t :: t in Values(r) ==> t.taskId in r.byId && t == r.byId[t.taskId]
  {
    assert forall i :: 0 <= i < |r.order| ==> r.byId[r.order[i]].taskId == r.order[i];
  }

  /** A completed plan reports its tasks in the order in which they first succeeded. */
  lemma CompletedReportIsInOrder(env: Env, lineages: seq<string>, graph: Graph)
    requires FailuresTraced(env, lineages) && Run(env, lineages, Start(graph), 0).Done?
    ensures TaskIds(Run(env, lineages, Start(graph), 0).results)
            == FirstOnly(SuccessOrder(AllResults(Outcomes(env, lineages, Start(graph), 0))))
  {
    hide FailuresTraced, Run, Outcomes, Values, WellKept, OnlySuccesses, Recorded;
    NothingIsKept();
    var results := AllResults(Outcomes(env, lineages, Start(graph), 0));
    CompletedRunIsOneRecord(env, lineages, Start(graph), 0);
    RecordedIsKept(NOTHING, results);
    RecordedOrder(NOTHING, results);
    ReportedIds(Recorded(NOTHING, results));
    assert NOTHING.order + SuccessOrder(results) == SuccessOrder(results);
  }

  /** What a plan given up on after failed recovery reports: the record of all rounds, with every result
      of the last round put over it. */
  lemma {:induction false} GivenUpRunIsMerged(env: Env, lineages: seq<string>, st: Loop, n: nat)
    requires FailuresTraced(env, lineages) && InLoop(env, st) && Run(env, lineages, st, n).GaveUp?
    requires var outcomes := Outcomes(env, lineages, st, n); outcomes[|outcomes| - 1].Failing?
    ensures var outcomes := Outcomes(env, lineages, st, n);
            var done := Merged(Recorded(st.done, AllResults(outcomes)), outcomes[|outcomes| - 1].results);
            && WellKept(Recorded(st.done, AllResults(outcomes))) && WellKept(done)
            && Run(env, lineages, st, n).results == Values(done)
    decreases Remaining(st.attempts, lineages, env.maxAttempts), |st.continuations|
  {
    hide FailuresTraced, InLoop, WellKept, OnlySuccesses, Values, RecoverAll, Merged, Remaining, Recorded, SuccessIds;
    LoopKeeps(env, st);
    var o := env.strategy(n, st.graph, st.ids);
    var outcomes := Outcomes(env, lineages, st, n);
    RecordedIsKept(st.done, ResultsOf(o));
    if Round(env, st, n).Goes? {
      var next := NextState(env, lineages, st, n);
      var rest := Outcomes(env, lineages, next, n + 1);
      Prepended(o, rest);
      assert outcomes[|outcomes| - 1] == rest[|rest| - 1];
      GivenUpRunIsMerged(env, lineages, next, n + 1);
      RecordedSum(st.done, ResultsOf(o), AllResults(rest));
    } else {
      Prepended(o, []);
      assert [o] + [] == [o] && AllResults([]) == [] && o.results + [] == o.results;
      MergedIsKept(Recorded(st.done, o.results), o.results);
    }
  }

  /** Such a plan reports each task with its last result in the last round, or else its last success, in
      the order in which they came first. */
  lemma GivenUpReportsLatest(env: Env, lineages: seq<string>, graph: Graph)
    requires FailuresTraced(env, lineages) && Run(env, lineages, Start(graph), 0).GaveUp?
    requires var outcomes := Outcomes(env, lineages, Start(graph), 0); outcomes[|outcomes| - 1].Failing?
    ensures var outcomes := Outcomes(env, lineages, Start(graph), 0);
            var report, last := Run(env, lineages, Start(graph), 0).results, outcomes[|outcomes| - 1].results;
            && TaskIds(report) == FirstOnly(SuccessOrder(AllResults(outcomes)) + TaskIds(last))
            && forall t :: t in report ==>
                 Some(t) == if LastResult(last, t.taskId).Some? then LastResult(last, t.taskId)
                            else LastSuccess(AllResults(outcomes), t.taskId)
  {
    hide FailuresTraced, Run, Outcomes, Values, WellKept, OnlySuccesses, Recorded, Merged;
    NothingIsKept();
    var outcomes := Outcomes(env, lineages, Start(graph), 0);
    var results, last := AllResults(outcomes), outcomes[|outcomes| - 1].results;
    GivenUpRunIsMerged(env, lineages, Start(graph), 0);
    var done := Recorded(NOTHING, results);
    var merged := Merged(done, last);
    RecordedOrder(NOTHING, results);
    assert NOTHING.order + SuccessOrder(results) == SuccessOrder(results);
    MergedOrder(done, last);
    FirstOnlyTwice(SuccessOrder(results), TaskIds(last));
    ReportedIds(merged);
    forall t | t in Values(merged)
      ensures Some(t) == if LastResult(last, t.taskId).Some? then LastResult(last, t.taskId)
                         else LastSuccess(results, t.taskId)
    {
      MergedHoldsLast(done, last, t.taskId);
      RecordHoldsLastSuccess(NOTHING, results, t.taskId);
    }
  }
}
