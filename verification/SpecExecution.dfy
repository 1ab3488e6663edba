/** Executing a specification and a suite. */
module SpecExecution {
  import opened Text
  import opened Substitution
  import opened Protocol
  import opened ProtoItems
  import opened ItemExecution
  import opened ScenarioExecution
  import opened SpecResults

  /* ---------- the rows of the data table that are executed ---------- */

  /** The table rows flag: absent, not one or two numbers, or two numbers counted from one. */
  datatype RowsFlag = AllRows | Malformed | Rows(first: int, last: int)

  datatype IndexRange = IndexRange(start: int, end: int)

  /** None when the program stops with a validation error. */
  function DataTableRows(flag: RowsFlag, rowCount: nat): (range: Option<IndexRange>)
    ensures range.Some? && rowCount > 0 ==> 0 <= range.value.start <= range.value.end < rowCount
    ensures range.None? <==> flag.Malformed? || (flag.Rows? && !(1 <= flag.first <= flag.last <= rowCount))
  {
    match flag
    case AllRows => Some(IndexRange(0, rowCount - 1))
    case Malformed => None
    case Rows(first, last) =>
      if first > last || last > rowCount || first < 1 || last < 1 then None
      else Some(IndexRange(first - 1, last - 1))
  }

  /** The rows executed: all of them, or those from the first to the last number of the flag. */
  lemma {:induction false} SelectedRows(flag: RowsFlag, rowCount: nat, row: nat)
    requires DataTableRows(flag, rowCount).Some? && row < rowCount
    ensures var range := DataTableRows(flag, rowCount).value;
            range.start <= row <= range.end <==> (flag.Rows? ==> flag.first <= row + 1 <= flag.last)
  {
  }

  /** A specification with everything resolved: its scenarios when it has no data table rows,
      otherwise its scenarios for every row, and the rows to execute. */
  datatype SpecPlan = SpecPlan(plain: seq<ScenarioPlan>, rows: seq<seq<ScenarioPlan>>, range: IndexRange) {
    ghost predicate Valid() {
      rows != [] ==> 0 <= range.start <= range.end < |rows| && Grid(rows, |plain|)
    }

    /** The leaves of all scenarios in the order in which they are executed. */
    function Leaves(): seq<seq<Plan>>
      requires Valid()
    {
      if rows == [] then LeavesOf(plain) else RowLeaves(rows, range.start, range.end + 1)
    }
  }

  function LeavesOf(plans: seq<ScenarioPlan>): seq<seq<Plan>> {
    seq(|plans|, i requires 0 <= i < |plans| => plans[i].Leaves())
  }

  function RowLeaves(rows: seq<seq<ScenarioPlan>>, start: nat, end: nat): seq<seq<Plan>>
    requires start <= end <= |rows|
    decreases end
  {
    if start == end then [] else RowLeaves(rows, start, end - 1) + LeavesOf(rows[end - 1])
  }

  lemma {:induction false} BrokenIn(first: seq<ScenarioRun>, second: seq<ScenarioRun>, n: nat)
    requires n <= |first + second|
    ensures AnyBroken(first + second, n) <==>
            if n <= |first| then AnyBroken(first, n) else AnyBroken(first, |first|) || AnyBroken(second, n - |first|)
  {
    hide ScenarioRun.Broken;
    var runs := first + second;
    assert forall i :: 0 <= i < |first| ==> runs[i] == first[i];
    assert forall i :: 0 <= i < |second| ==> runs[|first| + i] == second[i];
    if n > |first| && AnyBroken(second, n - |first|) {
      var i :| 0 <= i < n - |first| && second[i].Broken();
      assert runs[|first| + i].Broken();
    }
  }

  lemma {:induction false} LegalAppend(
      a: seq<seq<Plan>>, b: seq<seq<Plan>>, first: seq<ScenarioRun>, second: seq<ScenarioRun>, specFailed: bool)
    requires LegalScenarios(a, first, specFailed)
    requires LegalScenarios(b, second, specFailed || AnyBroken(first, |first|))
    ensures LegalScenarios(a + b, first + second, specFailed)
    ensures AnyBroken(first + second, |first + second|) <==>
            AnyBroken(first, |first|) || AnyBroken(second, |second|)
  {
    hide ScenarioRun.Legal, AnyBroken;
    var runs := first + second;
    NoneBroken(second);
    forall i | 0 <= i < |runs|
      ensures runs[i].Legal((a + b)[i], specFailed || AnyBroken(runs, i))
    {
      BrokenIn(first, second, i);
      if i >= |first| {
        assert runs[i] == second[i - |first|] && (a + b)[i] == b[i - |first|];
      }
    }
    BrokenIn(first, second, |runs|);
  }

  lemma {:induction false} NoneBroken(runs: seq<ScenarioRun>)
    ensures !AnyBroken(runs, 0)
  {
  }

  lemma {:induction false} OneScenarioLegal(leaves: seq<Plan>, run: ScenarioRun, specFailed: bool)
    requires run.Legal(leaves, specFailed)
    ensures LegalScenarios([leaves], [run], specFailed)
    ensures AnyBroken([run], 1) <==> run.Broken()
    ensures ScenarioEvents([run]) == run.Events()
  {
    hide ScenarioRun.Legal, ScenarioRun.Broken, ScenarioRun.Events;
    assert [run][..0] == [];
    if run.Broken() {
      assert [run][0].Broken();
    }
  }

  lemma {:induction false} NothingLegal(specFailed: bool)
    ensures LegalScenarios([], [], specFailed)
  {
  }

  /** All scenarios, one after the other. */
  method ExecuteScenarios(executor: Executor, plans: seq<ScenarioPlan>)
      returns (results: seq<ScenarioResult>, ghost runs: seq<ScenarioRun>)
    modifies executor, executor.runner
    ensures fresh(results) && Shows(results, runs) && |runs| == |plans|
    ensures LegalScenarios(LeavesOf(plans), runs, old(executor.info).specFailed)
    ensures old(executor.runner.Truthful()) ==> executor.runner.Truthful()
    ensures executor.runner.sent == old(executor.runner.sent) + ScenarioEvents(runs)
    ensures executor.info.specFailed == (old(executor.info).specFailed || AnyBroken(runs, |runs|))
  {
    hide Runner.Truthful;
    hide LegalScenarios, AnyBroken, ScenarioEvents, ScenarioRun.Legal, ScenarioRun.Events, ScenarioRun.Failed,
      ScenarioRun.Time, ScenarioRun.Broken, ScenarioPlan.Leaves;
    results, runs := [], [];
    NothingLegal(executor.info.specFailed);
    NoneBroken(runs);
    NoScenarios();
    assert LeavesOf(plans)[..0] == [];
    for i := 0 to |plans|
      invariant fresh(results) && Shows(results, runs) && |runs| == i
      invariant LegalScenarios(LeavesOf(plans)[..i], runs, old(executor.info).specFailed)
      invariant old(executor.runner.Truthful()) ==> executor.runner.Truthful()
      invariant executor.runner.sent == old(executor.runner.sent) + ScenarioEvents(runs)
      invariant executor.info.specFailed == (old(executor.info).specFailed || AnyBroken(runs, |runs|))
    {
      ghost var specFailed := executor.info.specFailed;
      var result;
      ghost var run;
      result, run := ExecuteScenario(executor, plans[i]);
      OneScenarioLegal(plans[i].Leaves(), run, specFailed);
      LegalAppend(LeavesOf(plans)[..i], [plans[i].Leaves()], runs, [run], old(executor.info).specFailed);
      ScenarioTimeAppend(runs, [run]);
      assert LeavesOf(plans)[..i + 1] == LeavesOf(plans)[..i] + [plans[i].Leaves()];
      results, runs := results + [result], runs + [run];
    }
    assert LeavesOf(plans)[..|plans|] == LeavesOf(plans);
  }

  /** All scenarios for each row of the range. */
  method ExecuteRows(executor: Executor, plan: SpecPlan)
      returns (results: seq<seq<ScenarioResult>>, ghost runs: seq<seq<ScenarioRun>>)
    requires plan.Valid() && plan.rows != []
    modifies executor, executor.runner
    ensures Grid(runs, |plan.plain|) && |results| == |runs| == plan.range.end + 1 - plan.range.start
    ensures forall r :: 0 <= r < |results| ==> fresh(results[r]) && Shows(results[r], runs[r])
    ensures LegalScenarios(plan.Leaves(), InOrder(runs, |runs|), old(executor.info).specFailed)
    ensures old(executor.runner.Truthful()) ==> executor.runner.Truthful()
    ensures executor.runner.sent == old(executor.runner.sent) + ScenarioEvents(InOrder(runs, |runs|))
    ensures executor.info.specFailed ==
            (old(executor.info).specFailed || AnyBroken(InOrder(runs, |runs|), |InOrder(runs, |runs|)|))
  {
    hide Runner.Truthful;
    hide LegalScenarios, AnyBroken, ScenarioEvents, LeavesOf, Shows, RowLeaves, InOrder;
    results, runs := [], [];
    LeavesStart(plan.rows, plan.range.start);
    NothingLegal(executor.info.specFailed);
    NoneBroken([]);
    NoScenarios();
    var row := plan.range.start;
    while row <= plan.range.end
      invariant plan.range.start <= row <= plan.range.end + 1 && |results| == |runs| == row - plan.range.start
      invariant Grid(runs, |plan.plain|)
      invariant forall r :: 0 <= r < |results| ==> fresh(results[r]) && Shows(results[r], runs[r])
      invariant LegalScenarios(RowLeaves(plan.rows, plan.range.start, row), InOrder(runs, |runs|),
                old(executor.info).specFailed)
      invariant old(executor.runner.Truthful()) ==> executor.runner.Truthful()
      invariant executor.runner.sent == old(executor.runner.sent) + ScenarioEvents(InOrder(runs, |runs|))
      invariant executor.info.specFailed ==
                (old(executor.info).specFailed || AnyBroken(InOrder(runs, |runs|), |InOrder(runs, |runs|)|))
    {
      var rowResults;
      ghost var rowRuns;
      rowResults, rowRuns := ExecuteScenarios(executor, plan.rows[row]);
      LegalAppend(RowLeaves(plan.rows, plan.range.start, row), LeavesOf(plan.rows[row]), InOrder(runs, |runs|), rowRuns,
                  old(executor.info).specFailed);
      ScenarioTimeAppend(InOrder(runs, |runs|), rowRuns);
      RowAdded(runs, rowRuns, |runs|);
      LeavesGrow(plan.rows, plan.range.start, row);
      results, runs := results + [rowResults], runs + [rowRuns];
      row := row + 1;
    }
  }

  lemma {:induction false} LeavesStart(rows: seq<seq<ScenarioPlan>>, start: nat)
    requires start <= |rows|
    ensures InOrder([], 0) == [] && RowLeaves(rows, start, start) == []
  {
  }

  lemma {:induction false} LeavesGrow(rows: seq<seq<ScenarioPlan>>, start: nat, row: nat)
    requires start <= row < |rows|
    ensures RowLeaves(rows, start, row + 1) == RowLeaves(rows, start, row) + LeavesOf(rows[row])
  {
  }

  lemma {:induction false} RowAdded(runs: seq<seq<ScenarioRun>>, row: seq<ScenarioRun>, n: nat)
    requires n <= |runs|
    ensures InOrder(runs + [row], n) == InOrder(runs, n)
    ensures n == |runs| ==> InOrder(runs + [row], n + 1) == InOrder(runs, n) + row
  {
    if n > 0 {
      RowAdded(runs, row, n - 1);
    }
  }

  /* ---------- a specification ---------- */

  /** A hook message; its time counts for the specification. */
  method ExecuteSpecHook(executor: Executor, message: Message, result: SpecResult)
      returns (answer: ExecutionResult, ghost event: Event)
    modifies executor.runner, result`executionTime
    ensures event == Event(message, StatusOf(executor.runner.behaviour(old(executor.runner.sent), message)))
    ensures old(executor.runner.Truthful()) ==> executor.runner.Truthful()
    ensures executor.runner.sent == old(executor.runner.sent) + [event]
    ensures fresh(answer) && answer.failed == event.answer.failed
    ensures result.executionTime == old(result.executionTime) + event.answer.Millis()
  {
    hide Runner.Truthful;
    answer, event := executor.runner.ExecuteAndGetStatus(message);
    result.AddExecTime(answer.Millis());
  }

  /** The results of the scenarios for every row of the range. */
  method ExecuteTableDrivenScenarios(executor: Executor, plan: SpecPlan, result: SpecResult)
      returns (ghost rows: seq<seq<ScenarioRun>>)
    requires plan.Valid() && plan.rows != []
    requires result.scenarioCount == result.scenarioFailedCount == 0 && result.items == []
    modifies executor, executor.runner
    modifies result`executionTime, result`failedDataTableRows, result`scenarioFailedCount, result`isFailed,
      result`items, result`scenarioCount
    ensures Grid(rows, |plan.plain|) && |rows| == plan.range.end + 1 - plan.range.start
    ensures old(executor.runner.Truthful()) ==> executor.runner.Truthful()
    ensures var runs := InOrder(rows, |rows|);
            && LegalScenarios(plan.Leaves(), runs, old(executor.info).specFailed)
            && executor.runner.sent == old(executor.runner.sent) + ScenarioEvents(runs)
            && executor.info.specFailed == (old(executor.info).specFailed || AnyBroken(runs, |runs|))
            && result.isFailed == (old(result.isFailed) || SomeFailed(runs))
            && result.executionTime == old(result.executionTime) + ScenarioTime(runs)
    ensures result.scenarioCount == |plan.plain|
    ensures result.scenarioFailedCount == CountFailing(rows, |plan.plain|, |plan.plain|)
    ensures result.failedDataTableRows ==
            old(result.failedDataTableRows) + AllFailedRows(rows, |plan.plain|, |plan.plain|)
    ensures Presents(result.items, rows, |plan.plain|)
  {
    hide Runner.Truthful;
    hide LegalScenarios, AnyBroken, ScenarioEvents, LeavesOf, ScenarioTime, Shows, SomeFailed, CountFailing,
      InOrder, Presents, AllFailedRows;
    var results := [];
    results, rows := ExecuteRows(executor, plan);
    result.AddTableDrivenScenarioResult(results, rows, |plan.plain|);
    GroupsPresent(results, rows, |plan.plain|);
    assert result.items == Groups(results, |plan.plain|, |plan.plain|);
  }

  /** The scenarios, once or for every row; `rows` are the runs by row. */
  method ExecuteSpecBody(executor: Executor, plan: SpecPlan, result: SpecResult)
      returns (ghost runs: seq<ScenarioRun>, ghost rows: seq<seq<ScenarioRun>>)
    requires plan.Valid() && result.scenarioCount == result.scenarioFailedCount == 0 && result.items == []
    modifies executor, executor.runner
    modifies result`executionTime, result`failedDataTableRows, result`scenarioFailedCount, result`isFailed,
      result`items, result`scenarioCount
    ensures LegalScenarios(plan.Leaves(), runs, old(executor.info).specFailed)
    ensures old(executor.runner.Truthful()) ==> executor.runner.Truthful()
    ensures executor.runner.sent == old(executor.runner.sent) + ScenarioEvents(runs)
    ensures executor.info.specFailed == (old(executor.info).specFailed || AnyBroken(runs, |runs|))
    ensures result.isFailed == (old(result.isFailed) || SomeFailed(runs))
    ensures result.executionTime == old(result.executionTime) + ScenarioTime(runs)
    ensures result.scenarioCount == |plan.plain|
    ensures |rows| == (if plan.rows == [] then 1 else plan.range.end + 1 - plan.range.start)
    ensures Grid(rows, |plan.plain|) && runs == InOrder(rows, |rows|)
    ensures result.scenarioFailedCount == CountFailing(rows, |plan.plain|, |plan.plain|)
    ensures result.failedDataTableRows ==
            old(result.failedDataTableRows) +
            if plan.rows == [] then [] else AllFailedRows(rows, |plan.plain|, |plan.plain|)
    ensures Presents(result.items, rows, |plan.plain|)
  {
    hide Runner.Truthful;
    hide LegalScenarios, AnyBroken, ScenarioEvents, LeavesOf, ScenarioTime, Shows, SomeFailed, CountFailed,
      CountFailing, InOrder, Presents, AllFailedRows;
    if plan.rows == [] {
      var results := [];
      results, runs := ExecuteScenarios(executor, plan.plain);
      ShowsAll(results, runs);
      result.AddScenarioResults(results, runs);
      rows := [runs];
      OneRowCount(runs, |runs|);
      PlainPresents(results, runs);
      assert result.items == seq(|results|, i requires 0 <= i < |results| => OneScenario(results[i]));
      assert runs[..|runs|] == runs;
    } else {
      rows := ExecuteTableDrivenScenarios(executor, plan, result);
      runs := InOrder(rows, |rows|);
    }
  }

  /** Scenarios fail in some row exactly when one of all runs failed. */
  lemma {:induction false} FailingIffSomeFailed(rows: seq<seq<ScenarioRun>>, width: nat)
    requires Grid(rows, width)
    ensures CountFailing(rows, width, width) <= width
    ensures CountFailing(rows, width, width) > 0 <==> SomeFailed(InOrder(rows, |rows|))
  {
    hide Fails, SomeFailed, InOrder;
    TransposeFailures(rows, width, |rows|);
  }

  lemma {:induction false} ShowsAll(results: seq<ScenarioResult>, runs: seq<ScenarioRun>)
    requires Shows(results, runs)
    ensures |results| == |runs|
  {
  }

  lemma {:induction false} SpecSent(sent: seq<Event>, run: SpecRun)
    ensures sent + run.Events() == sent + [run.init] + [run.starting] + ScenarioEvents(run.scenarios) + [run.ending]
  {
    hide ScenarioEvents;
  }

  lemma {:induction false} NoScenarioRuns()
    ensures !SomeFailed([]) && !AnyBroken([], 0)
  {
  }

  /** The start of a specification: the data store and the before-spec hook. */
  method StartSpec(executor: Executor, result: SpecResult)
      returns (passed: bool, ghost init: Event, ghost starting: Event)
    modifies executor, executor.runner, result`executionTime, result`preHookFailed, result`isFailed
    ensures init.message == SpecDataStoreInit
    ensures starting.message == SpecExecutionStarting(old(executor.info))
    ensures old(executor.runner.Truthful()) ==> executor.runner.Truthful()
    ensures executor.runner.sent == old(executor.runner.sent) + [init] + [starting]
    ensures passed == !starting.answer.failed
    ensures executor.info == (if passed then old(executor.info) else old(executor.info).(specFailed := true))
    ensures result.executionTime == old(result.executionTime) + starting.answer.Millis()
    ensures result.preHookFailed == (old(result.preHookFailed) || !passed)
    ensures result.isFailed == (old(result.isFailed) || !passed)
  {
    hide Runner.Truthful;
    var answer;
    answer, init := executor.runner.ExecuteAndGetStatus(SpecDataStoreInit);
    answer, starting := ExecuteSpecHook(executor, SpecExecutionStarting(executor.info), result);
    passed := !answer.failed;
    if answer.failed {
      result.AddPreHook(answer);
      executor.info := executor.info.(specFailed := true);
    }
  }

  /** The end of a specification: the after-spec hook. */
  method EndSpec(executor: Executor, result: SpecResult) returns (ghost ending: Event)
    modifies executor, executor.runner, result`executionTime, result`postHookFailed, result`isFailed
    ensures ending.message == SpecExecutionEnding(old(executor.info))
    ensures old(executor.runner.Truthful()) ==> executor.runner.Truthful()
    ensures executor.runner.sent == old(executor.runner.sent) + [ending]
    ensures result.executionTime == old(result.executionTime) + ending.answer.Millis()
    ensures result.postHookFailed == (old(result.postHookFailed) || ending.answer.failed)
    ensures result.isFailed == (old(result.isFailed) || ending.answer.failed)
  {
    hide Runner.Truthful;
    var answer;
    answer, ending := ExecuteSpecHook(executor, SpecExecutionEnding(executor.info), result);
    if answer.failed {
      result.AddPostHook(answer);
      executor.info := executor.info.(specFailed := true);
    }
  }

  /** A result that shows a run: it failed, and took the time, that the answers to the messages
      say, and it presents the scenarios that were executed. `rows` are their runs row by row. */
  ghost predicate ShowsSpec(result: SpecResult, plan: SpecPlan, run: SpecRun, rows: seq<seq<ScenarioRun>>)
    reads result, Shown(result.items)
  {
    && result.isFailed == run.Failed() == AnyFailed(run.Events())
    && result.executionTime == TotalTime(run.Events())
    && result.preHookFailed == run.starting.answer.failed && result.postHookFailed == run.ending.answer.failed
    && result.scenarioCount == (if run.starting.answer.failed then 0 else |plan.plain|)
    && result.scenarioFailedCount <= result.scenarioCount
    && (result.scenarioFailedCount > 0 <==> SomeFailed(run.scenarios))
    && if run.starting.answer.failed then result.items == []
       else
         && Grid(rows, |plan.plain|) && run.scenarios == InOrder(rows, |rows|)
         && result.scenarioFailedCount == CountFailing(rows, |plan.plain|, |plan.plain|)
         && result.failedDataTableRows ==
            (if plan.rows == [] then [] else AllFailedRows(rows, |plan.plain|, |plan.plain|))
         && Presents(result.items, rows, |plan.plain|)
  }

  /** Executes a specification. It failed, and took the time, that the answers to its messages say. */
  method Execute(runner: Runner, plan: SpecPlan)
      returns (result: SpecResult, ghost run: SpecRun, ghost rows: seq<seq<ScenarioRun>>)
    requires plan.Valid()
    modifies runner
    ensures fresh(result) && run.Legal(plan.Leaves())
    ensures old(runner.Truthful()) ==> runner.Truthful()
    ensures runner.sent == old(runner.sent) + run.Events()
    ensures ShowsSpec(result, plan, run, rows)
  {
    hide Runner.Truthful;
    hide LegalScenarios, AnyBroken, ScenarioEvents, ScenarioTime, SpecRun.Events, SpecPlan.Leaves, TotalTime,
      AnyFailed, Presents, CountFailing, InOrder, Shown, AllFailedRows;
    var executor := new Executor(runner);
    result := new SpecResult();
    NoScenarios();
    NoScenarioRuns();
    ghost var init, starting, ending;
    ghost var runs := [];
    rows := [];
    var passed;
    passed, init, starting := StartSpec(executor, result);
    if passed {
      runs, rows := ExecuteSpecBody(executor, plan, result);
      FailingIffSomeFailed(rows, |plan.plain|);
      assert allocated(Shown(result.items));
    }
    ending := EndSpec(executor, result);
    run := SpecRun(init, starting, runs, ending);
    SpecSent(old(runner.sent), run);
    SpecTotals(run, plan.Leaves());
  }
}
