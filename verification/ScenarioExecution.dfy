/** Executing scenarios: hooks around the contexts and the items of a scenario. */
module ScenarioExecution {
  import opened Substitution
  import opened Protocol
  import opened ProtoItems
  import opened ItemExecution

  /** A scenario with everything resolved for one row of the data table. */
  datatype ScenarioPlan = ScenarioPlan(contexts: seq<ItemPlan>, items: seq<ItemPlan>) {
    /** The contexts come before the steps of the scenario. */
    function Leaves(): seq<Plan> {
      ItemLeaves(contexts, |contexts|) + ItemLeaves(items, |items|)
    }
  }

  class ScenarioResult {
    var contexts: seq<ProtoItem>
    var items: seq<ProtoItem>
    var failed: bool
    var executionTime: int
    var preHookFailed: bool
    var postHookFailed: bool

    constructor ()
      ensures contexts == [] && items == [] && executionTime == 0
      ensures !failed && !preHookFailed && !postHookFailed
    {
      contexts, items, failed, executionTime, preHookFailed, postHookFailed := [], [], false, 0, false, false;
    }

    method AddPreHook(result: ExecutionResult)
      modifies `preHookFailed, `failed
      ensures preHookFailed == (old(preHookFailed) || result.failed) && failed == (old(failed) || result.failed)
    {
      if result.failed {
        preHookFailed := true;
        failed := true;
      }
    }

    method AddPostHook(result: ExecutionResult)
      modifies `postHookFailed, `failed
      ensures postHookFailed == (old(postHookFailed) || result.failed) && failed == (old(failed) || result.failed)
    {
      if result.failed {
        postHookFailed := true;
        failed := true;
      }
    }

    method AddExecTime(time: int)
      modifies `executionTime
      ensures executionTime == old(executionTime) + time
    {
      executionTime := executionTime + time;
    }

    method UpdateExecutionTimeFromItems(items: seq<ProtoItem>, ghost times: seq<int>)
      requires |times| <= |items|
      requires forall i :: 0 <= i < |items| ==> ItemMillis(items[i]) == TimeAt(times, i)
      modifies `executionTime
      ensures executionTime == old(executionTime) + Sum(times)
    {
      hide Sum;
      NoLeaves(items);
      ghost var done := [];
      for i := 0 to |items|
        invariant done == if i < |times| then times[..i] else times
        invariant executionTime == old(executionTime) + Sum(done)
      {
        if i < |times| {
          SumPush(done, times[i]);
          assert times[..i + 1] == done + [times[i]];
          assert times[..|times|] == times;
          done := done + [times[i]];
        }
        if !items[i].OtherItem? {
          AddExecTime(items[i].slot.Millis());
        }
      }
    }
  }

  /** A hook message; its time counts for the scenario. */
  method ExecuteScenarioHook(executor: Executor, message: Message, scenario: ScenarioResult)
      returns (result: ExecutionResult, ghost event: Event)
    modifies executor.runner, scenario`executionTime
    ensures old(executor.runner.Truthful()) ==> executor.runner.Truthful()
    ensures event.message == message && executor.runner.sent == old(executor.runner.sent) + [event]
    ensures event == Event(message, StatusOf(executor.runner.behaviour(old(executor.runner.sent), message)))
    ensures fresh(result) && result.failed == event.answer.failed
    ensures scenario.executionTime == old(scenario.executionTime) + event.answer.Millis()
  {
    hide Runner.Truthful;
    result, event := executor.runner.ExecuteAndGetStatus(message);
    scenario.AddExecTime(result.Millis());
  }

  /** The contexts, and the items unless a context failed. */
  method ExecuteBody(executor: Executor, scenario: ScenarioResult)
      returns (ghost runs: seq<StepRun>, ghost contextTimes: seq<int>, ghost itemTimes: seq<int>)
    requires AllSeparate(scenario.contexts) && Unrun(AllSlots(scenario.contexts))
    requires AllSeparate(scenario.items) && Unrun(AllSlots(scenario.items))
    requires AllSlots(scenario.contexts) !! AllSlots(scenario.items) && !scenario.failed
    modifies executor, executor.runner, scenario`failed, AllSlots(scenario.contexts), AllSlots(scenario.items)
    ensures Attempt(AllLeaves(scenario.contexts, |scenario.contexts|) + AllLeaves(scenario.items, |scenario.items|),
                    runs, old(executor.info))
    ensures old(executor.runner.Truthful()) ==> executor.runner.Truthful()
    ensures executor.runner.sent == old(executor.runner.sent) + StepEvents(runs)
    ensures scenario.failed == LastFailed(runs)
    ensures executor.info.(stepFailed := false) == Marks(LastFailed(runs), old(executor.info))
    ensures |contextTimes| <= |scenario.contexts| && |itemTimes| <= |scenario.items|
    ensures Sum(contextTimes) + Sum(itemTimes) == StepTime(runs)
    ensures forall i :: 0 <= i < |scenario.contexts| ==> ItemMillis(scenario.contexts[i]) == TimeAt(contextTimes, i)
    ensures forall i :: 0 <= i < |scenario.items| ==> ItemMillis(scenario.items[i]) == TimeAt(itemTimes, i)
  {
    hide Runner.Truthful;
    hide Attempt, StepEvents, StepTime, LastFailed, AllSeparate, AllSlots, Sum, AllLeaves, Slots, Unrun;
    var contexts, items := scenario.contexts, scenario.items;
    SeparateItems(contexts);
    SeparateItems(items);
    UnrunItems(items, 0);
    assert allocated(AllSlots(contexts)) && allocated(AllSlots(items));
    var failure;
    failure, runs, contextTimes := executor.ExecuteItems(contexts);
    itemTimes := [];
    NoLeaves(items);
    if failure {
      scenario.failed := true;
      FailedAttemptExtends(AllLeaves(contexts, |contexts|), AllLeaves(items, |items|), runs, old(executor.info));
    }
    if !scenario.failed {
      assert forall i :: 0 <= i < |contexts| ==> allocated(Objects(contexts[i]));
      ghost var more, later := [], executor.info;
      failure, more, itemTimes := executor.ExecuteItems(items);
      AttemptsAppend(AllLeaves(contexts, |contexts|), AllLeaves(items, |items|), runs, more, old(executor.info), later);
      StepEventsAppend(runs, more);
      runs := runs + more;
      if failure {
        scenario.failed := true;
      }
    }
  }

  /** An attempt depends on the spec and scenario marks only. */
  lemma {:induction false} SameMarks(leaves: seq<Plan>, runs: seq<StepRun>, a: Info, b: Info)
    requires a.(stepFailed := false) == b.(stepFailed := false) && Attempt(leaves, runs, a)
    ensures Attempt(leaves, runs, b)
  {
    hide StepRun.Legal;
  }

  lemma {:induction false} ScenarioSent(sent: seq<Event>, run: ScenarioRun)
    ensures sent + run.Events() == sent + [run.init] + [run.starting] + StepEvents(run.steps) + [run.ending]
  {
    hide StepEvents;
  }

  /** A scenario result with fresh items for the contexts and the steps of the scenario. */
  method AddAllItems(plan: ScenarioPlan) returns (scenario: ScenarioResult)
    ensures fresh(scenario) && fresh(AllSlots(scenario.contexts)) && fresh(AllSlots(scenario.items))
    ensures scenario.executionTime == 0
    ensures !scenario.failed && !scenario.preHookFailed && !scenario.postHookFailed
    ensures AllSeparate(scenario.contexts) && Unrun(AllSlots(scenario.contexts))
    ensures AllSeparate(scenario.items) && Unrun(AllSlots(scenario.items))
    ensures AllSlots(scenario.contexts) !! AllSlots(scenario.items)
    ensures AllLeaves(scenario.contexts, |scenario.contexts|) + AllLeaves(scenario.items, |scenario.items|) ==
            plan.Leaves()
    ensures AllMirror(scenario.contexts, plan.contexts) && AllMirror(scenario.items, plan.items)
  {
    hide AllSeparate, AllSlots, AllLeaves, ItemLeaves, AllMirror;
    scenario := new ScenarioResult();
    scenario.contexts := NewItems(plan.contexts);
    assert allocated(AllSlots(scenario.contexts));
    scenario.items := NewItems(plan.items);
  }

  /** The start of a scenario: the data store and the before-scenario hook. */
  method StartScenario(executor: Executor, scenario: ScenarioResult)
      returns (passed: bool, ghost init: Event, ghost starting: Event)
    modifies executor, executor.runner, scenario`executionTime, scenario`preHookFailed, scenario`failed
    ensures init.message == ScenarioDataStoreInit
    ensures starting.message == ScenarioExecutionStarting(old(executor.info).(scenarioFailed := false))
    ensures old(executor.runner.Truthful()) ==> executor.runner.Truthful()
    ensures executor.runner.sent == old(executor.runner.sent) + [init] + [starting]
    ensures passed == !starting.answer.failed
    ensures scenario.executionTime == old(scenario.executionTime) + starting.answer.Millis()
    ensures scenario.preHookFailed == (old(scenario.preHookFailed) || !passed)
    ensures scenario.failed == (old(scenario.failed) || !passed)
    ensures executor.info.specFailed == (old(executor.info).specFailed || !passed)
    ensures executor.info.scenarioFailed == !passed
  {
    hide Runner.Truthful;
    executor.info := executor.info.(scenarioFailed := false);
    var before;
    before, init := executor.runner.ExecuteAndGetStatus(ScenarioDataStoreInit);
    before, starting := ExecuteScenarioHook(executor, ScenarioExecutionStarting(executor.info), scenario);
    passed := !before.failed;
    if before.failed {
      scenario.AddPreHook(before);
      executor.info := executor.info.(specFailed := true, scenarioFailed := true);
    }
  }

  /** The end of a scenario: the after-scenario hook and the times of the items. */
  method EndScenario(executor: Executor, scenario: ScenarioResult, ghost contextTimes: seq<int>,
      ghost itemTimes: seq<int>)
      returns (ghost ending: Event)
    requires |contextTimes| <= |scenario.contexts| && |itemTimes| <= |scenario.items|
    requires forall i :: 0 <= i < |scenario.contexts| ==> ItemMillis(scenario.contexts[i]) == TimeAt(contextTimes, i)
    requires forall i :: 0 <= i < |scenario.items| ==> ItemMillis(scenario.items[i]) == TimeAt(itemTimes, i)
    modifies executor.runner, scenario`executionTime, scenario`postHookFailed, scenario`failed
    ensures ending.message == ScenarioExecutionEnding(executor.info)
    ensures old(executor.runner.Truthful()) ==> executor.runner.Truthful()
    ensures executor.runner.sent == old(executor.runner.sent) + [ending]
    ensures scenario.executionTime ==
            old(scenario.executionTime) + ending.answer.Millis() + Sum(contextTimes) + Sum(itemTimes)
    ensures scenario.postHookFailed == (old(scenario.postHookFailed) || ending.answer.failed)
    ensures scenario.failed == (old(scenario.failed) || ending.answer.failed)
  {
    hide Runner.Truthful;
    hide Sum;
    var after;
    after, ending := ExecuteScenarioHook(executor, ScenarioExecutionEnding(executor.info), scenario);
    scenario.AddPostHook(after);
    scenario.UpdateExecutionTimeFromItems(scenario.contexts, contextTimes);
    scenario.UpdateExecutionTimeFromItems(scenario.items, itemTimes);
  }

  /** Executes one scenario between its hooks, whether or not they fail. */
  method ExecuteScenario(executor: Executor, plan: ScenarioPlan)
      returns (scenario: ScenarioResult, ghost run: ScenarioRun)
    modifies executor, executor.runner
    ensures fresh(scenario)
    ensures run.Legal(plan.Leaves(), old(executor.info).specFailed)
    ensures old(executor.runner.Truthful()) ==> executor.runner.Truthful()
    ensures executor.runner.sent == old(executor.runner.sent) + run.Events()
    ensures scenario.failed == run.Failed() && scenario.executionTime == run.Time()
    ensures scenario.preHookFailed == run.starting.answer.failed
    ensures scenario.postHookFailed == run.ending.answer.failed
    ensures AllMirror(scenario.contexts, plan.contexts) && AllMirror(scenario.items, plan.items)
    ensures executor.info.specFailed == (old(executor.info).specFailed || run.Broken())
  {
    hide Runner.Truthful;
    hide Attempt, StepEvents, StepTime, LastFailed, AllSeparate, AllSlots, Sum, AllLeaves, Slots, Unrun, ItemLeaves,
      ScenarioPlan.Leaves, ScenarioRun.Events, AllMirror;
    scenario := AddAllItems(plan);
    SeparateItems(scenario.contexts);
    SeparateItems(scenario.items);
    assert allocated(AllSlots(scenario.contexts)) && allocated(AllSlots(scenario.items));
    var passed;
    ghost var init, starting, ending;
    passed, init, starting := StartScenario(executor, scenario);
    ghost var runs, contextTimes, itemTimes := [], [], [];
    NothingAttempted(executor.info);
    NoLeaves(scenario.contexts);
    if passed {
      ghost var marks := executor.info;
      runs, contextTimes, itemTimes := ExecuteBody(executor, scenario);
      SameMarks(plan.Leaves(), runs, marks, Info(old(executor.info).specFailed, false, false));
    } else {
      UnrunItems(scenario.contexts, 0);
      UnrunItems(scenario.items, 0);
    }
    ending := EndScenario(executor, scenario, contextTimes, itemTimes);
    run := ScenarioRun(init, starting, runs, ending);
    ScenarioSent(old(executor.runner.sent), run);
  }
}
