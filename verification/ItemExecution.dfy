/** Executing steps and concepts. Each step stores its result object; an enclosing concept of
    a failed step stores and overwrites that same object. */
module ItemExecution {
  import opened Text
  import opened Substitution
  import opened Protocol
  import opened ProtoItems

  /** The runner: any behaviour that depends on the messages so far. */
  class Runner {
    const behaviour: (seq<Event>, Message) -> Response
    var sent: seq<Event>

    constructor (behaviour: (seq<Event>, Message) -> Response)
      ensures sent == [] && this.behaviour == behaviour
    {
      this.behaviour := behaviour;
      sent := [];
    }

    /** Every event recorded has the answer that the runner gave after the events before it. */
    ghost predicate Truthful()
      reads `sent
    {
      forall i :: 0 <= i < |sent| ==> sent[i].answer == StatusOf(behaviour(sent[..i], sent[i].message))
    }

    method ExecuteAndGetStatus(message: Message) returns (result: ExecutionResult, ghost event: Event)
      modifies this
      ensures old(Truthful()) ==> Truthful()
      ensures event == Event(message, StatusOf(behaviour(old(sent), message)))
      ensures event.answer.failed <==> var r := behaviour(old(sent), message); r.Status? ==> r.failed
      ensures event.answer.time == var r := behaviour(old(sent), message); if r.Status? then r.time else None
      ensures sent == old(sent) + [event]
      ensures fresh(result) && result.failed == event.answer.failed && result.executionTime == event.answer.time
    {
      var response := behaviour(sent, message);
      var failed, time := true, None;
      if response.Status? {
        failed, time := response.failed, response.time;
      }
      result := new ExecutionResult(failed, time);
      event := Event(message, Answer(failed, time));
      ghost var before := sent;
      sent := sent + [Event(message, Answer(failed, time))];
      assert forall i :: 0 <= i < |before| ==> sent[i] == before[i] && sent[..i] == before[..i];
      assert sent[..|before|] == before;
    }
  }

  /* ---------- attempts compose ---------- */

  lemma {:induction false} StepEventsAppend(a: seq<StepRun>, b: seq<StepRun>)
    ensures StepEvents(a + b) == StepEvents(a) + StepEvents(b)
    ensures StepTime(a + b) == StepTime(a) + StepTime(b)
  {
    if b == [] {
      assert a + b == a;
    } else {
      var n := |b| - 1;
      assert (a + b)[..|a + b| - 1] == a + b[..n];
      StepEventsAppend(a, b[..n]);
    }
  }

  /** A failed attempt is one of any longer list of steps. */
  lemma {:induction false} FailedAttemptExtends(a: seq<Plan>, b: seq<Plan>, runs: seq<StepRun>, info: Info)
    requires Attempt(a, runs, info) && LastFailed(runs)
    ensures Attempt(a + b, runs, info)
  {
    hide StepRun.Legal, StepRun.Failed;
  }

  lemma {:induction false} AttemptsAppend(
      a: seq<Plan>, b: seq<Plan>, first: seq<StepRun>, second: seq<StepRun>, info: Info, later: Info)
    requires Attempt(a, first, info) && !LastFailed(first) && Attempt(b, second, later)
    requires later.(stepFailed := false) == info.(stepFailed := false)
    ensures Attempt(a + b, first + second, info)
    ensures LastFailed(first + second) <==> LastFailed(second)
  {
    hide StepRun.Legal, StepRun.Failed;
    var runs := first + second;
    forall i | 0 <= i < |runs|
      ensures runs[i].Legal((a + b)[i], info.(stepFailed := false)) && (i < |runs| - 1 ==> !runs[i].Failed())
    {
      if i >= |first| {
        assert runs[i] == second[i - |first|] && (a + b)[i] == b[i - |first|];
      }
    }
  }

  lemma {:induction false} NothingAttempted(info: Info)
    ensures Attempt([], [], info) && !LastFailed([]) && StepEvents([]) == [] && StepTime([]) == 0
  {
  }

  /** Going on to the next item after items without a failure. */
  lemma {:induction false} Onwards(
      items: seq<ProtoItem>, j: nat, runs: seq<StepRun>, more: seq<StepRun>, info: Info, later: Info)
    requires j < |items|
    requires Attempt(AllLeaves(items, j), runs, info) && !LastFailed(runs)
    requires Attempt(Leaves(items[j]), more, later) && later.(stepFailed := false) == info.(stepFailed := false)
    ensures Attempt(AllLeaves(items, j + 1), runs + more, info)
    ensures LastFailed(runs + more) <==> LastFailed(more)
    ensures LastFailed(more) ==> Attempt(AllLeaves(items, |items|), runs + more, info)
    ensures StepEvents(runs + more) == StepEvents(runs) + StepEvents(more)
    ensures StepTime(runs + more) == StepTime(runs) + StepTime(more)
  {
    hide Attempt, LastFailed, StepEvents, StepTime, Leaves;
    AttemptsAppend(AllLeaves(items, j), Leaves(items[j]), runs, more, info, later);
    StepEventsAppend(runs, more);
    if LastFailed(more) {
      LeavesSplit(items, j + 1);
      var done, all := AllLeaves(items, j + 1), AllLeaves(items, |items|);
      assert all == done + all[|done|..];
      FailedAttemptExtends(done, all[|done|..], runs + more, info);
    }
  }

  /** The spec and scenario marks after some steps. */
  function Marks(failure: bool, info: Info): Info {
    Info(info.specFailed || failure, info.scenarioFailed || failure, false)
  }

  lemma {:induction false} OneStep(leaf: Plan, run: StepRun, info: Info)
    requires run.Legal(leaf, info)
    ensures Attempt([leaf], [run], info) && (LastFailed([run]) <==> run.Failed())
    ensures StepEvents([run]) == run.Events() && StepTime([run]) == run.Time()
  {
    assert [run][..0] == [];
    assert StepEvents([run]) == StepEvents([run][..0]) + run.Events();
  }

  lemma {:induction false} StepSent(sent: seq<Event>, run: StepRun)
    ensures sent + run.Events() ==
            (if run.execution.Some? then sent + [run.starting] + [run.execution.value] + [run.ending]
             else sent + [run.starting] + [run.ending])
  {
  }

  class Executor {
    const runner: Runner
    var info: Info

    constructor (runner: Runner)
      ensures this.runner == runner && info == Info(false, false, false)
    {
      this.runner := runner;
      info := Info(false, false, false);
    }

    method SetStepFailure()
      modifies this
      ensures info == Info(true, true, true)
    {
      info := Info(true, true, true);
    }

    method AddExecutionTimes(result: ExecutionResult, before: ExecutionResult, after: ExecutionResult)
      requires before != result && after != result
      modifies result`executionTime
      ensures result.executionTime == Some(old(result.Millis()) + before.Millis() + after.Millis())
    {
      if result.executionTime == None {
        result.executionTime := Some(before.Millis());
      } else {
        result.executionTime := Some(result.executionTime.value + before.Millis());
      }
      result.executionTime := Some(result.executionTime.value + after.Millis());
    }

    /** The before-step hook and, when it passes, the step itself. */
    method StartStep(item: ProtoItem)
      returns (before: ExecutionResult, result: ExecutionResult, ghost starting: Event, ghost execution: Option<Event>)
      requires item.StepItem?
      modifies this, runner
      ensures starting.message == StepExecutionStarting(old(info).(stepFailed := false))
      ensures execution.None? <==> starting.answer.failed
      ensures execution.Some? ==> execution.value.message == Message.ExecuteStep(item.value, item.parameters)
      ensures old(runner.Truthful()) ==> runner.Truthful()
      ensures runner.sent ==
              if execution.Some? then old(runner.sent) + [starting] + [execution.value]
                else old(runner.sent) + [starting]
      ensures fresh(before) && fresh(result) && before != result
      ensures before.failed == starting.answer.failed && before.Millis() == starting.answer.Millis()
      ensures result.failed == (execution.Some? ==> execution.value.answer.failed)
      ensures result.Millis() == if execution.Some? then execution.value.answer.Millis() else 0
      ensures info == (if result.failed then Info(true, true, true) else old(info).(stepFailed := false))
    {
      hide Runner.Truthful;
      info := info.(stepFailed := false);
      before, starting := runner.ExecuteAndGetStatus(StepExecutionStarting(info));
      execution := None;
      if before.failed {
        result := new ExecutionResult(true, None);
        SetStepFailure();
      } else {
        ghost var sent;
        result, sent := runner.ExecuteAndGetStatus(Message.ExecuteStep(item.value, item.parameters));
        execution := Some(sent);
        if result.failed {
          SetStepFailure();
        }
      }
    }

    /** One step between its two hooks. */
    method ExecuteStep(item: ProtoItem) returns (failure: bool, ghost run: StepRun)
      requires item.StepItem?
      modifies this, runner, item.slot
      ensures run.Legal(Leaf(item.value, item.parameters), old(info))
      ensures old(runner.Truthful()) ==> runner.Truthful()
      ensures runner.sent == old(runner.sent) + run.Events()
      ensures failure == run.Failed()
      ensures info == (if failure then Info(true, true, true) else old(info).(stepFailed := false))
      ensures item.slot.stored.Some? && fresh(item.slot.stored.value.executionResult)
      ensures item.slot.Failed() == failure && item.slot.Millis() == run.Time()
      ensures item.slot.stored.value.preHookFailed == run.starting.answer.failed
      ensures item.slot.stored.value.postHookFailed == run.ending.answer.failed
    {
      hide Runner.Truthful;
      hide StepRun.Events;
      var before, result, starting, execution := StartStep(item);
      var after, ending := runner.ExecuteAndGetStatus(StepExecutionEnding(info));
      AddExecutionTimes(result, before, after);
      if after.failed {
        SetStepFailure();
        result.failed := true;
      }
      item.slot.stored := Some(StepExecutionResult(result, before.failed, after.failed));
      run := StepRun(starting, execution, ending);
      StepSent(old(runner.sent), run);
      failure := result.failed;
    }

    /** Sums the times of the steps in a concept. The result object of a failed step becomes
        the result of the concept and takes the sum as its time. */
    method SetExecutionResultForConcept(item: ProtoItem, ghost times: seq<int>)
      requires item.ConceptItem? && 0 < |times| <= |item.steps|
      requires forall i :: 0 <= i < |times| - 1 ==> Passed(item.steps[i], times[i])
      requires ItemMillis(item.steps[|times| - 1]) == times[|times| - 1]
      requires forall i :: |times| <= i < |item.steps| ==> Unrun(Slots(item.steps[i]))
      modifies item.slot, item.conceptStep
      modifies Objects(item.steps[|times| - 1])`executionTime
      ensures item.slot.stored.Some? && item.conceptStep.stored == item.slot.stored
      ensures item.slot.Failed() == old(ItemFailed(item.steps[|times| - 1]))
      ensures item.slot.Millis() == Sum(times)
      ensures item.slot.Failed() ==> item.slot.Objects() == old(Objects(item.steps[|times| - 1]))
      ensures !item.slot.Failed() ==> fresh(item.slot.Objects()) && unchanged(old(Objects(item.steps[|times| - 1])))
    {
      hide Sum, Slots, Unrun, Separate;
      NoLeaves(item.steps);
      UnrunItems(item.steps, |times|);
      var total := 0;
      assert times[..|times|] == times;
      for i := 0 to |item.steps|
        invariant total == if i < |times| then Sum(times[..i]) else Sum(times)
        invariant forall k :: 0 <= k < i ==> !ItemFailed(item.steps[k])
        invariant unchanged(item.slot) && unchanged(item.conceptStep) && unchanged(Objects(item.steps[|times| - 1]))
      {
        if i < |times| {
          assert times[..i + 1] == times[..i] + [times[i]];
          SumPush(times[..i], times[i]);
          assert times[..|times|] == times;
        }
        var step := item.steps[i];
        if !step.OtherItem? {
          total := total + step.slot.Millis();
          if step.slot.Failed() {
            var result := step.slot.stored.value.executionResult;
            result.executionTime := Some(total);
            item.slot.stored := Some(StepExecutionResult(result, false, false));
            item.conceptStep.stored := item.slot.stored;
            return;
          }
        }
      }
      var result := new ExecutionResult(false, Some(total));
      item.slot.stored := Some(StepExecutionResult(result, false, false));
      item.conceptStep.stored := item.slot.stored;
    }

    /** Executes an item: the steps attempted are the shortest prefix of its leaves that ends in
        a failure, and what is stored has the failure and the whole time of that prefix. */
    method ExecuteItem(item: ProtoItem) returns (failure: bool, ghost runs: seq<StepRun>)
      requires Separate(item) && Unrun(Slots(item))
      modifies this, runner, Slots(item)
      ensures Attempt(Leaves(item), runs, old(info))
      ensures old(runner.Truthful()) ==> runner.Truthful()
      ensures runner.sent == old(runner.sent) + StepEvents(runs)
      ensures failure == LastFailed(runs)
      ensures info.(stepFailed := false) == Marks(failure, old(info))
      ensures ItemFailed(item) == failure && ItemMillis(item) == StepTime(runs)
      ensures fresh(Objects(item)) && (!failure ==> Passed(item, StepTime(runs)))
      decreases item, 1
    {
      hide Runner.Truthful;
      match item
      case ConceptItem(_, _, _, _, _) =>
        failure, runs := ExecuteConcept(item);
      case StepItem(value, parameters, _) =>
        ghost var run;
        failure, run := ExecuteStep(item);
        runs := [run];
        OneStep(Leaf(value, parameters), run, old(info));
      case OtherItem =>
        failure, runs := false, [];
        NothingAttempted(info);
    }

    /** One item of a concept, after which the result of the concept is set. */
    method ExecutePart(item: ProtoItem, j: nat, ghost times: seq<int>)
      returns (failure: bool, ghost runs: seq<StepRun>)
      requires item.ConceptItem? && Separate(item) && |times| == j < |item.steps|
      requires forall i :: 0 <= i < j ==> Passed(item.steps[i], times[i])
      requires forall i :: j <= i < |item.steps| ==> Unrun(Slots(item.steps[i]))
      modifies this, runner, item.slot, item.conceptStep, Slots(item.steps[j])
      ensures Attempt(Leaves(item.steps[j]), runs, old(info))
      ensures old(runner.Truthful()) ==> runner.Truthful()
      ensures runner.sent == old(runner.sent) + StepEvents(runs)
      ensures failure == LastFailed(runs)
      ensures info.(stepFailed := false) == Marks(failure, old(info))
      ensures item.slot.Failed() == failure && item.slot.Millis() == Sum(times) + StepTime(runs)
      ensures item.conceptStep.stored == item.slot.stored
      ensures fresh(item.slot.Objects())
      ensures !failure ==> Passed(item.steps[j], StepTime(runs)) && fresh(Objects(item.steps[j]))
      decreases item, 0, j
    {
      hide Runner.Truthful;
      hide Attempt, StepEvents, StepTime, LastFailed, Separate, AllSeparate, AllSlots, Sum, AllLeaves, Slots,
        Passed, ItemMillis, ItemFailed, Unrun;
      SeparateParts(item);
      var steps := item.steps;
      assert forall i :: 0 <= i < |steps| ==> allocated(Slots(steps[i]));
      assert forall i :: 0 <= i < j ==> allocated(Objects(steps[i]));
      failure, runs := ExecuteItem(steps[j]);
      SumPush(times, StepTime(runs));
      SetExecutionResultForConcept(item, times + [StepTime(runs)]);
    }

    method ExecuteConcept(item: ProtoItem) returns (failure: bool, ghost runs: seq<StepRun>)
      requires item.ConceptItem? && Separate(item) && Unrun(Slots(item))
      modifies this, runner, Slots(item)
      ensures Attempt(Leaves(item), runs, old(info))
      ensures old(runner.Truthful()) ==> runner.Truthful()
      ensures runner.sent == old(runner.sent) + StepEvents(runs)
      ensures failure == LastFailed(runs)
      ensures info.(stepFailed := false) == Marks(failure, old(info))
      ensures item.slot.Failed() == failure && item.slot.Millis() == StepTime(runs)
      ensures item.conceptStep.stored == item.slot.stored
      ensures fresh(item.slot.Objects())
      decreases item, 0, |item.steps|
    {
      hide Runner.Truthful;
      hide Attempt, StepEvents, StepTime, LastFailed, Separate, AllSeparate, AllSlots, Sum, AllLeaves, Slots,
        Passed, ItemMillis, ItemFailed, Unrun;
      SeparateParts(item);
      UnrunParts(item);
      runs := [];
      ghost var times := [];
      NothingAttempted(info);
      NoLeaves(item.steps);
      var steps := item.steps;
      for j := 0 to |steps|
        invariant |times| == j
        invariant Attempt(AllLeaves(steps, j), runs, old(info)) && !LastFailed(runs)
        invariant old(runner.Truthful()) ==> runner.Truthful()
        invariant runner.sent == old(runner.sent) + StepEvents(runs)
        invariant info.(stepFailed := false) == old(info).(stepFailed := false)
        invariant forall i :: 0 <= i < j ==> Passed(steps[i], times[i]) && fresh(Objects(steps[i]))
        invariant forall i :: j <= i < |steps| ==> Unrun(Slots(steps[i]))
        invariant Sum(times) == StepTime(runs)
        invariant item.slot.Millis() == StepTime(runs) && !item.slot.Failed()
        invariant item.conceptStep.stored == item.slot.stored && fresh(item.slot.Objects())
      {
        ghost var more, before, later := [], times, info;
        assert forall i :: j <= i < |steps| ==> allocated(Slots(steps[i]));
        failure, more := ExecutePart(item, j, times);
        times := before + [StepTime(more)];
        SumPush(before, StepTime(more));
        Onwards(steps, j, runs, more, old(info), later);
        runs := runs + more;
        if failure {
          return;
        }
      }
      failure := item.slot.Failed();
    }

    /** Executes items in order until one fails. `times` are the times of the items executed. */
    method ExecuteItems(items: seq<ProtoItem>) returns (failure: bool, ghost runs: seq<StepRun>, ghost times: seq<int>)
      requires AllSeparate(items) && Unrun(AllSlots(items))
      modifies this, runner, AllSlots(items)
      ensures Attempt(AllLeaves(items, |items|), runs, old(info))
      ensures old(runner.Truthful()) ==> runner.Truthful()
      ensures runner.sent == old(runner.sent) + StepEvents(runs)
      ensures failure == LastFailed(runs)
      ensures info.(stepFailed := false) == Marks(failure, old(info))
      ensures |times| <= |items| && Sum(times) == StepTime(runs)
      ensures forall i :: 0 <= i < |items| ==> ItemMillis(items[i]) == TimeAt(times, i)
    {
      hide Runner.Truthful;
      hide Attempt, StepEvents, StepTime, LastFailed, Separate, AllSeparate, AllSlots, Sum, AllLeaves, Slots,
        Passed, ItemMillis, ItemFailed, Unrun;
      SeparateItems(items);
      NothingAttempted(info);
      NoLeaves(items);
      failure, runs, times := false, [], [];
      for j := 0 to |items|
        invariant |times| == j && !failure
        invariant Attempt(AllLeaves(items, j), runs, old(info)) && !LastFailed(runs)
        invariant old(runner.Truthful()) ==> runner.Truthful()
        invariant runner.sent == old(runner.sent) + StepEvents(runs)
        invariant info.(stepFailed := false) == old(info).(stepFailed := false)
        invariant forall i :: 0 <= i < j ==> ItemMillis(items[i]) == times[i] && allocated(Objects(items[i]))
        invariant forall i :: j <= i < |items| ==> Unrun(Slots(items[i]))
        invariant Sum(times) == StepTime(runs)
      {
        ghost var more, later := [], info;
        assert forall i :: 0 <= i < |items| ==> allocated(Slots(items[i]));
        failure, more := ExecuteItem(items[j]);
        SumPush(times, StepTime(more));
        times := times + [StepTime(more)];
        Onwards(items, j, runs, more, old(info), later);
        runs := runs + more;
        if failure {
          UnrunItems(items, j + 1);
          return;
        }
      }
    }
  }
}
