/** Executing all specifications between the suite hooks. */
module SuiteExecution {
  import opened Text
  import opened Substitution
  import opened Protocol
  import opened Nesting
  import opened ItemExecution
  import opened ScenarioExecution
  import opened SpecResults
  import opened SpecExecution
  import opened ExecutionOrder

  function CountFailedSpecs(runs: seq<SpecRun>): nat {
    if runs == [] then 0
    else CountFailedSpecs(runs[..|runs| - 1]) + if runs[|runs| - 1].Failed() then 1 else 0
  }

  predicate SomeSpecFailed(runs: seq<SpecRun>) {
    exists i :: 0 <= i < |runs| && runs[i].Failed()
  }

  ghost function SuiteLeaves(plans: seq<SpecPlan>): seq<seq<seq<Plan>>>
    requires forall i :: 0 <= i < |plans| ==> plans[i].Valid()
  {
    seq(|plans|, i requires 0 <= i < |plans| => plans[i].Leaves())
  }

  class SuiteResult {
    var specResults: seq<SpecResult>
    var preHookFailed: bool
    var postHookFailed: bool
    var isFailed: bool
    var specsFailedCount: nat
    var executionTime: int

    constructor ()
      ensures specResults == [] && specsFailedCount == 0 && executionTime == 0
      ensures !isFailed && !preHookFailed && !postHookFailed
    {
      specResults, specsFailedCount, executionTime := [], 0, 0;
      isFailed, preHookFailed, postHookFailed := false, false, false;
    }

    method SetFailure()
      modifies `isFailed
      ensures isFailed
    {
      isFailed := true;
    }

    method AddSpecResult(result: SpecResult)
      modifies `isFailed, `specsFailedCount, `executionTime, `specResults
      ensures isFailed == (old(isFailed) || result.isFailed)
      ensures specsFailedCount == old(specsFailedCount) + if result.isFailed then 1 else 0
      ensures executionTime == old(executionTime) + result.executionTime
      ensures specResults == old(specResults) + [result]
    {
      if result.isFailed {
        isFailed := true;
        specsFailedCount := specsFailedCount + 1;
      }
      executionTime := executionTime + result.executionTime;
      specResults := specResults + [result];
    }
  }

  ghost predicate ShowsRun(result: SpecResult, plan: SpecPlan, run: SpecRun)
    reads result, Shown(result.items)
  {
    exists rows :: ShowsSpec(result, plan, run, rows)
  }

  /** The scenario results in some spec results. */
  ghost function Seen(results: seq<SpecResult>): set<ScenarioResult>
    reads results
  {
    set r, s | r in results && s in Shown(r.items) :: s
  }

  /** Every result shows the run of its specification. */
  ghost predicate ShowsSpecs(results: seq<SpecResult>, plans: seq<SpecPlan>, runs: seq<SpecRun>)
    reads results, Seen(results)
  {
    && |results| == |runs| <= |plans|
    && forall i :: 0 <= i < |results| ==>
         assert results[i] in results; ShowsRun(results[i], plans[i], runs[i])
  }

  lemma {:induction false} ShowsNothing(plans: seq<SpecPlan>)
    ensures ShowsSpecs([], plans, []) && Seen([]) == {}
  {
  }

  lemma {:induction false} ShowsOneMore(results: seq<SpecResult>, plans: seq<SpecPlan>, runs: seq<SpecRun>,
      result: SpecResult, run: SpecRun)
    requires ShowsSpecs(results, plans, runs) && |runs| < |plans| && ShowsRun(result, plans[|runs|], run)
    ensures ShowsSpecs(results + [result], plans, runs + [run])
  {
    hide ShowsRun;
  }

  ghost predicate LegalSpecs(leaves: seq<seq<seq<Plan>>>, runs: seq<SpecRun>, n: nat) {
    |runs| == n <= |leaves| && forall i :: 0 <= i < n ==> runs[i].Legal(leaves[i])
  }

  lemma {:induction false} NextSpec(leaves: seq<seq<seq<Plan>>>, runs: seq<SpecRun>, run: SpecRun)
    requires LegalSpecs(leaves, runs, |runs|) && |runs| < |leaves| && run.Legal(leaves[|runs|])
    ensures LegalSpecs(leaves, runs + [run], |runs| + 1)
    ensures SpecEvents(runs + [run]) == SpecEvents(runs) + run.Events()
    ensures CountFailedSpecs(runs + [run]) == CountFailedSpecs(runs) + if run.Failed() then 1 else 0
    ensures SomeSpecFailed(runs + [run]) <==> SomeSpecFailed(runs) || run.Failed()
  {
    hide SpecRun.Legal, SpecRun.Events, SpecRun.Failed;
    var all := runs + [run];
    assert all[..|runs|] == runs;
    assert all[|runs|] == run;
    assert forall i :: 0 <= i < |runs| ==> all[i] == runs[i];
  }

  lemma {:induction false} NoSpecs(leaves: seq<seq<seq<Plan>>>)
    ensures LegalSpecs(leaves, [], 0) && SpecEvents([]) == [] && CountFailedSpecs([]) == 0 && !SomeSpecFailed([])
  {
  }

  /** All specifications, one after the other. */
  method ExecuteSpecs(runner: Runner, plans: seq<SpecPlan>, suite: SuiteResult) returns (ghost runs: seq<SpecRun>)
    requires forall i :: 0 <= i < |plans| ==> plans[i].Valid()
    requires suite.specResults == [] && suite.specsFailedCount == 0
    modifies runner, suite`isFailed, suite`specsFailedCount, suite`executionTime, suite`specResults
    ensures LegalSpecs(SuiteLeaves(plans), runs, |plans|)
    ensures old(runner.Truthful()) ==> runner.Truthful()
    ensures runner.sent == old(runner.sent) + SpecEvents(runs)
    ensures suite.isFailed == (old(suite.isFailed) || SomeSpecFailed(runs))
    ensures suite.specsFailedCount == CountFailedSpecs(runs)
    ensures fresh(suite.specResults) && ShowsSpecs(suite.specResults, plans, runs)
    ensures |suite.specResults| == |plans|
  {
    hide Runner.Truthful;
    hide LegalSpecs, SpecEvents, CountFailedSpecs, SomeSpecFailed, SpecRun.Legal, SpecRun.Events, SpecRun.Failed,
      SpecPlan.Leaves, AnyFailed, ShowsSpecs, Shown, Seen, Presents, CountFailing, AllFailedRows, InOrder;
    runs := [];
    NoSpecs(SuiteLeaves(plans));
    ShowsNothing(plans);
    for i := 0 to |plans|
      invariant LegalSpecs(SuiteLeaves(plans), runs, i) && |runs| == i
      invariant old(runner.Truthful()) ==> runner.Truthful()
      invariant runner.sent == old(runner.sent) + SpecEvents(runs)
      invariant suite.isFailed == (old(suite.isFailed) || SomeSpecFailed(runs))
      invariant suite.specsFailedCount == CountFailedSpecs(runs)
      invariant fresh(suite.specResults) && ShowsSpecs(suite.specResults, plans, runs)
      invariant |suite.specResults| == i
    {
      var result;
      ghost var run, rows;
      ghost var shown := suite.specResults;
      assert allocated(Seen(shown));
      result, run, rows := Execute(runner, plans[i]);
      assert ShowsRun(result, plans[i], run);
      ShowsOneMore(shown, plans, runs, result, run);
      assert allocated(Seen(shown + [result]));
      suite.AddSpecResult(result);
      assert suite.specResults == shown + [result];
      NextSpec(SuiteLeaves(plans), runs, run);
      runs := runs + [run];
    }
  }

  lemma {:induction false} SuiteSent(sent: seq<Event>, run: SuiteRun)
    ensures sent + run.Events() == sent + [run.init] + [run.starting] + SpecEvents(run.specs) + [run.ending]
  {
    hide SpecEvents;
  }

  lemma {:induction false} SuiteLegal(run: SuiteRun, leaves: seq<seq<seq<Plan>>>)
    requires run.init.message == SuiteDataStoreInit
    requires run.starting.message == ExecutionStarting && run.ending.message == ExecutionEnding
    requires if run.starting.answer.failed then run.specs == [] else LegalSpecs(leaves, run.specs, |leaves|)
    ensures run.Legal(leaves)
    ensures run.Failed() == (run.starting.answer.failed || SomeSpecFailed(run.specs) || run.ending.answer.failed)
  {
    hide SpecRun.Legal, SpecRun.Failed;
  }

  /** The before-suite hook and, when it passes, the specifications. */
  method StartSuite(runner: Runner, plans: seq<SpecPlan>, suite: SuiteResult)
      returns (ghost init: Event, ghost starting: Event, ghost runs: seq<SpecRun>)
    requires forall i :: 0 <= i < |plans| ==> plans[i].Valid()
    requires suite.specResults == [] && suite.specsFailedCount == 0 && !suite.isFailed && !suite.preHookFailed
    modifies runner
    modifies suite`isFailed, suite`preHookFailed, suite`specsFailedCount, suite`executionTime, suite`specResults
    ensures init.message == SuiteDataStoreInit && starting.message == ExecutionStarting
    ensures if starting.answer.failed then runs == [] else LegalSpecs(SuiteLeaves(plans), runs, |plans|)
    ensures old(runner.Truthful()) ==> runner.Truthful()
    ensures runner.sent == old(runner.sent) + [init] + [starting] + SpecEvents(runs)
    ensures suite.isFailed == (starting.answer.failed || SomeSpecFailed(runs))
    ensures suite.preHookFailed == starting.answer.failed
    ensures suite.specsFailedCount == CountFailedSpecs(runs)
    ensures fresh(suite.specResults) && ShowsSpecs(suite.specResults, plans, runs)
    ensures |suite.specResults| == if starting.answer.failed then 0 else |plans|
  {
    hide Runner.Truthful;
    hide SpecEvents, CountFailedSpecs, SomeSpecFailed, SpecRun.Legal, SpecRun.Events, SpecPlan.Leaves, SuiteLeaves,
      ShowsSpecs, Seen;
    runs := [];
    NoSpecs(SuiteLeaves(plans));
    ShowsNothing(plans);
    var answer;
    answer, init := runner.ExecuteAndGetStatus(SuiteDataStoreInit);
    answer, starting := runner.ExecuteAndGetStatus(ExecutionStarting);
    suite.executionTime := suite.executionTime + answer.Millis();
    if answer.failed {
      suite.preHookFailed := true;
      suite.SetFailure();
    } else {
      runs := ExecuteSpecs(runner, plans, suite);
    }
  }

  /** The after-suite hook. */
  method EndSuite(runner: Runner, suite: SuiteResult) returns (ghost ending: Event)
    requires !suite.postHookFailed
    modifies runner, suite`isFailed, suite`postHookFailed, suite`executionTime
    ensures ending.message == ExecutionEnding && runner.sent == old(runner.sent) + [ending]
    ensures old(runner.Truthful()) ==> runner.Truthful()
    ensures suite.postHookFailed == ending.answer.failed
    ensures suite.isFailed == (old(suite.isFailed) || ending.answer.failed)
  {
    hide Runner.Truthful;
    var answer;
    answer, ending := runner.ExecuteAndGetStatus(ExecutionEnding);
    suite.executionTime := suite.executionTime + answer.Millis();
    if answer.failed {
      suite.postHookFailed := true;
      suite.SetFailure();
    }
  }

  /** Runs a suite. Whatever the runner answers, the suite failed exactly when a message other
      than a data store initialisation was answered with a failure, the failed specifications
      are counted, and the messages are well nested. */
  method Start(runner: Runner, plans: seq<SpecPlan>, elapsed: int) returns (suite: SuiteResult, ghost run: SuiteRun)
    requires forall i :: 0 <= i < |plans| ==> plans[i].Valid()
    modifies runner
    ensures fresh(suite) && fresh(suite.specResults) && run.Legal(SuiteLeaves(plans))
    ensures old(runner.Truthful()) ==> runner.Truthful()
    ensures runner.sent == old(runner.sent) + run.Events()
    ensures suite.isFailed <==> AnyFailed(run.Events())
    ensures Scan([], run.Events()) == Some([]) && FollowsSuite(run, plans)
    ensures suite.specsFailedCount == CountFailedSpecs(run.specs)
    ensures ShowsSpecs(suite.specResults, plans, run.specs)
    ensures |suite.specResults| == if run.starting.answer.failed then 0 else |plans|
    ensures suite.preHookFailed == run.starting.answer.failed && suite.postHookFailed == run.ending.answer.failed
    ensures suite.executionTime == elapsed
  {
    hide Runner.Truthful;
    hide LegalSpecs, SpecEvents, CountFailedSpecs, SomeSpecFailed, SuiteRun.Events, SuiteRun.Legal, SuiteRun.Failed,
      AnyFailed, TotalTime, Scan, SuiteLeaves, SpecRun.Events, ShowsSpecs, Seen, FollowsSuite;
    suite := new SuiteResult();
    CountLeaves(plans);
    ghost var init, starting, runs, ending;
    init, starting, runs := StartSuite(runner, plans, suite);
    assert allocated(Seen(suite.specResults));
    ending := EndSuite(runner, suite);
    suite.executionTime := elapsed;
    run := SuiteRun(init, starting, runs, ending);
    SuiteSent(old(runner.sent), run);
    SuiteLegal(run, SuiteLeaves(plans));
    SuiteTotals(run, SuiteLeaves(plans));
    SuiteNested(run, SuiteLeaves(plans));
    SuiteFollows(run, plans);
  }

  /** Every specification is executed as its plan says. */
  lemma {:induction false} SuiteFollows(run: SuiteRun, plans: seq<SpecPlan>)
    requires forall i :: 0 <= i < |plans| ==> plans[i].Valid()
    requires run.Legal(SuiteLeaves(plans))
    ensures FollowsSuite(run, plans)
  {
    hide SpecRun.Legal, SpecPlan.Leaves, SpecPlan.Valid, FollowsSpec;
    if !run.starting.answer.failed {
      forall i | 0 <= i < |plans|
        ensures FollowsSpec(run.specs[i], plans[i])
      {
        SpecFollows(run.specs[i], plans[i]);
      }
    }
  }

  lemma {:induction false} CountLeaves(plans: seq<SpecPlan>)
    requires forall i :: 0 <= i < |plans| ==> plans[i].Valid()
    ensures |SuiteLeaves(plans)| == |plans|
  {
  }
}
