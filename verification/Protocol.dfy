/** The messages between the execution engine and the test runner, and the shape of a run. */
module Protocol {
  import opened Text
  import opened Substitution

  /** The failure marks in the execution info that hook messages carry. */
  datatype Info = Info(specFailed: bool, scenarioFailed: bool, stepFailed: bool)

  datatype Message =
    | SuiteDataStoreInit | ExecutionStarting | ExecutionEnding
    | SpecDataStoreInit | SpecExecutionStarting(info: Info) | SpecExecutionEnding(info: Info)
    | ScenarioDataStoreInit | ScenarioExecutionStarting(info: Info) | ScenarioExecutionEnding(info: Info)
    | StepExecutionStarting(info: Info) | StepExecutionEnding(info: Info)
    | ExecuteStep(value: string, parameters: seq<Parameter>)

  /** Anything a runner may send back. */
  datatype Response = ConnectionError | OtherMessage | NoResult | Status(failed: bool, time: Option<int>)

  datatype Answer = Answer(failed: bool, time: Option<int>) {
    function Millis(): int { if time.Some? then time.value else 0 }
  }

  /** `executeAndGetStatus`: everything but a proper status counts as a failure. */
  function StatusOf(r: Response): Answer {
    if r.Status? then Answer(r.failed, r.time) else Answer(true, None)
  }

  datatype Event = Event(message: Message, answer: Answer) {
    predicate IsInit() {
      message.SuiteDataStoreInit? || message.SpecDataStoreInit? || message.ScenarioDataStoreInit?
    }
  }

  /** Failed answers count unless they are answers to a data store initialisation. */
  predicate AnyFailed(es: seq<Event>) {
    exists i :: 0 <= i < |es| && es[i].answer.failed && !es[i].IsInit()
  }

  /** The time in all answers but those to data store initialisations. */
  function TotalTime(es: seq<Event>): int {
    if es == [] then 0
    else
      var e := es[|es| - 1];
      TotalTime(es[..|es| - 1]) + if e.IsInit() then 0 else e.answer.Millis()
  }

  /* ---------- the parts of a run ---------- */

  datatype StepRun = StepRun(starting: Event, execution: Option<Event>, ending: Event) {
    function Events(): seq<Event> {
      [starting] + (if execution.Some? then [execution.value] else []) + [ending]
    }

    /** Failed before the after-step hook. */
    predicate Broken() { starting.answer.failed || (execution.Some? && execution.value.answer.failed) }

    predicate Failed() { Broken() || ending.answer.failed }

    function Time(): int {
      starting.answer.Millis() + ending.answer.Millis() +
      (if execution.Some? then execution.value.answer.Millis() else 0)
    }

    /** The step is sent only when the before-step hook passed; the marks say what failed. */
    predicate Legal(leaf: Plan, info: Info) {
      && leaf.Leaf?
      && starting.message == StepExecutionStarting(info.(stepFailed := false))
      && (execution.None? <==> starting.answer.failed)
      && (execution.Some? ==> execution.value.message == ExecuteStep(leaf.value, leaf.parameters))
      && ending.message == StepExecutionEnding(
           Info(info.specFailed || Broken(), info.scenarioFailed || Broken(), Broken()))
    }
  }

  function StepEvents(runs: seq<StepRun>): seq<Event> {
    if runs == [] then [] else StepEvents(runs[..|runs| - 1]) + runs[|runs| - 1].Events()
  }

  function StepTime(runs: seq<StepRun>): int {
    if runs == [] then 0 else StepTime(runs[..|runs| - 1]) + runs[|runs| - 1].Time()
  }

  predicate LastFailed(runs: seq<StepRun>) {
    runs != [] && runs[|runs| - 1].Failed()
  }

  /** The steps attempted are the shortest prefix of the leaves that ends in a failed step, or
      all leaves when none fails. */
  ghost predicate Attempt(leaves: seq<Plan>, runs: seq<StepRun>, info: Info) {
    && |runs| <= |leaves|
    && (forall i :: 0 <= i < |runs| ==>
          runs[i].Legal(leaves[i], info.(stepFailed := false)) && (i < |runs| - 1 ==> !runs[i].Failed()))
    && (!LastFailed(runs) ==> |runs| == |leaves|)
  }

  datatype ScenarioRun = ScenarioRun(init: Event, starting: Event, steps: seq<StepRun>, ending: Event) {
    function Events(): seq<Event> { [init, starting] + StepEvents(steps) + [ending] }

    predicate Broken() { starting.answer.failed || LastFailed(steps) }

    predicate Failed() { Broken() || ending.answer.failed }

    function Time(): int { starting.answer.Millis() + StepTime(steps) + ending.answer.Millis() }

    ghost predicate Legal(leaves: seq<Plan>, specFailed: bool) {
      && init.message == ScenarioDataStoreInit
      && starting.message.ScenarioExecutionStarting?
      && starting.message.info.specFailed == specFailed && !starting.message.info.scenarioFailed
      && (if starting.answer.failed then steps == []
          else Attempt(leaves, steps, Info(specFailed, false, false)))
      && ending.message.ScenarioExecutionEnding?
      && ending.message.info.specFailed == (specFailed || Broken())
      && ending.message.info.scenarioFailed == Broken()
    }
  }

  function ScenarioEvents(runs: seq<ScenarioRun>): seq<Event> {
    if runs == [] then [] else ScenarioEvents(runs[..|runs| - 1]) + runs[|runs| - 1].Events()
  }

  function ScenarioTime(runs: seq<ScenarioRun>): int {
    if runs == [] then 0 else ScenarioTime(runs[..|runs| - 1]) + runs[|runs| - 1].Time()
  }

  /** A scenario so far was marked as failed: its after-scenario hook does not count here. */
  predicate AnyBroken(runs: seq<ScenarioRun>, n: nat)
    requires n <= |runs|
  {
    exists i :: 0 <= i < n && runs[i].Broken()
  }

  ghost predicate LegalScenarios(leaves: seq<seq<Plan>>, runs: seq<ScenarioRun>, specFailed: bool) {
    && |runs| == |leaves|
    && forall i :: 0 <= i < |runs| ==> runs[i].Legal(leaves[i], specFailed || AnyBroken(runs, i))
  }

  datatype SpecRun = SpecRun(init: Event, starting: Event, scenarios: seq<ScenarioRun>, ending: Event) {
    function Events(): seq<Event> { [init, starting] + ScenarioEvents(scenarios) + [ending] }

    predicate Failed() {
      starting.answer.failed || (exists i :: 0 <= i < |scenarios| && scenarios[i].Failed()) || ending.answer.failed
    }

    function Time(): int { starting.answer.Millis() + ScenarioTime(scenarios) + ending.answer.Millis() }

    /** The mark in the after-spec message leaves out failed after-scenario hooks. */
    ghost predicate Legal(leaves: seq<seq<Plan>>) {
      && init.message == SpecDataStoreInit
      && starting.message == SpecExecutionStarting(Info(false, false, false))
      && (if starting.answer.failed then scenarios == [] else LegalScenarios(leaves, scenarios, false))
      && ending.message.SpecExecutionEnding?
      && ending.message.info.specFailed == (starting.answer.failed || AnyBroken(scenarios, |scenarios|))
    }
  }

  function SpecEvents(runs: seq<SpecRun>): seq<Event> {
    if runs == [] then [] else SpecEvents(runs[..|runs| - 1]) + runs[|runs| - 1].Events()
  }

  datatype SuiteRun = SuiteRun(init: Event, starting: Event, specs: seq<SpecRun>, ending: Event) {
    function Events(): seq<Event> { [init, starting] + SpecEvents(specs) + [ending] }

    predicate Failed() {
      starting.answer.failed || (exists i :: 0 <= i < |specs| && specs[i].Failed()) || ending.answer.failed
    }

    ghost predicate Legal(leaves: seq<seq<seq<Plan>>>) {
      && init.message == SuiteDataStoreInit && starting.message == ExecutionStarting
      && ending.message == ExecutionEnding
      && (if starting.answer.failed then specs == []
          else |specs| == |leaves| && forall i :: 0 <= i < |specs| ==> specs[i].Legal(leaves[i]))
    }
  }

  /* ---------- failures and times of a run are those of its messages ---------- */

  lemma {:induction false} AnyFailedAppend(a: seq<Event>, b: seq<Event>)
    ensures AnyFailed(a + b) <==> AnyFailed(a) || AnyFailed(b)
  {
    if AnyFailed(b) {
      var i :| 0 <= i < |b| && b[i].answer.failed && !b[i].IsInit();
      assert (a + b)[|a| + i] == b[i];
    }
    if AnyFailed(a) {
      var i :| 0 <= i < |a| && a[i].answer.failed && !a[i].IsInit();
      assert (a + b)[i] == a[i];
    }
  }

  lemma {:induction false} TotalTimeAppend(a: seq<Event>, b: seq<Event>)
    ensures TotalTime(a + b) == TotalTime(a) + TotalTime(b)
  {
    if b == [] {
      assert a + b == a;
    } else {
      assert (a + b)[..|a + b| - 1] == a + b[..|b| - 1];
      TotalTimeAppend(a, b[..|b| - 1]);
    }
  }

  lemma {:induction false} NoEvents()
    ensures TotalTime([]) == 0 && !AnyFailed([])
  {
  }

  lemma {:induction false} NoSteps()
    ensures StepEvents([]) == [] && StepTime([]) == 0
  {
  }

  lemma {:induction false} One(e: Event)
    ensures TotalTime([e]) == (if e.IsInit() then 0 else e.answer.Millis())
    ensures TotalTime([e]) == if e.IsInit() || e.answer.time.None? then 0 else e.answer.time.value
    ensures AnyFailed([e]) <==> e.answer.failed && !e.IsInit()
  {
    assert [e][..0] == [];
    if e.answer.failed && !e.IsInit() {
      assert [e][0].answer.failed && ![e][0].IsInit();
    }
  }

  /** Messages around a body: an initialisation, an opening and a closing message. */
  lemma {:induction false} Framed(init: Event, starting: Event, body: seq<Event>, ending: Event)
    requires init.IsInit() && !starting.IsInit() && !ending.IsInit()
    ensures var es := [init, starting] + body + [ending];
            && TotalTime(es) == starting.answer.Millis() + TotalTime(body) + ending.answer.Millis()
            && (AnyFailed(es) <==> starting.answer.failed || AnyFailed(body) || ending.answer.failed)
  {
    One(init);
    One(starting);
    One(ending);
    assert [init, starting] == [init] + [starting];
    TotalTimeAppend([init], [starting]);
    AnyFailedAppend([init], [starting]);
    TotalTimeAppend([init, starting], body);
    AnyFailedAppend([init, starting], body);
    TotalTimeAppend([init, starting] + body, [ending]);
    AnyFailedAppend([init, starting] + body, [ending]);
  }

  lemma {:induction false} StepTotals(run: StepRun, leaf: Plan, info: Info)
    requires run.Legal(leaf, info)
    ensures TotalTime(run.Events()) == run.Time()
    ensures AnyFailed(run.Events()) <==> run.Failed()
  {
    var middle := if run.execution.Some? then [run.execution.value] else [];
    if run.execution.Some? {
      One(run.execution.value);
    }
    One(run.starting);
    One(run.ending);
    TotalTimeAppend([run.starting], middle);
    AnyFailedAppend([run.starting], middle);
    TotalTimeAppend([run.starting] + middle, [run.ending]);
    AnyFailedAppend([run.starting] + middle, [run.ending]);
  }

  lemma {:induction false} StepsTotals(leaves: seq<Plan>, runs: seq<StepRun>, info: Info)
    requires |runs| <= |leaves| && forall i :: 0 <= i < |runs| ==> runs[i].Legal(leaves[i], info)
    ensures TotalTime(StepEvents(runs)) == StepTime(runs)
    ensures AnyFailed(StepEvents(runs)) <==> exists i :: 0 <= i < |runs| && runs[i].Failed()
  {
    hide StepRun.Legal, StepRun.Events, StepRun.Time, StepRun.Failed, TotalTime, AnyFailed;
    if runs == [] {
      NoEvents();
    } else {
      var n := |runs| - 1;
      var front := runs[..n];
      StepsTotals(leaves, front, info);
      StepTotals(runs[n], leaves[n], info);
      TotalTimeAppend(StepEvents(front), runs[n].Events());
      AnyFailedAppend(StepEvents(front), runs[n].Events());
      assert forall i :: 0 <= i < n ==> front[i] == runs[i];
    }
  }

  lemma {:induction false} ScenarioTotals(run: ScenarioRun, leaves: seq<Plan>, specFailed: bool)
    requires run.Legal(leaves, specFailed)
    ensures TotalTime(run.Events()) == run.Time()
    ensures AnyFailed(run.Events()) <==> run.Failed()
  {
    hide StepEvents, StepTime, StepRun.Failed, TotalTime, AnyFailed;
    if run.starting.answer.failed {
      NoEvents();
      NoSteps();
    } else {
      StepsTotals(leaves, run.steps, Info(specFailed, false, false));
    }
    Framed(run.init, run.starting, StepEvents(run.steps), run.ending);
  }

  lemma {:induction false} ScenariosTotals(leaves: seq<seq<Plan>>, runs: seq<ScenarioRun>, marks: seq<bool>)
    requires |runs| <= |leaves| && |marks| == |leaves|
    requires forall i :: 0 <= i < |runs| ==> runs[i].Legal(leaves[i], marks[i])
    ensures TotalTime(ScenarioEvents(runs)) == ScenarioTime(runs)
    ensures AnyFailed(ScenarioEvents(runs)) <==> exists i :: 0 <= i < |runs| && runs[i].Failed()
  {
    hide ScenarioRun.Legal, ScenarioRun.Events, ScenarioRun.Time, ScenarioRun.Failed, TotalTime, AnyFailed;
    if runs == [] {
      NoEvents();
    } else {
      var n := |runs| - 1;
      var front := runs[..n];
      ScenariosTotals(leaves, front, marks);
      ScenarioTotals(runs[n], leaves[n], marks[n]);
      TotalTimeAppend(ScenarioEvents(front), runs[n].Events());
      AnyFailedAppend(ScenarioEvents(front), runs[n].Events());
      assert forall i :: 0 <= i < n ==> front[i] == runs[i];
    }
  }

  lemma {:induction false} SpecTotals(run: SpecRun, leaves: seq<seq<Plan>>)
    requires run.Legal(leaves)
    ensures TotalTime(run.Events()) == run.Time()
    ensures AnyFailed(run.Events()) <==> run.Failed()
  {
    if !run.starting.answer.failed {
      var runs := run.scenarios;
      ScenariosTotals(leaves, runs, seq(|leaves|, i requires 0 <= i < |leaves| => AnyBroken(runs, i)));
    }
    Framed(run.init, run.starting, ScenarioEvents(run.scenarios), run.ending);
  }

  lemma {:induction false} SpecsTotals(leaves: seq<seq<seq<Plan>>>, runs: seq<SpecRun>)
    requires |runs| <= |leaves| && forall i :: 0 <= i < |runs| ==> runs[i].Legal(leaves[i])
    ensures AnyFailed(SpecEvents(runs)) <==> exists i :: 0 <= i < |runs| && runs[i].Failed()
  {
    hide SpecRun.Legal, SpecRun.Events, SpecRun.Failed, TotalTime, AnyFailed;
    if runs == [] {
      NoEvents();
    } else {
      var n := |runs| - 1;
      var front := runs[..n];
      SpecsTotals(leaves, front);
      SpecTotals(runs[n], leaves[n]);
      AnyFailedAppend(SpecEvents(front), runs[n].Events());
      assert forall i :: 0 <= i < n ==> front[i] == runs[i];
    }
  }

  /** A suite run failed exactly when some message other than a data store initialisation was
      answered with a failure. */
  lemma {:induction false} SuiteTotals(run: SuiteRun, leaves: seq<seq<seq<Plan>>>)
    requires run.Legal(leaves)
    ensures AnyFailed(run.Events()) <==> run.Failed()
  {
    if !run.starting.answer.failed {
      SpecsTotals(leaves, run.specs);
    }
    Framed(run.init, run.starting, SpecEvents(run.specs), run.ending);
  }
}
