/** The order of messages: a stack machine that accepts the messages of every run. */
module Nesting {
  import opened Text
  import opened Substitution
  import opened Protocol

  datatype Level = SuiteLevel | SpecLevel | ScenarioLevel | StepLevel

  datatype Kind = Init(level: Level) | Starting(level: Level) | Ending(level: Level) | Executing

  function KindOf(m: Message): Kind {
    match m
    case SuiteDataStoreInit => Init(SuiteLevel)
    case ExecutionStarting => Starting(SuiteLevel)
    case ExecutionEnding => Ending(SuiteLevel)
    case SpecDataStoreInit => Init(SpecLevel)
    case SpecExecutionStarting(_) => Starting(SpecLevel)
    case SpecExecutionEnding(_) => Ending(SpecLevel)
    case ScenarioDataStoreInit => Init(ScenarioLevel)
    case ScenarioExecutionStarting(_) => Starting(ScenarioLevel)
    case ScenarioExecutionEnding(_) => Ending(ScenarioLevel)
    case StepExecutionStarting(_) => Starting(StepLevel)
    case StepExecutionEnding(_) => Ending(StepLevel)
    case ExecuteStep(_, _) => Executing
  }

  /** A level whose data store was initialised, or one that was started. It is blocked when its
      starting message was answered with a failure. */
  datatype Frame = Ready(level: Level) | Open(level: Level, blocked: bool, executed: bool)

  /** Whether a level may begin inside the open frames. */
  predicate Inside(level: Level, stack: seq<Frame>) {
    if level.SuiteLevel? then stack == []
    else
      && stack != []
      && var top := stack[|stack| - 1];
      && top.Open? && !top.blocked
      && match level {
         case SpecLevel => top.level.SuiteLevel?
         case ScenarioLevel => top.level.SpecLevel?
         case StepLevel => top.level.ScenarioLevel?
         case SuiteLevel => false
         }
  }

  /** One message. None when it is out of place. */
  function Next(stack: seq<Frame>, e: Event): Option<seq<Frame>> {
    var n := |stack|;
    match KindOf(e.message)
    case Init(level) =>
      if Inside(level, stack) then Some(stack + [Ready(level)]) else None
    case Starting(level) =>
      if level.StepLevel? then
        if Inside(level, stack) then Some(stack + [Open(level, e.answer.failed, false)]) else None
      else if n > 0 && stack[n - 1] == Ready(level) then
        Some(stack[..n - 1] + [Open(level, e.answer.failed, false)])
      else None
    case Executing =>
      if n > 0 && stack[n - 1] == Open(StepLevel, false, false) then
        Some(stack[..n - 1] + [Open(StepLevel, false, true)])
      else None
    case Ending(level) =>
      if n > 0 && stack[n - 1].Open? && stack[n - 1].level == level
         && (level.StepLevel? ==> stack[n - 1].blocked || stack[n - 1].executed) then
        Some(stack[..n - 1])
      else None
  }

  function Scan(stack: seq<Frame>, es: seq<Event>): Option<seq<Frame>> {
    if es == [] then Some(stack)
    else
      match Scan(stack, es[..|es| - 1])
      case None => None
      case Some(s) => Next(s, es[|es| - 1])
  }

  lemma {:induction false} ScanAppend(stack: seq<Frame>, a: seq<Event>, b: seq<Event>)
    requires Scan(stack, a).Some?
    ensures Scan(stack, a + b) == Scan(Scan(stack, a).value, b)
  {
    hide Next;
    if b == [] {
      assert a + b == a;
    } else {
      assert (a + b)[..|a + b| - 1] == a + b[..|b| - 1];
      ScanAppend(stack, a, b[..|b| - 1]);
    }
  }

  lemma {:induction false} ScanOne(stack: seq<Frame>, e: Event)
    ensures Scan(stack, [e]) == Next(stack, e)
  {
    hide Next;
    assert [e][..0] == [];
    assert Scan(stack, [e][..0]) == Some(stack);
  }

  lemma {:induction false} ScanTwo(stack: seq<Frame>, first: Event, second: Event)
    requires Next(stack, first).Some?
    ensures Scan(stack, [first, second]) == Next(Next(stack, first).value, second)
  {
    hide Next;
    assert [first, second] == [first] + [second];
    ScanOne(stack, first);
    ScanAppend(stack, [first], [second]);
    ScanOne(Next(stack, first).value, second);
  }

  /** A level runs to its end when its body leaves the open frame alone. */
  lemma {:induction false} Enclosed(
      stack: seq<Frame>, level: Level, init: Event, starting: Event, body: seq<Event>, ending: Event)
    requires !level.StepLevel? && Inside(level, stack)
    requires KindOf(init.message) == Init(level)
    requires KindOf(starting.message) == Starting(level)
    requires KindOf(ending.message) == Ending(level)
    requires var open := stack + [Open(level, starting.answer.failed, false)]; Scan(open, body) == Some(open)
    ensures Scan(stack, [init, starting] + body + [ending]) == Some(stack)
  {
    hide Inside, Scan, KindOf;
    var open := stack + [Open(level, starting.answer.failed, false)];
    assert Next(stack, init) == Some(stack + [Ready(level)]);
    assert (stack + [Ready(level)])[..|stack|] == stack;
    assert Next(stack + [Ready(level)], starting) == Some(open);
    ScanTwo(stack, init, starting);
    ScanAppend(stack, [init, starting], body);
    ScanAppend(stack, [init, starting] + body, [ending]);
    ScanOne(open, ending);
    assert open[..|stack|] == stack;
  }

  lemma {:induction false} StepNested(stack: seq<Frame>, run: StepRun, leaf: Plan, info: Info)
    requires run.Legal(leaf, info) && Inside(StepLevel, stack)
    ensures Scan(stack, run.Events()) == Some(stack)
  {
    hide Inside, Scan;
    var open := stack + [Open(StepLevel, run.starting.answer.failed, false)];
    assert open[..|stack|] == stack;
    assert Next(stack, run.starting) == Some(open);
    if run.execution.Some? {
      var done := stack + [Open(StepLevel, false, true)];
      assert done[..|stack|] == stack;
      assert Next(open, run.execution.value) == Some(done);
      ScanTwo(stack, run.starting, run.execution.value);
      assert run.Events() == [run.starting, run.execution.value] + [run.ending];
      ScanAppend(stack, [run.starting, run.execution.value], [run.ending]);
      ScanOne(done, run.ending);
    } else {
      ScanTwo(stack, run.starting, run.ending);
      assert run.Events() == [run.starting, run.ending];
    }
  }

  lemma {:induction false} StepsNested(stack: seq<Frame>, runs: seq<StepRun>, leaves: seq<Plan>, info: Info)
    requires |runs| <= |leaves| && forall i :: 0 <= i < |runs| ==> runs[i].Legal(leaves[i], info)
    requires Inside(StepLevel, stack)
    ensures Scan(stack, StepEvents(runs)) == Some(stack)
  {
    hide StepRun.Legal, StepRun.Events, Next, Inside;
    if runs != [] {
      var n := |runs| - 1;
      StepsNested(stack, runs[..n], leaves, info);
      StepNested(stack, runs[n], leaves[n], info);
      ScanAppend(stack, StepEvents(runs[..n]), runs[n].Events());
    }
  }

  lemma {:induction false} EmptyBody(stack: seq<Frame>)
    ensures Scan(stack, []) == Some(stack)
    ensures StepEvents([]) == [] && ScenarioEvents([]) == [] && SpecEvents([]) == []
  {
  }

  lemma {:induction false} ScenarioNested(stack: seq<Frame>, run: ScenarioRun, leaves: seq<Plan>, specFailed: bool)
    requires run.Legal(leaves, specFailed) && Inside(ScenarioLevel, stack)
    ensures Scan(stack, run.Events()) == Some(stack)
  {
    hide Scan, StepRun.Legal, StepEvents, Next;
    var open := stack + [Open(ScenarioLevel, run.starting.answer.failed, false)];
    if run.starting.answer.failed {
      EmptyBody(open);
    } else {
      StepsNested(open, run.steps, leaves, Info(specFailed, false, false));
    }
    Enclosed(stack, ScenarioLevel, run.init, run.starting, StepEvents(run.steps), run.ending);
  }

  lemma {:induction false} ScenariosNested(
      stack: seq<Frame>, runs: seq<ScenarioRun>, leaves: seq<seq<Plan>>, marks: seq<bool>)
    requires |runs| <= |leaves| && |marks| == |leaves|
    requires forall i :: 0 <= i < |runs| ==> runs[i].Legal(leaves[i], marks[i])
    requires Inside(ScenarioLevel, stack)
    ensures Scan(stack, ScenarioEvents(runs)) == Some(stack)
  {
    hide ScenarioRun.Legal, ScenarioRun.Events, Next, Inside;
    if runs != [] {
      var n := |runs| - 1;
      ScenariosNested(stack, runs[..n], leaves, marks);
      ScenarioNested(stack, runs[n], leaves[n], marks[n]);
      ScanAppend(stack, ScenarioEvents(runs[..n]), runs[n].Events());
    }
  }

  lemma {:induction false} SpecNested(stack: seq<Frame>, run: SpecRun, leaves: seq<seq<Plan>>)
    requires run.Legal(leaves) && Inside(SpecLevel, stack)
    ensures Scan(stack, run.Events()) == Some(stack)
  {
    hide Scan, ScenarioRun.Legal, ScenarioEvents, Next;
    var open := stack + [Open(SpecLevel, run.starting.answer.failed, false)];
    if run.starting.answer.failed {
      EmptyBody(open);
    } else {
      var runs := run.scenarios;
      ScenariosNested(open, runs, leaves, seq(|leaves|, i requires 0 <= i < |leaves| => AnyBroken(runs, i)));
    }
    Enclosed(stack, SpecLevel, run.init, run.starting, ScenarioEvents(run.scenarios), run.ending);
  }

  lemma {:induction false} SpecsNested(stack: seq<Frame>, runs: seq<SpecRun>, leaves: seq<seq<seq<Plan>>>)
    requires |runs| <= |leaves| && forall i :: 0 <= i < |runs| ==> runs[i].Legal(leaves[i])
    requires Inside(SpecLevel, stack)
    ensures Scan(stack, SpecEvents(runs)) == Some(stack)
  {
    hide SpecRun.Legal, SpecRun.Events, Next, Inside;
    if runs != [] {
      var n := |runs| - 1;
      SpecsNested(stack, runs[..n], leaves);
      SpecNested(stack, runs[n], leaves[n]);
      ScanAppend(stack, SpecEvents(runs[..n]), runs[n].Events());
    }
  }

  /** The messages of a suite are well nested: the machine reads them all and every level that
      was started has ended. */
  lemma {:induction false} SuiteNested(run: SuiteRun, leaves: seq<seq<seq<Plan>>>)
    requires run.Legal(leaves)
    ensures Scan([], run.Events()) == Some([])
  {
    hide Scan, SpecRun.Legal, SpecEvents, Next;
    var open := [Open(SuiteLevel, run.starting.answer.failed, false)];
    assert [] + open == open;
    if run.starting.answer.failed {
      EmptyBody(open);
    } else {
      SpecsNested(open, run.specs, leaves);
    }
    Enclosed([], SuiteLevel, run.init, run.starting, SpecEvents(run.specs), run.ending);
  }

  /* ---------- what acceptance means for single messages ---------- */

  lemma {:induction false} PrefixScans(stack: seq<Frame>, es: seq<Event>, n: nat)
    requires n <= |es| && Scan(stack, es).Some?
    ensures Scan(stack, es[..n]).Some?
    ensures n < |es| ==> Scan(stack, es[..n + 1]) == Next(Scan(stack, es[..n]).value, es[n])
    ensures n < |es| ==> Scan(stack, es[..n + 1]).Some?
    decreases |es| - n
  {
    hide Next;
    if n == |es| {
      assert es[..n] == es;
    } else {
      PrefixScans(stack, es, n + 1);
      assert es[..n + 1][..n] == es[..n];
    }
  }

  /** Only started levels other than steps have anything inside them. */
  predicate Layered(stack: seq<Frame>) {
    forall k :: 0 <= k < |stack| - 1 ==> stack[k].Open? && !stack[k].level.StepLevel?
  }

  lemma {:induction false} NothingOpen()
    ensures Layered([])
  {
  }

  lemma {:induction false} NextLayered(stack: seq<Frame>, e: Event)
    requires Layered(stack) && Next(stack, e).Some?
    ensures Layered(Next(stack, e).value)
  {
    hide KindOf;
  }

  lemma {:induction false} ScanLayered(es: seq<Event>)
    requires Scan([], es).Some?
    ensures Layered(Scan([], es).value)
  {
    hide Next, Layered;
    if es == [] {
      NothingOpen();
    } else {
      ScanLayered(es[..|es| - 1]);
      NextLayered(Scan([], es[..|es| - 1]).value, es[|es| - 1]);
    }
  }

  predicate Awaiting(stack: seq<Frame>) {
    stack != [] && stack[|stack| - 1] == Open(StepLevel, false, false)
  }

  /** A step is executed only right after a before-step message that did not fail, and is
      followed at once by its after-step message. */
  lemma {:induction false} ExecuteStepIsGuarded(es: seq<Event>, i: nat)
    requires Scan([], es) == Some([]) && i < |es| && KindOf(es[i].message) == Executing
    ensures 0 < i < |es| - 1
    ensures KindOf(es[i - 1].message) == Starting(StepLevel) && !es[i - 1].answer.failed
    ensures KindOf(es[i + 1].message) == Ending(StepLevel)
  {
    hide Scan, KindOf;
    PrefixScans([], es, i);
    assert Awaiting(Scan([], es[..i]).value);
    if i == 0 {
      assert es[..0] == [];
      EmptyBody([]);
    } else {
      PrefixScans([], es, i - 1);
      ScanLayered(es[..i - 1]);
    }
    assert es[..|es|] == es;
    if i + 1 < |es| {
      PrefixScans([], es, i + 1);
    }
  }

  /** A level whose starting message failed ends at once. */
  lemma {:induction false} FailedStartEndsAtOnce(es: seq<Event>, i: nat, level: Level)
    requires Scan([], es) == Some([]) && i < |es|
    requires KindOf(es[i].message) == Starting(level) && es[i].answer.failed
    ensures i < |es| - 1 && KindOf(es[i + 1].message) == Ending(level)
  {
    hide Scan, KindOf;
    PrefixScans([], es, i);
    assert es[..|es|] == es;
    if i + 1 < |es| {
      PrefixScans([], es, i + 1);
    }
  }

  /* ---------- the mark in the after-spec message ---------- */

  /** A failure that the execution info records: after-scenario hooks are not recorded. */
  predicate Recorded(e: Event) {
    e.answer.failed && !e.IsInit() && !e.message.ScenarioExecutionEnding?
  }

  predicate AnyRecorded(es: seq<Event>) {
    exists i :: 0 <= i < |es| && Recorded(es[i])
  }

  lemma {:induction false} AnyRecordedAppend(a: seq<Event>, b: seq<Event>)
    ensures AnyRecorded(a + b) <==> AnyRecorded(a) || AnyRecorded(b)
  {
    hide Recorded;
    if AnyRecorded(b) {
      var i :| 0 <= i < |b| && Recorded(b[i]);
      assert (a + b)[|a| + i] == b[i];
    }
    if AnyRecorded(a) {
      var i :| 0 <= i < |a| && Recorded(a[i]);
      assert (a + b)[i] == a[i];
    }
  }

  lemma {:induction false} StepRecorded(run: StepRun, leaf: Plan, info: Info)
    requires run.Legal(leaf, info)
    ensures AnyRecorded(run.Events()) <==> run.Failed()
  {
    var es := run.Events();
    assert es[0] == run.starting && es[|es| - 1] == run.ending;
    assert run.execution.Some? ==> es[1] == run.execution.value;
    assert Recorded(es[0]) || Recorded(es[|es| - 1]) || (|es| == 3 && Recorded(es[1])) <==> run.Failed();
  }

  lemma {:induction false} StepsRecorded(runs: seq<StepRun>, leaves: seq<Plan>, info: Info)
    requires |runs| <= |leaves| && forall i :: 0 <= i < |runs| ==> runs[i].Legal(leaves[i], info)
    ensures AnyRecorded(StepEvents(runs)) <==> exists i :: 0 <= i < |runs| && runs[i].Failed()
  {
    hide StepRun.Legal, StepRun.Events, StepRun.Failed, Recorded;
    if runs != [] {
      var n := |runs| - 1;
      var front := runs[..n];
      StepsRecorded(front, leaves, info);
      StepRecorded(runs[n], leaves[n], info);
      AnyRecordedAppend(StepEvents(front), runs[n].Events());
      assert forall i :: 0 <= i < n ==> front[i] == runs[i];
    }
  }

  lemma {:induction false} ScenarioRecorded(run: ScenarioRun, leaves: seq<Plan>, specFailed: bool)
    requires run.Legal(leaves, specFailed)
    ensures AnyRecorded(run.Events()) <==> run.Broken()
  {
    hide StepEvents, StepRun.Failed, StepRun.Legal;
    if run.starting.answer.failed {
      EmptyBody([]);
    } else {
      StepsRecorded(run.steps, leaves, Info(specFailed, false, false));
    }
    var body := StepEvents(run.steps);
    var head := [run.init, run.starting];
    AnyRecordedAppend(head + body, [run.ending]);
    AnyRecordedAppend(head, body);
    assert head[1] == run.starting && head[0] == run.init;
    assert AnyRecorded(head) <==> Recorded(head[1]);
  }

  lemma {:induction false} ScenariosRecorded(runs: seq<ScenarioRun>, leaves: seq<seq<Plan>>, marks: seq<bool>)
    requires |runs| <= |leaves| && |marks| == |leaves|
    requires forall i :: 0 <= i < |runs| ==> runs[i].Legal(leaves[i], marks[i])
    ensures AnyRecorded(ScenarioEvents(runs)) <==> exists i :: 0 <= i < |runs| && runs[i].Broken()
  {
    hide ScenarioRun.Legal, ScenarioRun.Events, ScenarioRun.Broken, Recorded;
    if runs != [] {
      var n := |runs| - 1;
      var front := runs[..n];
      ScenariosRecorded(front, leaves, marks);
      ScenarioRecorded(runs[n], leaves[n], marks[n]);
      AnyRecordedAppend(ScenarioEvents(front), runs[n].Events());
      assert forall i :: 0 <= i < n ==> front[i] == runs[i];
    }
  }

  /** The spec mark that the after-spec message carries: some message before it failed that is
      neither a data store initialisation nor an after-scenario hook. */
  lemma {:induction false} SpecMark(run: SpecRun, leaves: seq<seq<Plan>>)
    requires run.Legal(leaves)
    ensures run.ending.message.info.specFailed <==>
            AnyRecorded([run.init, run.starting] + ScenarioEvents(run.scenarios))
  {
    hide ScenarioEvents, ScenarioRun.Legal, ScenarioRun.Broken;
    var runs := run.scenarios;
    if run.starting.answer.failed {
      EmptyBody([]);
    } else {
      ScenariosRecorded(runs, leaves, seq(|leaves|, i requires 0 <= i < |leaves| => AnyBroken(runs, i)));
    }
    var head := [run.init, run.starting];
    AnyRecordedAppend(head, ScenarioEvents(runs));
    assert head[1] == run.starting && head[0] == run.init;
    assert AnyRecorded(head) <==> Recorded(head[1]);
  }
}
