/** The order in which steps are sent: a walk over the plans that replaces a concept by the steps
    inside it, and what each part of a run sends of it. */
module ExecutionOrder {
  import opened Substitution
  import opened Protocol
  import opened ProtoItems
  import opened ScenarioExecution
  import SpecResults
  import opened SpecExecution

  /* ---------- the walk ---------- */

  function Size(plan: Plan): nat
    decreases plan, 1
  {
    match plan
    case Leaf(_, _) => 1
    case Group(_, _, steps) => 1 + StepsSize(steps, |steps|)
  }

  function StepsSize(steps: seq<Plan>, n: nat): nat
    requires n <= |steps|
    decreases steps, 0, n
  {
    if n == 0 then 0 else StepsSize(steps, n - 1) + Size(steps[n - 1])
  }

  function WorkSize(work: seq<ItemPlan>): nat {
    if work == [] then 0
    else
      var item := work[|work| - 1];
      WorkSize(work[..|work| - 1]) + if item.StepPlan? then Size(item.plan) else 1
  }

  lemma {:induction false} WorkSizeAppend(a: seq<ItemPlan>, b: seq<ItemPlan>)
    ensures WorkSize(a + b) == WorkSize(a) + WorkSize(b)
  {
    hide Size;
    if b == [] {
      assert a + b == a;
    } else {
      assert (a + b)[..|a + b| - 1] == a + b[..|b| - 1];
      WorkSizeAppend(a, b[..|b| - 1]);
    }
  }

  function AsItems(steps: seq<Plan>): (items: seq<ItemPlan>)
    ensures |items| == |steps|
  {
    seq(|steps|, i requires 0 <= i < |steps| => StepPlan(steps[i]))
  }

  lemma {:induction false} AsItemsSize(steps: seq<Plan>, n: nat)
    requires n <= |steps|
    ensures WorkSize(AsItems(steps)[..n]) == StepsSize(steps, n)
  {
    hide Size;
    if n > 0 {
      AsItemsSize(steps, n - 1);
      assert AsItems(steps)[..n][..n - 1] == AsItems(steps)[..n - 1];
    }
  }

  /** Going on makes less work. */
  lemma {:induction false} LessWork(work: seq<ItemPlan>)
    requires work != []
    ensures WorkSize(work[1..]) < WorkSize(work)
    ensures work[0].StepPlan? && work[0].plan.Group? ==>
              WorkSize(AsItems(work[0].plan.steps) + work[1..]) < WorkSize(work)
  {
    hide StepsSize, AsItems;
    assert work == [work[0]] + work[1..];
    WorkSizeAppend([work[0]], work[1..]);
    assert [work[0]][..0] == [];
    if work[0].StepPlan? && work[0].plan.Group? {
      var steps := work[0].plan.steps;
      AsItemsSize(steps, |steps|);
      assert AsItems(steps)[..|steps|] == AsItems(steps);
      WorkSizeAppend(AsItems(steps), work[1..]);
    }
  }

  /** The steps in the order in which they are sent: a step comes first, and a concept makes way
      for the steps inside it, in front of what is left. */
  function Walk(work: seq<ItemPlan>): seq<Plan>
    decreases WorkSize(work)
  {
    if work == [] then []
    else
      LessWork(work);
      match work[0]
      case OtherPlan => Walk(work[1..])
      case StepPlan(plan) =>
        if plan.Leaf? then [plan] + Walk(work[1..]) else Walk(AsItems(plan.steps) + work[1..])
  }

  lemma {:induction false} ItemLeavesAppend(a: seq<ItemPlan>, b: seq<ItemPlan>, n: nat)
    requires n <= |b|
    ensures ItemLeaves(a + b, |a| + n) == ItemLeaves(a, |a|) + ItemLeaves(b, n)
  {
    hide PlanLeaves;
    if n > 0 {
      ItemLeavesAppend(a, b, n - 1);
    } else {
      ItemLeavesPrefix(a, b, |a|);
    }
  }

  lemma {:induction false} ItemLeavesPrefix(a: seq<ItemPlan>, b: seq<ItemPlan>, n: nat)
    requires n <= |a|
    ensures ItemLeaves(a + b, n) == ItemLeaves(a, n)
  {
    hide PlanLeaves;
    if n > 0 {
      ItemLeavesPrefix(a, b, n - 1);
    }
  }

  lemma {:induction false} LeavesOfSteps(steps: seq<Plan>, n: nat)
    requires n <= |steps|
    ensures ItemLeaves(AsItems(steps), n) == StepLeaves(steps, n)
  {
    hide PlanLeaves;
    if n > 0 {
      LeavesOfSteps(steps, n - 1);
    }
  }

  /** The walk visits the leaves of the trees from left to right. */
  lemma {:induction false} WalkIsLeaves(work: seq<ItemPlan>)
    ensures Walk(work) == ItemLeaves(work, |work|)
    decreases WorkSize(work)
  {
    hide StepLeaves, WorkSize, AsItems;
    if work != [] {
      LessWork(work);
      var rest := work[1..];
      assert work == [work[0]] + rest;
      ItemLeavesAppend([work[0]], rest, |rest|);
      assert ItemLeaves([work[0]], 0) == [];
      if work[0].StepPlan? && work[0].plan.Group? {
        var steps := work[0].plan.steps;
        LeavesOfSteps(steps, |steps|);
        ItemLeavesAppend(AsItems(steps), rest, |rest|);
        WalkIsLeaves(AsItems(steps) + rest);
      } else {
        WalkIsLeaves(rest);
      }
    }
  }

  /** The walk over a scenario. */
  function ScenarioWalk(plan: ScenarioPlan): seq<Plan> {
    Walk(plan.contexts + plan.items)
  }

  lemma {:induction false} ScenarioWalkIsLeaves(plan: ScenarioPlan)
    ensures ScenarioWalk(plan) == plan.Leaves()
  {
    hide Walk, ItemLeaves;
    WalkIsLeaves(plan.contexts + plan.items);
    ItemLeavesAppend(plan.contexts, plan.items, |plan.items|);
  }

  /* ---------- what a run sends ---------- */

  /** The steps among some messages. */
  function SentSteps(es: seq<Event>): seq<Plan> {
    if es == [] then []
    else
      var m := es[|es| - 1].message;
      SentSteps(es[..|es| - 1]) + if m.ExecuteStep? then [Leaf(m.value, m.parameters)] else []
  }

  lemma {:induction false} SentAppend(a: seq<Event>, b: seq<Event>)
    ensures SentSteps(a + b) == SentSteps(a) + SentSteps(b)
  {
    if b == [] {
      assert a + b == a;
    } else {
      assert (a + b)[..|a + b| - 1] == a + b[..|b| - 1];
      SentAppend(a, b[..|b| - 1]);
    }
  }

  lemma {:induction false} SentNothing()
    ensures SentSteps([]) == []
  {
  }

  lemma {:induction false} SentOne(e: Event)
    ensures SentSteps([e]) == if e.message.ExecuteStep? then [Leaf(e.message.value, e.message.parameters)] else []
  {
    assert [e][..0] == [];
  }

  lemma {:induction false} SentByStep(run: StepRun, leaf: Plan, info: Info)
    requires run.Legal(leaf, info)
    ensures SentSteps(run.Events()) == if run.starting.answer.failed then [] else [leaf]
  {
    hide SentSteps;
    var middle := if run.execution.Some? then [run.execution.value] else [];
    if run.execution.Some? {
      SentOne(run.execution.value);
    } else {
      SentNothing();
    }
    SentOne(run.starting);
    SentOne(run.ending);
    SentAppend([run.starting], middle);
    SentAppend([run.starting] + middle, [run.ending]);
  }

  /** Steps are sent in order; the last one attempted is not sent when its before-step hook failed. */
  lemma {:induction false} SentBySteps(runs: seq<StepRun>, leaves: seq<Plan>, info: Info)
    requires |runs| <= |leaves|
    requires forall i :: 0 <= i < |runs| ==>
               runs[i].Legal(leaves[i], info) && (i < |runs| - 1 ==> !runs[i].Failed())
    ensures SentSteps(StepEvents(runs)) <= leaves
    ensures !LastFailed(runs) ==> SentSteps(StepEvents(runs)) == leaves[..|runs|]
  {
    hide StepRun.Legal, StepRun.Events, SentSteps;
    if runs == [] {
      SentNothing();
    } else {
      var n := |runs| - 1;
      SentBySteps(runs[..n], leaves, info);
      SentByStep(runs[n], leaves[n], info);
      SentAppend(StepEvents(runs[..n]), runs[n].Events());
      assert leaves[..n + 1] == leaves[..n] + [leaves[n]];
    }
  }

  /** A scenario sends the steps of the walk over its plan, all of them unless it breaks off. */
  ghost predicate FollowsScenario(run: ScenarioRun, plan: ScenarioPlan) {
    && SentSteps(run.Events()) <= ScenarioWalk(plan)
    && (!run.Broken() ==> SentSteps(run.Events()) == ScenarioWalk(plan))
  }

  lemma {:induction false} ScenarioFollows(run: ScenarioRun, plan: ScenarioPlan, specFailed: bool)
    requires run.Legal(plan.Leaves(), specFailed)
    ensures FollowsScenario(run, plan)
  {
    hide StepRun.Legal, StepRun.Failed, StepEvents, SentSteps, ScenarioWalk, ScenarioPlan.Leaves;
    var leaves := plan.Leaves();
    ScenarioWalkIsLeaves(plan);
    SentOne(run.init);
    SentOne(run.starting);
    SentOne(run.ending);
    if run.starting.answer.failed {
      SentBySteps([], leaves, Info(specFailed, false, false));
    } else {
      SentBySteps(run.steps, leaves, Info(specFailed, false, false));
      assert leaves[..|leaves|] == leaves;
    }
    SentAppend([run.init], [run.starting]);
    assert [run.init, run.starting] == [run.init] + [run.starting];
    SentAppend([run.init, run.starting], StepEvents(run.steps));
    SentAppend([run.init, run.starting] + StepEvents(run.steps), [run.ending]);
  }

  /** The scenario executed for the `r`-th row of the range and the `c`-th scenario. */
  ghost predicate FollowsAt(run: SpecRun, plan: SpecPlan, r: nat, c: nat) {
    && r * |plan.plain| + c < |run.scenarios|
    && plan.range.start + r < |plan.rows| && plan.range.start >= 0 && c < |plan.rows[plan.range.start + r]|
    && FollowsScenario(run.scenarios[r * |plan.plain| + c], plan.rows[plan.range.start + r][c])
  }

  /** Every scenario once, or once for every row of the range, row after row. */
  ghost predicate FollowsSpec(run: SpecRun, plan: SpecPlan) {
    if run.starting.answer.failed then run.scenarios == []
    else if plan.rows == [] then
      && |run.scenarios| == |plan.plain|
      && forall c :: 0 <= c < |plan.plain| ==> FollowsScenario(run.scenarios[c], plan.plain[c])
    else
      var rows := plan.range.end + 1 - plan.range.start;
      && |run.scenarios| == rows * |plan.plain|
      && forall r: nat, c: nat :: r < rows && c < |plan.plain| ==> FollowsAt(run, plan, r, c)
  }

  /** The scenarios of the rows, one row after the other. */
  lemma {:induction false} RowLeavesAt(rows: seq<seq<ScenarioPlan>>, width: nat, start: nat, end: nat, r: nat, c: nat)
    requires start <= end <= |rows| && SpecResults.Grid(rows, width)
    ensures |RowLeaves(rows, start, end)| == (end - start) * width
    ensures r < end - start && c < width ==>
              && 0 <= r * width + c < (end - start) * width
              && RowLeaves(rows, start, end)[r * width + c] == rows[start + r][c].Leaves()
    decreases end
  {
    hide ScenarioPlan.Leaves;
    if start < end {
      RowLeavesAt(rows, width, start, end - 1, r, c);
      var n := end - start - 1;
      assert (n + 1) * width == n * width + width;
      if r < end - start && c < width {
        if r < n {
          assert r * width + c < n * width;
        } else {
          assert r == n;
        }
      }
    }
  }

  lemma {:induction false} SpecFollows(run: SpecRun, plan: SpecPlan)
    requires plan.Valid() && run.Legal(plan.Leaves())
    ensures FollowsSpec(run, plan)
  {
    hide ScenarioRun.Legal, FollowsScenario, RowLeaves, ScenarioPlan.Leaves, AnyBroken;
    var runs := run.scenarios;
    if run.starting.answer.failed {
    } else if plan.rows == [] {
      forall c | 0 <= c < |plan.plain|
        ensures FollowsScenario(runs[c], plan.plain[c])
      {
        ScenarioFollows(runs[c], plan.plain[c], AnyBroken(runs, c));
      }
    } else {
      var start, end, width := plan.range.start, plan.range.end, |plan.plain|;
      RowLeavesAt(plan.rows, width, start, end + 1, 0, 0);
      forall r: nat, c: nat | r < end + 1 - start && c < width
        ensures FollowsAt(run, plan, r, c)
      {
        RowLeavesAt(plan.rows, width, start, end + 1, r, c);
        ScenarioFollows(runs[r * width + c], plan.rows[start + r][c], AnyBroken(runs, r * width + c));
      }
    }
  }

  /** All specifications in order, unless the hook before the suite failed. */
  ghost predicate FollowsSuite(run: SuiteRun, plans: seq<SpecPlan>) {
    if run.starting.answer.failed then run.specs == []
    else |run.specs| == |plans| && forall i :: 0 <= i < |plans| ==> FollowsSpec(run.specs[i], plans[i])
  }
}
