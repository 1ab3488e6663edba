/** Steps and concepts with resolved parameters, each with the place that holds its result. */
module ProtoItems {
  import opened Text
  import opened Substitution

  class ExecutionResult {
    var failed: bool
    var executionTime: Option<int>

    constructor (failed: bool, executionTime: Option<int>)
      ensures this.failed == failed && this.executionTime == executionTime
    {
      this.failed := failed;
      this.executionTime := executionTime;
    }

    function Millis(): int
      reads this
    {
      if executionTime.Some? then executionTime.value else 0
    }
  }

  datatype StepExecutionResult = StepExecutionResult(
    executionResult: ExecutionResult, preHookFailed: bool, postHookFailed: bool)

  /** Where a step or a concept keeps its result. */
  class ResultSlot {
    var stored: Option<StepExecutionResult>

    constructor ()
      ensures stored == None
    {
      stored := None;
    }

    function Objects(): set<ExecutionResult>
      reads this
    {
      if stored.Some? then {stored.value.executionResult} else {}
    }

    /** Absent results read as not failed and without time. */
    predicate Failed()
      reads this, Objects()
    {
      stored.Some? && stored.value.executionResult.failed
    }

    function Millis(): int
      reads this, Objects()
    {
      if stored.Some? then stored.value.executionResult.Millis() else 0
    }
  }

  datatype ProtoItem =
    | StepItem(value: string, parameters: seq<Parameter>, slot: ResultSlot)
    | ConceptItem(value: string, args: seq<Arg>, conceptStep: ResultSlot, slot: ResultSlot, steps: seq<ProtoItem>)
    | OtherItem

  /** The steps of an item in the order in which they are executed. */
  ghost function Leaves(item: ProtoItem): seq<Plan>
    decreases item, 1
  {
    match item
    case StepItem(value, parameters, _) => [Leaf(value, parameters)]
    case ConceptItem(_, _, _, _, steps) => AllLeaves(steps, |steps|)
    case OtherItem => []
  }

  ghost function AllLeaves(items: seq<ProtoItem>, n: nat): seq<Plan>
    requires n <= |items|
    decreases items, 0, n
  {
    if n == 0 then [] else AllLeaves(items, n - 1) + Leaves(items[n - 1])
  }

  ghost function Slots(item: ProtoItem): set<ResultSlot>
    decreases item, 1
  {
    match item
    case StepItem(_, _, slot) => {slot}
    case ConceptItem(_, _, conceptStep, slot, steps) => {conceptStep, slot} + AllSlots(steps)
    case OtherItem => {}
  }

  ghost function AllSlots(items: seq<ProtoItem>): set<ResultSlot>
    decreases items, 0
  {
    set i, s | 0 <= i < |items| && s in Slots(items[i]) :: s
  }

  /** No two items share a slot. */
  ghost predicate Separate(item: ProtoItem)
    decreases item, 1
  {
    item.ConceptItem? ==>
      && item.slot != item.conceptStep
      && item.slot !in AllSlots(item.steps)
      && item.conceptStep !in AllSlots(item.steps)
      && AllSeparate(item.steps)
  }

  ghost predicate AllSeparate(items: seq<ProtoItem>)
    decreases items, 0
  {
    && (forall i :: 0 <= i < |items| ==> Separate(items[i]))
    && forall i, j :: 0 <= i < j < |items| ==> Slots(items[i]) !! Slots(items[j])
  }

  ghost predicate Unrun(slots: set<ResultSlot>)
    reads slots
  {
    forall s :: s in slots ==> s.stored == None
  }

  lemma {:induction false} SlotsOfOne(items: seq<ProtoItem>, i: nat)
    requires i < |items|
    ensures Slots(items[i]) <= AllSlots(items)
  {
    hide Slots;
  }

  /** The slot that an item shows. */
  ghost function TopSlots(item: ProtoItem): set<ResultSlot> {
    if item.OtherItem? then {} else {item.slot}
  }

  lemma {:induction false} TopSlotsInSlots(item: ProtoItem)
    ensures TopSlots(item) <= Slots(item)
  {
  }

  /** The parts of a concept have their own slots. */
  lemma {:induction false} SeparateParts(item: ProtoItem)
    requires item.ConceptItem? && Separate(item)
    ensures item.slot != item.conceptStep
    ensures item.slot in Slots(item) && item.conceptStep in Slots(item) && AllSlots(item.steps) <= Slots(item)
    ensures forall i :: 0 <= i < |item.steps| ==>
              && Separate(item.steps[i])
              && item.slot !in Slots(item.steps[i]) && item.conceptStep !in Slots(item.steps[i])
              && TopSlots(item.steps[i]) <= Slots(item.steps[i]) <= AllSlots(item.steps)
    ensures forall i, j :: 0 <= i < |item.steps| && 0 <= j < |item.steps| && i != j ==>
              Slots(item.steps[i]) !! Slots(item.steps[j])
  {
    forall i | 0 <= i < |item.steps|
      ensures TopSlots(item.steps[i]) <= Slots(item.steps[i]) <= AllSlots(item.steps)
    {
      TopSlotsInSlots(item.steps[i]);
      SlotsOfOne(item.steps, i);
    }
  }

  ghost function Objects(item: ProtoItem): set<ExecutionResult>
    reads TopSlots(item)
  {
    if item.OtherItem? then {} else item.slot.Objects()
  }

  /** What is left of the failed flag and the time of an item. */
  predicate ItemFailed(item: ProtoItem)
    reads TopSlots(item), Objects(item)
  {
    !item.OtherItem? && item.slot.Failed()
  }

  function ItemMillis(item: ProtoItem): int
    reads TopSlots(item), Objects(item)
  {
    if item.OtherItem? then 0 else item.slot.Millis()
  }

  /** An item without a failure that took some time. */
  predicate Passed(item: ProtoItem, time: int)
    reads TopSlots(item), Objects(item)
  {
    !ItemFailed(item) && ItemMillis(item) == time
  }

  lemma {:induction false} UnrunParts(item: ProtoItem)
    requires item.ConceptItem? && Unrun(Slots(item))
    ensures item.slot.stored == None && item.conceptStep.stored == None
    ensures forall i :: 0 <= i < |item.steps| ==> Unrun(Slots(item.steps[i]))
  {
    hide Slots;
    forall i | 0 <= i < |item.steps|
      ensures Unrun(Slots(item.steps[i]))
    {
      SlotsOfOne(item.steps, i);
      OwnSlots(item);
    }
    OwnSlots(item);
  }

  lemma {:induction false} SeparateItems(items: seq<ProtoItem>)
    requires AllSeparate(items)
    ensures forall i :: 0 <= i < |items| ==>
              Separate(items[i]) && TopSlots(items[i]) <= Slots(items[i]) <= AllSlots(items)
    ensures forall i, j :: 0 <= i < |items| && 0 <= j < |items| && i != j ==> Slots(items[i]) !! Slots(items[j])
    ensures Unrun(AllSlots(items)) ==> forall i :: 0 <= i < |items| ==> Unrun(Slots(items[i]))
  {
    hide Slots, Separate;
    forall i | 0 <= i < |items|
      ensures TopSlots(items[i]) <= Slots(items[i]) <= AllSlots(items)
    {
      TopSlotsInSlots(items[i]);
      SlotsOfOne(items, i);
    }
  }

  /** Items that were not executed take no time. */
  lemma {:induction false} UnrunItems(items: seq<ProtoItem>, n: nat)
    requires forall i :: n <= i < |items| ==> Unrun(Slots(items[i]))
    ensures forall i :: n <= i < |items| ==> Passed(items[i], 0)
    ensures forall i :: n <= i < |items| ==> ItemMillis(items[i]) == 0
  {
  }

  /** The time of the item at a position when the first ones took these times. */
  function TimeAt(times: seq<int>, i: nat): int {
    if i < |times| then times[i] else 0
  }

  lemma {:induction false} OwnSlots(item: ProtoItem)
    requires item.ConceptItem?
    ensures item.slot in Slots(item) && item.conceptStep in Slots(item) && AllSlots(item.steps) <= Slots(item)
  {
  }

  lemma {:induction false} LeavesSplit(items: seq<ProtoItem>, n: nat)
    requires n <= |items|
    ensures AllLeaves(items, n) <= AllLeaves(items, |items|)
    decreases |items| - n
  {
    hide Leaves;
    if n < |items| {
      LeavesSplit(items, n + 1);
    }
  }

  function Sum(times: seq<int>): int {
    if times == [] then 0 else Sum(times[..|times| - 1]) + times[|times| - 1]
  }

  lemma {:induction false} NoLeaves(items: seq<ProtoItem>)
    ensures AllLeaves(items, 0) == [] && Sum([]) == 0
  {
  }

  lemma {:induction false} SumPush(times: seq<int>, t: int)
    ensures Sum(times + [t]) == Sum(times) + t
  {
    assert (times + [t])[..|times|] == times;
  }

  /* ---------- building items ---------- */

  /** What a scenario is made of: resolved steps and concepts, and items that are not executed. */
  datatype ItemPlan = StepPlan(plan: Plan) | OtherPlan

  function PlanLeaves(plan: Plan): seq<Plan>
    decreases plan, 1
  {
    match plan
    case Leaf(_, _) => [plan]
    case Group(_, _, steps) => StepLeaves(steps, |steps|)
  }

  function StepLeaves(plans: seq<Plan>, n: nat): seq<Plan>
    requires n <= |plans|
    decreases plans, 0, n
  {
    if n == 0 then [] else StepLeaves(plans, n - 1) + PlanLeaves(plans[n - 1])
  }

  function ItemLeaves(plans: seq<ItemPlan>, n: nat): seq<Plan>
    requires n <= |plans|
  {
    if n == 0 then []
    else ItemLeaves(plans, n - 1) + if plans[n - 1].StepPlan? then PlanLeaves(plans[n - 1].plan) else []
  }

  /** An item has the shape of its plan, with every step inside a concept. */
  predicate Mirrors(item: ProtoItem, plan: Plan)
    decreases plan
  {
    match plan
    case Leaf(value, parameters) => item.StepItem? && item.value == value && item.parameters == parameters
    case Group(value, args, steps) =>
      && item.ConceptItem? && item.value == value && item.args == args && |item.steps| == |steps|
      && forall i :: 0 <= i < |steps| ==> Mirrors(item.steps[i], steps[i])
  }

  predicate AllMirror(items: seq<ProtoItem>, plans: seq<ItemPlan>) {
    && |items| == |plans|
    && forall i :: 0 <= i < |items| ==>
         if plans[i].StepPlan? then Mirrors(items[i], plans[i].plan) else items[i].OtherItem?
  }

  /** One more item with slots of its own. */
  lemma {:induction false} PushItem(items: seq<ProtoItem>, item: ProtoItem)
    requires AllSeparate(items) && Separate(item) && AllSlots(items) !! Slots(item)
    ensures AllSeparate(items + [item])
    ensures AllSlots(items + [item]) == AllSlots(items) + Slots(item)
    ensures AllLeaves(items + [item], |items| + 1) == AllLeaves(items, |items|) + Leaves(item)
  {
    hide Slots, Separate, Leaves;
    var all := items + [item];
    forall i | 0 <= i < |items|
      ensures Slots(items[i]) <= AllSlots(items)
    {
      SlotsOfOne(items, i);
    }
    assert forall i :: 0 <= i < |items| ==> all[i] == items[i];
    assert all[|items|] == item;
    SameLeaves(items, all, |items|);
  }

  lemma {:induction false} SameLeaves(items: seq<ProtoItem>, all: seq<ProtoItem>, n: nat)
    requires n <= |items| && items <= all
    ensures AllLeaves(all, n) == AllLeaves(items, n)
  {
    hide Leaves;
    if n > 0 {
      SameLeaves(items, all, n - 1);
    }
  }

  lemma {:induction false} NoItems()
    ensures AllSeparate([]) && AllSlots([]) == {} && AllLeaves([], 0) == []
  {
  }

  method NewItem(plan: Plan) returns (item: ProtoItem)
    ensures Separate(item) && fresh(Slots(item)) && Unrun(Slots(item))
    ensures Mirrors(item, plan) && Leaves(item) == PlanLeaves(plan)
    decreases plan, 1
  {
    var slot := new ResultSlot();
    match plan
    case Leaf(value, parameters) =>
      item := StepItem(value, parameters, slot);
    case Group(value, args, steps) =>
      var conceptStep := new ResultSlot();
      var inner := NewSteps(steps);
      item := ConceptItem(value, args, conceptStep, slot, inner);
  }

  method NewSteps(plans: seq<Plan>) returns (items: seq<ProtoItem>)
    ensures AllSeparate(items) && fresh(AllSlots(items)) && Unrun(AllSlots(items))
    ensures |items| == |plans| && forall i :: 0 <= i < |items| ==> Mirrors(items[i], plans[i])
    ensures AllLeaves(items, |items|) == StepLeaves(plans, |plans|)
    decreases plans, 0
  {
    hide Separate, AllSeparate, Slots, AllSlots, Leaves, AllLeaves, PlanLeaves, Mirrors;
    items := [];
    NoItems();
    for i := 0 to |plans|
      invariant AllSeparate(items) && fresh(AllSlots(items)) && Unrun(AllSlots(items))
      invariant |items| == i && forall k :: 0 <= k < i ==> Mirrors(items[k], plans[k])
      invariant AllLeaves(items, |items|) == StepLeaves(plans, i)
    {
      assert allocated(AllSlots(items));
      var item := NewItem(plans[i]);
      PushItem(items, item);
      items := items + [item];
    }
  }

  method NewItems(plans: seq<ItemPlan>) returns (items: seq<ProtoItem>)
    ensures AllSeparate(items) && fresh(AllSlots(items)) && Unrun(AllSlots(items))
    ensures AllMirror(items, plans) && AllLeaves(items, |items|) == ItemLeaves(plans, |plans|)
  {
    hide Separate, AllSeparate, Slots, AllSlots, Leaves, AllLeaves, PlanLeaves, Mirrors;
    items := [];
    NoItems();
    for i := 0 to |plans|
      invariant AllSeparate(items) && fresh(AllSlots(items)) && Unrun(AllSlots(items))
      invariant AllMirror(items, plans[..i]) && AllLeaves(items, |items|) == ItemLeaves(plans, i)
    {
      assert allocated(AllSlots(items));
      var item := OtherItem;
      if plans[i].StepPlan? {
        item := NewItem(plans[i].plan);
      } else {
        OtherParts();
      }
      PushItem(items, item);
      items := items + [item];
    }
    assert plans[..|plans|] == plans;
  }

  lemma {:induction false} OtherParts()
    ensures Separate(OtherItem) && Slots(OtherItem) == {} && Leaves(OtherItem) == []
  {
  }
}
