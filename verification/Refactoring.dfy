/** Rephrasing a step: every step with the old text takes the new text, and its arguments are put
    where the new text has the same parameters. */
module Refactoring {
  import opened Text
  import opened Substitution
  import opened ConceptSteps

  /** A step text with its parameters. */
  datatype Phrase = Phrase(value: string, args: seq<Arg>)

  /** How a parameter reads; parameters are the same when they read the same. */
  type Reading = Arg -> string

  /** `SliceIndex` over the parameters of a phrase: the first that reads like this, or -1. */
  function IndexOf(args: seq<Arg>, text: string, reading: Reading, from: nat): (i: int)
    requires from <= |args|
    ensures i == -1 || from <= i < |args|
    ensures i >= 0 ==> reading(args[i]) == text
    ensures forall k :: from <= k < (if i < 0 then |args| else i) ==> reading(args[k]) != text
    decreases |args| - from
  {
    if from == |args| then -1 else if reading(args[from]) == text then from else IndexOf(args, text, reading, from + 1)
  }

  method SliceIndex(args: seq<Arg>, text: string, reading: Reading) returns (index: int)
    ensures index == IndexOf(args, text, reading, 0)
  {
    var i := 0;
    while i < |args|
      invariant 0 <= i <= |args| && IndexOf(args, text, reading, 0) == IndexOf(args, text, reading, i)
    {
      if reading(args[i]) == text {
        return i;
      }
      i := i + 1;
    }
    return -1;
  }

  /** For each new position the old position of the same parameter, or -1. */
  type Order = map<int, int>

  ghost predicate OrderOf(order: Order, from: seq<Arg>, to: seq<Arg>, reading: Reading) {
    && (forall i :: i in order <==> 0 <= i < |to|)
    && forall i :: 0 <= i < |to| ==> order[i] == IndexOf(from, reading(to[i]), reading, 0)
  }

  method CreateOrderOfArgs(oldStep: Phrase, newStep: Phrase, reading: Reading) returns (order: Order)
    ensures OrderOf(order, oldStep.args, newStep.args, reading)
  {
    order := map[];
    for i := 0 to |newStep.args|
      invariant forall k :: k in order <==> 0 <= k < i
      invariant forall k :: 0 <= k < i ==> order[k] == IndexOf(oldStep.args, reading(newStep.args[k]), reading, 0)
    {
      var index := SliceIndex(oldStep.args, reading(newStep.args[i]), reading);
      order := order[i := index];
    }
  }

  /** The argument at a new position: the old one, or one with the value of the new text. */
  function ArgAt(args: seq<Arg>, newArg: Arg, from: int, isConcept: bool): Arg
    requires from < |args|
  {
    if from >= 0 then args[from]
    else Arg("", newArg.value, if isConcept then DynamicArg else StaticArg, None)
  }

  /** The arguments of a step that had the phrase `from` and takes the phrase `to`. */
  function Reordered(args: seq<Arg>, from: seq<Arg>, to: seq<Arg>, reading: Reading, isConcept: bool): (r: seq<Arg>)
    requires |args| == |from|
    ensures |r| == |to|
  {
    seq(|to|, i requires 0 <= i < |to| => ArgAt(args, to[i], IndexOf(from, reading(to[i]), reading, 0), isConcept))
  }

  /** What stands at the place of a parameter of the new text: the argument that the first old
      parameter which reads the same had. When there is none it is the text of the parameter, as a
      static argument, or in a concept as a dynamic one. */
  ghost predicate TakesPlace(
      arg: Arg, parameter: Arg, args: seq<Arg>, from: seq<Arg>, reading: Reading, isConcept: bool)
    requires |args| == |from|
  {
    if exists j :: 0 <= j < |from| && reading(from[j]) == reading(parameter) then
      exists j :: 0 <= j < |from| && reading(from[j]) == reading(parameter) && arg == args[j]
        && forall k :: 0 <= k < j ==> reading(from[k]) != reading(parameter)
    else
      && arg.value == parameter.value && arg.name == "" && arg.table.None?
      && if isConcept then arg.argType.DynamicArg? else arg.argType.StaticArg?
  }

  lemma {:induction false} HasMember(keys: set<int>)
    ensures keys == {} || exists key :: key in keys
  {
    if forall key :: key !in keys {
      assert keys == {};
    }
  }

  /** `getArgsInOrder`: the order map yields the positions in any order. */
  method GetArgsInOrder(step: Step, oldStep: Phrase, newStep: Phrase, order: Order, ghost reading: Reading)
      returns (args: seq<Arg>)
    requires OrderOf(order, oldStep.args, newStep.args, reading) && |step.args| == |oldStep.args|
    ensures args == Reordered(step.args, oldStep.args, newStep.args, reading, step.isConcept)
    ensures |args| == |newStep.args|
    ensures forall i :: 0 <= i < |args| ==>
              TakesPlace(args[i], newStep.args[i], step.args, oldStep.args, reading, step.isConcept)
  {
    ghost var goal := Reordered(step.args, oldStep.args, newStep.args, reading, step.isConcept);
    args := newStep.args;
    var keys := order.Keys;
    while keys != {}
      invariant |args| == |goal| && keys <= order.Keys
      invariant forall k :: 0 <= k < |goal| && k !in keys ==> args[k] == goal[k]
      decreases keys
    {
      HasMember(keys);
      var key :| key in keys;
      args := args[key := ArgAt(step.args, newStep.args[key], order[key], step.isConcept)];
      keys := keys - {key};
    }
  }

  predicate Matches(value: string, phrase: Phrase) {
    TrimSpace(value) == TrimSpace(phrase.value)
  }

  /** `rename`; the flag is passed on when the step has another text. */
  method Rename(step: Step, oldStep: Phrase, newStep: Phrase, isRefactored: bool, order: Order, ghost reading: Reading)
      returns (refactored: bool)
    requires OrderOf(order, oldStep.args, newStep.args, reading)
    requires Matches(step.value, oldStep) ==> |step.args| == |oldStep.args|
    modifies step`value, step`args
    ensures refactored == (isRefactored || old(Matches(step.value, oldStep)))
    ensures !old(Matches(step.value, oldStep)) ==> step.value == old(step.value) && step.args == old(step.args)
    ensures old(Matches(step.value, oldStep)) ==>
              && step.value == newStep.value
              && step.args == Reordered(old(step.args), oldStep.args, newStep.args, reading, step.isConcept)
  {
    if TrimSpace(step.value) != TrimSpace(oldStep.value) {
      return isRefactored;
    }
    step.args := GetArgsInOrder(step, oldStep, newStep, order, reading);
    step.value := newStep.value;
    return true;
  }

  /** A step after renaming. */
  twostate predicate Renamed(step: Step, oldStep: Phrase, newStep: Phrase, reading: Reading)
    reads step`value, step`args, step`isConcept
  {
    && (old(Matches(step.value, oldStep)) ==> |old(step.args)| == |oldStep.args|)
    && (step.value, step.args) ==
       old(AfterRename(step.value, step.args, step.isConcept, oldStep, newStep, reading))
  }

  ghost predicate AnyMatches(steps: seq<Step>, phrase: Phrase)
    reads (set s | s in steps)`value
  {
    exists s :: s in steps && Matches(s.value, phrase)
  }

  twostate predicate AllRenamed(steps: seq<Step>, oldStep: Phrase, newStep: Phrase, reading: Reading)
    reads (set s | s in steps)`value, (set s | s in steps)`args, (set s | s in steps)`isConcept
  {
    forall s :: s in steps ==> Renamed(s, oldStep, newStep, reading)
  }

  /** The steps of the contexts or of one scenario. */
  method RenameAll(steps: seq<Step>, oldStep: Phrase, newStep: Phrase, order: Order, ghost reading: Reading)
      returns (isRefactored: bool)
    requires OrderOf(order, oldStep.args, newStep.args, reading)
    requires forall i, j :: 0 <= i < j < |steps| ==> steps[i] != steps[j]
    requires forall s :: s in steps && Matches(s.value, oldStep) ==> |s.args| == |oldStep.args|
    modifies (set s | s in steps)`value, (set s | s in steps)`args
    ensures isRefactored == old(AnyMatches(steps, oldStep))
    ensures AllRenamed(steps, oldStep, newStep, reading)
  {
    hide Matches, OrderOf, Reordered;
    isRefactored := false;
    for i := 0 to |steps|
      invariant isRefactored <==> exists k :: 0 <= k < i && old(Matches(steps[k].value, oldStep))
      invariant forall k :: i <= k < |steps| ==>
                steps[k].value == old(steps[k].value) && steps[k].args == old(steps[k].args)
      invariant forall k :: 0 <= k < i ==> Renamed(steps[k], oldStep, newStep, reading)
    {
      isRefactored := Rename(steps[i], oldStep, newStep, isRefactored, order, reading);
    }
  }

  /* ---------- there and back ---------- */

  /** Every parameter of one phrase occurs in the other, and none occurs twice. */
  ghost predicate Carries(from: seq<Arg>, to: seq<Arg>, reading: Reading) {
    && (forall i, j :: 0 <= i < j < |from| ==> reading(from[i]) != reading(from[j]))
    && forall i :: 0 <= i < |from| ==> exists j :: 0 <= j < |to| && reading(to[j]) == reading(from[i])
  }

  function ThereAndBack(args: seq<Arg>, from: seq<Arg>, to: seq<Arg>, reading: Reading, isConcept: bool): seq<Arg>
    requires |args| == |from|
  {
    Reordered(Reordered(args, from, to, reading, isConcept), to, from, reading, isConcept)
  }

  /** The position that comes back to position `i`. */
  lemma {:induction false} ComesBack(args: seq<Arg>, from: seq<Arg>, to: seq<Arg>, reading: Reading, isConcept: bool,
      i: nat)
    requires |args| == |from| && i < |from|
    ensures var j := IndexOf(to, reading(from[i]), reading, 0);
            ThereAndBack(args, from, to, reading, isConcept)[i] ==
            if j < 0 then ArgAt([], from[i], -1, isConcept) else args[IndexOf(from, reading(from[i]), reading, 0)]
  {
  }

  function Letters(n: nat): string {
    seq(n, i => 'a')
  }

  /** Arguments that are all different, and different from the ones that renaming makes up. */
  function Markers(n: nat): (args: seq<Arg>)
    ensures |args| == n
    ensures forall i :: 0 <= i < n ==> |args[i].name| == i + 1
  {
    seq(n, i requires 0 <= i => Arg(Letters(i + 1), "", StaticArg, None))
  }

  /** Renaming there and back gives every step its arguments back exactly when all parameters of
      the old text are different and occur in the new text. */
  lemma {:induction false} ThereAndBackIff(from: seq<Arg>, to: seq<Arg>, reading: Reading, isConcept: bool)
    ensures Carries(from, to, reading) <==>
            forall args: seq<Arg> :: |args| == |from| ==> ThereAndBack(args, from, to, reading, isConcept) == args
  {
    hide IndexOf, Reordered, Markers;
    if Carries(from, to, reading) {
      forall args: seq<Arg> | |args| == |from|
        ensures ThereAndBack(args, from, to, reading, isConcept) == args
      {
        forall i | 0 <= i < |from|
          ensures ThereAndBack(args, from, to, reading, isConcept)[i] == args[i]
        {
          ComesBack(args, from, to, reading, isConcept, i);
        }
      }
    } else {
      var args := Markers(|from|);
      forall i | 0 <= i < |from| && ThereAndBack(args, from, to, reading, isConcept)[i] == args[i]
        ensures IndexOf(to, reading(from[i]), reading, 0) >= 0 && IndexOf(from, reading(from[i]), reading, 0) == i
      {
        ComesBack(args, from, to, reading, isConcept, i);
      }
      assert ThereAndBack(args, from, to, reading, isConcept) != args;
    }
  }

  /** Renaming a step from one text to another and back: its arguments are the same again and its
      text is, up to blanks at the ends. */
  lemma {:induction false} StepComesBack(value: string, args: seq<Arg>, isConcept: bool, oldStep: Phrase,
      newStep: Phrase, reading: Reading)
    requires Matches(value, oldStep) ==> |args| == |oldStep.args|
    requires !Matches(value, newStep) && Carries(oldStep.args, newStep.args, reading)
    ensures var (v, a) := AfterRename(value, args, isConcept, oldStep, newStep, reading);
            && (Matches(v, newStep) ==> |a| == |newStep.args|)
            && var (w, b) := AfterRename(v, a, isConcept, newStep, oldStep, reading);
            TrimSpace(w) == TrimSpace(value) && b == args
  {
    hide Carries, TrimSpace;
    ThereAndBackIff(oldStep.args, newStep.args, reading, isConcept);
  }

  /** The text and the arguments of a step after renaming. */
  function AfterRename(value: string, args: seq<Arg>, isConcept: bool, oldStep: Phrase, newStep: Phrase,
      reading: Reading)
    : (string, seq<Arg>)
    requires Matches(value, oldStep) ==> |args| == |oldStep.args|
  {
    if Matches(value, oldStep) then (newStep.value, Reordered(args, oldStep.args, newStep.args, reading, isConcept))
    else (value, args)
  }

  /* ---------- a whole specification ---------- */

  /** The scenarios of a specification. */
  method RenameScenarios(scenarios: seq<seq<Step>>, oldStep: Phrase, newStep: Phrase, order: Order,
      ghost reading: Reading)
      returns (isRefactored: bool)
    requires OrderOf(order, oldStep.args, newStep.args, reading)
    requires Apart(scenarios)
    requires forall s :: s in AllOf(scenarios) && Matches(s.value, oldStep) ==> |s.args| == |oldStep.args|
    modifies AllOf(scenarios)`value, AllOf(scenarios)`args
    ensures isRefactored <==> exists k :: 0 <= k < |scenarios| && old(AnyMatches(scenarios[k], oldStep))
    ensures forall s :: s in AllOf(scenarios) ==> Renamed(s, oldStep, newStep, reading)
  {
    hide Matches, OrderOf, Apart, AfterRename, AnyMatches;
    ListsApart(scenarios);
    isRefactored := false;
    for i := 0 to |scenarios|
      invariant isRefactored <==> exists k :: 0 <= k < i && old(AnyMatches(scenarios[k], oldStep))
      invariant forall k, s: Step :: i <= k < |scenarios| && s in scenarios[k] ==>
                  s.value == old(s.value) && s.args == old(s.args)
      invariant forall k, s :: 0 <= k < i && s in scenarios[k] ==> Renamed(s, oldStep, newStep, reading)
    {
      var refactor := RenameAll(scenarios[i], oldStep, newStep, order, reading);
      if refactor {
        isRefactored := refactor;
      }
    }
  }

  /** `renameSteps` of a specification: the flag tells whether some step had the old text. */
  method RenameSteps(contexts: seq<Step>, scenarios: seq<seq<Step>>, oldStep: Phrase, newStep: Phrase, order: Order,
                     ghost reading: Reading)
      returns (isRefactored: bool)
    requires OrderOf(order, oldStep.args, newStep.args, reading)
    requires Apart([contexts]) && Apart(scenarios) && forall s :: s in contexts ==> s !in AllOf(scenarios)
    requires forall s :: (s in contexts || s in AllOf(scenarios)) && Matches(s.value, oldStep) ==>
             |s.args| == |oldStep.args|
    modifies (set s | s in contexts)`value, (set s | s in contexts)`args, AllOf(scenarios)`value, AllOf(scenarios)`args
    ensures isRefactored <==>
            exists s :: (s in contexts || s in AllOf(scenarios)) && old(Matches(s.value, oldStep))
    ensures forall s :: s in contexts || s in AllOf(scenarios) ==> Renamed(s, oldStep, newStep, reading)
  {
    hide OrderOf, AfterRename, Matches;
    ListsApart([contexts]);
    assert [contexts][0] == contexts && allocated(AllOf(scenarios));
    isRefactored := RenameAll(contexts, oldStep, newStep, order, reading);
    var refactor := RenameScenarios(scenarios, oldStep, newStep, order, reading);
    if refactor {
      isRefactored := refactor;
    }
  }

  /** What a step is after renaming there and back. */
  twostate predicate CameBack(step: Step, oldStep: Phrase)
    reads step`value, step`args
  {
    && step.args == old(step.args) && TrimSpace(step.value) == TrimSpace(old(step.value))
    && (!old(Matches(step.value, oldStep)) ==> step.value == old(step.value))
  }

  /** Renaming a specification from one text to another and back: when no step had the new text and
      the new text has all the different parameters of the old one, the second renaming finds exactly
      the steps that the first one changed, and every step has its arguments back, and its text up to
      blanks at the ends. */
  method RenameThereAndBack(contexts: seq<Step>, scenarios: seq<seq<Step>>, oldStep: Phrase, newStep: Phrase,
                            there: Order, back: Order, ghost reading: Reading)
      returns (went: bool, came: bool)
    requires OrderOf(there, oldStep.args, newStep.args, reading) && OrderOf(back, newStep.args, oldStep.args, reading)
    requires Apart([contexts]) && Apart(scenarios) && forall s :: s in contexts ==> s !in AllOf(scenarios)
    requires forall s :: s in contexts || s in AllOf(scenarios) ==>
               !Matches(s.value, newStep) && (Matches(s.value, oldStep) ==> |s.args| == |oldStep.args|)
    requires Carries(oldStep.args, newStep.args, reading)
    modifies (set s | s in contexts)`value, (set s | s in contexts)`args, AllOf(scenarios)`value, AllOf(scenarios)`args
    ensures went == came
    ensures went <==> exists s :: (s in contexts || s in AllOf(scenarios)) && old(Matches(s.value, oldStep))
    ensures forall s :: s in contexts || s in AllOf(scenarios) ==> CameBack(s, oldStep)
  {
    hide OrderOf, Apart, AfterRename, Matches, Carries, AllOf, TrimSpace;
    assert allocated(AllOf(scenarios));
    went := RenameSteps(contexts, scenarios, oldStep, newStep, there, reading);
    forall s | s in contexts || s in AllOf(scenarios)
      ensures Matches(s.value, newStep) <==> old(Matches(s.value, oldStep))
      ensures Matches(s.value, newStep) ==> |s.args| == |newStep.args|
    {
      RenamedMatches(old(s.value), old(s.args), s.isConcept, oldStep, newStep, reading);
    }
    label renamed:
    came := RenameSteps(contexts, scenarios, newStep, oldStep, back, reading);
    forall s | s in contexts || s in AllOf(scenarios) ensures CameBack(s, oldStep) {
      StepComesBack(old(s.value), old(s.args), s.isConcept, oldStep, newStep, reading);
      if !old(Matches(s.value, oldStep)) {
        NotRenamed(old(s.value), old(s.args), s.isConcept, oldStep, newStep, reading);
      }
      assert old@renamed(s.isConcept) == s.isConcept;
    }
  }

  lemma {:induction false} RenamedMatches(value: string, args: seq<Arg>, isConcept: bool, oldStep: Phrase,
      newStep: Phrase, reading: Reading)
    requires Matches(value, oldStep) ==> |args| == |oldStep.args|
    requires !Matches(value, newStep)
    ensures var (v, a) := AfterRename(value, args, isConcept, oldStep, newStep, reading);
            && (Matches(v, newStep) <==> Matches(value, oldStep)) && (Matches(v, newStep) ==> |a| == |newStep.args|)
  {
    hide Reordered, TrimSpace;
  }

  lemma {:induction false} NotRenamed(value: string, args: seq<Arg>, isConcept: bool, oldStep: Phrase, newStep: Phrase,
      reading: Reading)
    requires Matches(value, oldStep) ==> |args| == |oldStep.args|
    requires !Matches(value, newStep) && !Matches(value, oldStep)
    ensures AfterRename(value, args, isConcept, oldStep, newStep, reading) == (value, args)
    ensures AfterRename(value, args, isConcept, newStep, oldStep, reading) == (value, args)
  {
    hide Reordered, TrimSpace;
  }

  ghost function AllOf(lists: seq<seq<Step>>): set<Step> {
    set k, s | 0 <= k < |lists| && s in lists[k] :: s
  }

  lemma {:induction false} ListsApart(lists: seq<seq<Step>>)
    requires Apart(lists)
    ensures forall k :: 0 <= k < |lists| ==> forall s :: s in lists[k] ==> s in AllOf(lists)
    ensures forall k :: 0 <= k < |lists| ==> forall i, j :: 0 <= i < j < |lists[k]| ==> lists[k][i] != lists[k][j]
    ensures forall k, m :: 0 <= k < m < |lists| ==> forall s :: s in lists[k] ==> s !in lists[m]
  {
  }

  /** No step object occurs twice. */
  ghost predicate Apart(lists: seq<seq<Step>>) {
    && (forall k, i, j :: 0 <= k < |lists| && 0 <= i < j < |lists[k]| ==> lists[k][i] != lists[k][j])
    && forall k, m, s :: 0 <= k < m < |lists| && s in lists[k] ==> s !in lists[m]
  }
}
