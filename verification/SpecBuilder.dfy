/** Building a specification from tokens: nine converters that look at a state bitmask. Every
    access to the latest scenario, step, context or argument is safe because of what the
    bitmask implies. */
module SpecBuilder {
  import opened Text
  import opened StepText
  import opened StepFormat
  import opened Tables
  import opened TableText
  import opened Substitution
  import opened Fragments
  import opened Specification
  import opened SpecScopes
  import opened SpecOutline

  datatype Warning = MultipleDataTables | NoSpecForTable | NoStepForTable | SpecialAsDynamic | UnresolvedCell

  /** Panicked is where the program stops with an index out of range. */
  datatype Outcome = Done | Failed(error: BuildError) | Panicked

  /** A token is refused exactly when there is an objection to it, and otherwise it may stop the
      program. */
  predicate Ends(objection: Option<BuildError>, stops: bool, outcome: Outcome) {
    match objection
    case Some(error) => outcome == Failed(error)
    case None => outcome == if stops then Panicked else Done
  }

  /** Two scenarios of a specification may not have the same name. */
  ghost predicate DistinctHeadings(scenarios: seq<Scenario>, lower: string -> string) {
    forall i, j :: 0 <= i < j < |scenarios| ==> lower(scenarios[i].heading) != lower(scenarios[j].heading)
  }

  /** The last argument is a table, and the text of the step can be split. */
  ghost predicate HasTable(step: Step)
    reads step`args, step`value
  {
    Fits(step.GetShape()) && step.args != [] && step.args[|step.args| - 1].argType.TableArg?
      && step.args[|step.args| - 1].table.Some?
  }

  /** The line of an outline for an item. */
  ghost function EntryOf(item: Item): Entry
    reads if item.StepItem? then {item.step} else {}
  {
    match item
    case StepItem(step) => StepEntry(step.lineText, step.value, step.args)
    case ScenarioItem(scenario) => ScenarioEntry(scenario.heading)
    case CommentItem(text) => CommentEntry(text)
    case TagsItem(values) => TagsEntry(values)
    case TableItem => TableEntry
    case ExternalTableItem(value) => ExternalTableEntry(value)
  }

  /** The steps among some items. */
  ghost function StepObjects(items: seq<Item>): set<Step> {
    set k | 0 <= k < |items| && items[k].StepItem? :: items[k].step
  }

  ghost function Entries(items: seq<Item>): (entries: seq<Entry>)
    reads StepObjects(items)
    ensures |entries| == |items|
    ensures forall k :: 0 <= k < |items| ==>
              assert items[k].StepItem? ==> items[k].step in StepObjects(items); entries[k] == EntryOf(items[k])
  {
    seq(|items|, k requires 0 <= k < |items| reads StepObjects(items) =>
      assert items[k].StepItem? ==> items[k].step in StepObjects(items); EntryOf(items[k]))
  }

  ghost function BodySteps(scenarios: seq<Scenario>): set<Step>
    reads (set s | s in scenarios)`items
  {
    set s, x | s in scenarios && x in StepObjects(s.items) :: x
  }

  ghost function BodyOf(scenario: Scenario): Body
    reads scenario`items, StepObjects(scenario.items)
  {
    Body(scenario.heading, Entries(scenario.items))
  }

  ghost function Bodies(scenarios: seq<Scenario>): (bodies: seq<Body>)
    reads (set s | s in scenarios)`items, BodySteps(scenarios)
    ensures |bodies| == |scenarios|
    ensures forall k :: 0 <= k < |scenarios| ==>
              assert forall x :: x in StepObjects(scenarios[k].items) ==> x in BodySteps(scenarios);
              bodies[k] == BodyOf(scenarios[k])
  {
    if scenarios == [] then []
    else
      var n := |scenarios| - 1;
      assert forall x :: x in BodySteps(scenarios[..n]) ==> x in BodySteps(scenarios);
      assert forall x :: x in StepObjects(scenarios[n].items) ==> x in BodySteps(scenarios);
      Bodies(scenarios[..n]) + [BodyOf(scenarios[n])]
  }

  lemma {:induction false} EntryAdded(items: seq<Item>, item: Item)
    ensures Entries(items + [item]) == Entries(items) + [EntryOf(item)]
  {
    hide EntryOf;
    assert forall k :: 0 <= k < |items| ==> (items + [item])[k] == items[k];
  }

  /** No step is listed twice. */
  predicate NoneTwice(steps: seq<Step>) {
    forall i, j :: 0 <= i < j < |steps| ==> steps[i] != steps[j]
  }

  /** Step texts without a literal placeholder, and tables with columns. */
  ghost predicate GoodToken(token: Token, resolve: string -> Resolution) {
    && (token.kind.StepKind? ==>
          && CountHoles(Extract(token.value).0) == |Kinds(token.value)|
          && forall i :: 0 <= i < |token.args| ==>
               resolve(token.args[i]).Resolved? ==> Convertible(resolve(token.args[i]).arg))
    && (token.kind.TableHeader? ==> token.args != [])
    && (token.kind.DataTableKind? ==> token.table.headers != [])
  }

  /** What reading a specification ends with. Stopped is an index out of range. */
  datatype BuildResult = Built(builder: Builder) | Refused(error: BuildError) | Stopped

  ghost predicate AllGood(tokens: seq<Token>, resolve: string -> Resolution) {
    forall i :: 0 <= i < |tokens| ==> GoodToken(tokens[i], resolve)
  }

  /** The first token that is objected to, or the whole specification, is the reason. */
  ghost predicate RefusedFor(tokens: seq<Token>, error: BuildError, resolve: string -> Resolution,
      lower: string -> string) {
    || (exists i :: 0 <= i < |tokens| && Accepted(tokens, i, resolve, lower)
          && Objection(Read(tokens, i, resolve), tokens[i], resolve, lower) == Some(error))
    || (Accepted(tokens, |tokens|, resolve, lower) && Verdict(Read(tokens, |tokens|, resolve)) == Some(error))
  }

  /** The program stops at the first step or table of a step that cannot be split, or when it
      counts the rows of a table without columns. */
  ghost predicate StoppedFor(tokens: seq<Token>, resolve: string -> Resolution, lower: string -> string) {
    || (exists i :: 0 <= i < |tokens| && Accepted(tokens, i, resolve, lower)
          && Objection(Read(tokens, i, resolve), tokens[i], resolve, lower).None?
          && Stops(Read(tokens, i, resolve), tokens[i], resolve))
    || (Accepted(tokens, |tokens|, resolve, lower) && Columnless(Read(tokens, |tokens|, resolve)))
  }

  /** Every token passes and so does the whole specification. */
  ghost predicate BuiltFrom(tokens: seq<Token>, resolve: string -> Resolution, lower: string -> string) {
    && Accepted(tokens, |tokens|, resolve, lower) && Verdict(Read(tokens, |tokens|, resolve)).None?
    && !Columnless(Read(tokens, |tokens|, resolve))
  }

  class Builder {
    const resolve: string -> Resolution
    const lower: string -> string
    const spec: Specification
    var state: bv16
    var warnings: seq<Warning>

    constructor (resolve: string -> Resolution, lower: string -> string)
      ensures fresh(spec) && this.resolve == resolve && this.lower == lower
      ensures Valid() && Sound() && AllSteps() == {} && spec.scenarios == [] && Outlined() == NOTHING
    {
      this.resolve, this.lower := resolve, lower;
      spec := new Specification();
      state, warnings := INITIAL, [];
      new;
      NoScopes();
    }

    ghost function AllSteps(): set<Step>
      reads spec`scenarios, spec`contexts, (set s | s in spec.scenarios)`steps
    {
      (set s | s in spec.contexts) + (set scenario, s | scenario in spec.scenarios && s in scenario.steps :: s)
    }

    /** The scopes of the bitmask are backed by what has been built. */
    ghost predicate InScope()
      reads `state, spec, spec.scenarios, AllSteps()
    {
      Backed(ScopesOf(state)) && TableOwner(ScopesOf(state))
    }

    ghost predicate Backed(s: Scopes)
      reads spec, spec.scenarios
    {
      && (s.spec <==> spec.heading.Some?)
      && (s.scenario ==> s.spec && spec.scenarios != [])
      && (s.step ==> s.scenario && spec.scenarios[|spec.scenarios| - 1].steps != [])
      && (s.context ==> !s.scenario && spec.contexts != [])
    }

    /** A row of a table has a table to go to. */
    ghost predicate TableOwner(s: Scopes)
      reads spec`scenarios, spec`contexts, spec`dataTable, (set s | s in spec.scenarios)`steps, AllSteps()
    {
      s.table ==>
        if s.step || s.context then exists step :: step in AllSteps() && Latest(s, step) && HasTable(step)
        else !s.scenario && spec.dataTable.Some?
    }

    /** The step that a table would belong to: the latest one of the open scope. */
    ghost predicate Latest(s: Scopes, step: Step)
      reads spec`scenarios, spec`contexts, (set s | s in spec.scenarios)`steps
    {
      if s.step then
        && spec.scenarios != []
        && var steps := spec.scenarios[|spec.scenarios| - 1].steps;
        steps != [] && step == steps[|steps| - 1]
      else s.context && spec.contexts != [] && step == spec.contexts[|spec.contexts| - 1]
    }

    ghost predicate Valid()
      reads `state, spec, spec.scenarios, AllSteps()
    {
      Projected() && DistinctHeadings(spec.scenarios, lower) && InScope()
    }

    ghost predicate Projected()
      reads spec`scenarios, spec`contexts, spec`comments, spec`items
      reads (set s | s in spec.scenarios)`steps, (set s | s in spec.scenarios)`comments,
        (set s | s in spec.scenarios)`items
    {
      spec.Projected() && (forall s :: s in spec.scenarios ==> s.Projected()) && OnePlace()
    }

    /** Every step is in one place. */
    ghost predicate OnePlace()
      reads spec`scenarios, spec`contexts, (set s | s in spec.scenarios)`steps
    {
      && NoneTwice(spec.contexts)
      && (forall s :: s in spec.scenarios ==> NoneTwice(s.steps) && forall x :: x in s.steps ==> x !in spec.contexts)
      && forall s, t, x :: s in spec.scenarios && t in spec.scenarios && x in s.steps && x in t.steps ==> s == t
    }

    /** All steps among the items are steps of the specification. */
    ghost predicate Listed()
      reads spec`items, spec`scenarios, spec`contexts, (set s | s in spec.scenarios)`steps,
        (set s | s in spec.scenarios)`items
    {
      StepObjects(spec.items) <= AllSteps() && BodySteps(spec.scenarios) <= AllSteps()
    }

    lemma {:induction false} ProjectedLists()
      requires Projected()
      ensures Listed()
    {
      assert spec.Projected() && spec.contexts == StepsIn(spec.items);
      ObjectsAreSteps(spec.items);
      forall x | x in BodySteps(spec.scenarios) ensures x in AllSteps() {
        var s :| s in spec.scenarios && x in StepObjects(s.items);
        assert s.Projected() && s.steps == StepsIn(s.items);
        ObjectsAreSteps(s.items);
      }
    }

    lemma {:induction false} ValidLists()
      requires Valid()
      ensures Listed()
    {
      hide Listed, DistinctHeadings, InScope;
      ProjectedLists();
    }

    twostate lemma {:induction false} KeptLists(token: Token)
      requires Keeps(token, Done)
      ensures Valid() && Listed()
    {
      hide Listed, Valid;
      ValidLists();
    }

    /** The text and the arguments of every step are as they were. */
    twostate predicate SameTexts()
      reads spec`scenarios, spec`contexts, (set s | s in spec.scenarios)`steps, AllSteps()
    {
      forall x :: x in AllSteps() && x in old(AllSteps()) ==> x.value == old(x.value) && x.args == old(x.args)
    }

    /** Every step has as many arguments as placeholders, and every table has columns. */
    ghost predicate Sound()
      reads spec, spec.scenarios, AllSteps()
    {
      AllMatched() && (spec.dataTable.Some? ==> spec.dataTable.value.headers != [])
    }

    ghost predicate AllMatched()
      reads spec`scenarios, spec`contexts, (set s | s in spec.scenarios)`steps, AllSteps()
    {
      forall s :: s in AllSteps() ==> s.Matched()
    }

    /** The columns of the data table. */
    function Names(): seq<string>
      reads spec`dataTable
    {
      Columns(spec.dataTable)
    }

    /** The arguments for the markers of a step, unless one of them names nothing. */
    method CreateArgs(token: Token, kinds: seq<Kind>) returns (ok: bool, args: seq<Arg>)
      requires |kinds| <= |token.args|
      modifies `warnings
      ensures ok <==> !exists i :: 0 <= i < |kinds| && StepArgument(resolve, token.args[i], kinds[i], Names()).None?
      ensures ok ==> |args| == |kinds|
      ensures ok ==>
              forall i :: 0 <= i < |kinds| ==> StepArgument(resolve, token.args[i], kinds[i], Names()) == Some(args[i])
    {
      hide StepArgument;
      args := [];
      for i := 0 to |kinds|
        invariant |args| == i
        invariant forall k :: 0 <= k < i ==> StepArgument(resolve, token.args[k], kinds[k], Names()) == Some(args[k])
      {
        var arg := StepArgument(resolve, token.args[i], kinds[i], Names());
        if kinds[i] == Special && resolve(token.args[i]).InvalidSpecial? {
          warnings := warnings + [SpecialAsDynamic];
        }
        if arg.None? {
          return false, args;
        }
        args := args + [arg.value];
      }
      ok := true;
    }

    /** A step with an argument for every marker of its text. */
    method CreateStepUsingLookup(token: Token) returns (outcome: Outcome, step: Step)
      modifies `warnings
      ensures fresh(step) && step.value == Extract(token.value).0 && step.lineText == TrimSpace(token.lineText)
      ensures Ends(StepObjection(resolve, token, Names()), !Fits(NewShape(resolve, token, Names())), outcome)
      ensures outcome.Done? ==> step.GetShape() == NewShape(resolve, token, Names())
      ensures outcome.Done? ==>
                var kinds := Kinds(token.value);
                && (kinds != [] ==> |kinds| == |token.args|) && |step.args| == |kinds|
                && step.args == NewArgs(resolve, token, Names())
                && forall i :: 0 <= i < |kinds| ==> StandsFor(step.args[i], kinds[i], token.args[i], resolve)
      ensures outcome == Failed(UnresolvedParameter) <==>
              var kinds := Kinds(token.value);
              && kinds != [] && |kinds| == |token.args|
              && exists i :: 0 <= i < |kinds| && NamesNothing(kinds[i], token.args[i], Names(), resolve)
    {
      hide CountHoles, Extract, TrimSpace, StepArgument, Fits, StandsFor, NamesNothing;
      ArgumentsIff(resolve, token, Names());
      var (value, kinds) := Extract(token.value);
      step := new Step(value, TrimSpace(token.lineText));
      if kinds != [] && |kinds| != |token.args| {
        return Failed(MarkerInText), step;
      }
      var found, args := CreateArgs(token, kinds);
      if !found {
        return Failed(UnresolvedParameter), step;
      }
      var ok := step.AddArgs(args);
      assert step.GetShape().shown == NewShape(resolve, token, Names()).shown;
      assert step.args == NewArgs(resolve, token, Names());
      outcome := if ok then Done else Panicked;
    }

    /** A good token gives a step that matches its placeholders. */
    lemma {:induction false} GoodShape(token: Token)
      requires token.kind.StepKind? && GoodToken(token, resolve) && StepObjection(resolve, token, Names()).None?
      ensures var shape := NewShape(resolve, token, Names());
              Fits(shape) && shape.holes == |shape.shown| && forall k :: 0 <= k < |shape.shown| ==> shape.shown[k]
    {
      hide CountHoles, Extract;
    }

    lemma {:induction false} ShapeMatches(step: Step)
      ensures step.Matched() <==>
              var shape := step.GetShape();
              shape.holes == |shape.shown| && forall k :: 0 <= k < |shape.shown| ==> shape.shown[k]
    {
      hide CountHoles;
    }

    /** What every converter keeps: unless the token is refused the specification stays valid,
        with good tokens it stays sound and the program goes on. */
    twostate predicate Keeps(token: Token, outcome: Outcome)
      reads this, spec, spec.scenarios, AllSteps()
    {
      && (outcome.Done? ==> Valid())
      && (old(Sound()) && GoodToken(token, resolve) ==> !outcome.Panicked? && (outcome.Done? ==> Sound()))
      && (forall s :: s in spec.scenarios ==> s in old(spec.scenarios) || fresh(s))
      && (forall s :: s in AllSteps() ==> s in old(AllSteps()) || fresh(s))
    }

    /** No step of before has been touched. */
    twostate lemma {:induction false} TextsKept()
      requires forall x :: x in old(AllSteps()) ==> x.value == old(x.value) && x.args == old(x.args)
      ensures SameTexts()
    {
      hide AllSteps;
    }

    twostate predicate Same()
      reads this, spec, spec.scenarios, AllSteps()
    {
      state == old(state) && warnings == old(warnings) && unchanged(spec) && unchanged(spec.scenarios)
        && unchanged(AllSteps())
    }

    /** The outline of what has been built. */
    ghost function Outlined(): Outline
      reads `state, spec`heading, spec`items, spec`scenarios, spec`contexts, spec`dataTable,
        (set s | s in spec.scenarios)`items, StepObjects(spec.items), BodySteps(spec.scenarios)
      reads (set s | s in spec.scenarios)`steps, AllSteps()`value, AllSteps()`args
    {
      Outline(ScopesOf(state), spec.heading, Entries(spec.items), Bodies(spec.scenarios), spec.dataTable, LatestShape())
    }

    /** The shape of the step that a table would belong to. */
    ghost function LatestShape(): Option<Shape>
      reads `state, spec`scenarios, spec`contexts, (set s | s in spec.scenarios)`steps, AllSteps()`value,
        AllSteps()`args
    {
      var s := ScopesOf(state);
      if s.step && spec.scenarios != [] && spec.scenarios[|spec.scenarios| - 1].steps != [] then
        var steps := spec.scenarios[|spec.scenarios| - 1].steps;
        assert spec.scenarios[|spec.scenarios| - 1] in spec.scenarios && steps[|steps| - 1] in steps;
        Some(steps[|steps| - 1].GetShape())
      else if s.context && spec.contexts != [] then Some(spec.contexts[|spec.contexts| - 1].GetShape())
      else None
    }

    lemma {:induction false} ShapeOfLatest(step: Step)
      requires Latest(ScopesOf(state), step)
      ensures LatestShape() == Some(step.GetShape())
    {
      hide Fits, CountHoles, ShownArgs, ScopesOf;
    }

    lemma {:induction false} NoLatest()
      requires !ScopesOf(state).step && !ScopesOf(state).context
      ensures LatestShape() == None
    {
      hide ScopesOf;
    }

    lemma {:induction false} NoLatestIf()
      ensures !ScopesOf(state).step && !ScopesOf(state).context ==> LatestShape() == None
    {
      hide ScopesOf;
    }

    /** A token is refused exactly when there is an objection, stops the program exactly where it
        has to, and otherwise extends the outline. */
    twostate predicate Contributes(token: Token, outcome: Outcome)
      reads `state, spec`heading, spec`items, spec`scenarios, spec`contexts, spec`dataTable,
        (set s | s in spec.scenarios)`items, StepObjects(spec.items), BodySteps(spec.scenarios)
      reads (set s | s in spec.scenarios)`steps, AllSteps()`value, AllSteps()`args
    {
      match Objection(old(Outlined()), token, resolve, lower)
      case Some(error) => outcome == Failed(error)
      case None =>
        if Stops(old(Outlined()), token, resolve) then outcome.Panicked?
        else outcome.Done? && Outlined() == Advance(old(Outlined()), token, resolve)
    }

    /** The items are the same everywhere. */
    twostate predicate SameItems()
      reads spec`items, spec`scenarios, (set s | s in spec.scenarios)`items
    {
      && spec.items == old(spec.items) && spec.scenarios == old(spec.scenarios)
      && forall s :: s in spec.scenarios ==> s.items == old(s.items)
    }

    /** One more item of the specification that is no scenario. */
    twostate predicate OneMoreItem()
      reads spec`items, spec`scenarios, (set s | s in spec.scenarios)`items
    {
      && |spec.items| == |old(spec.items)| + 1 && old(spec.items) <= spec.items
      && spec.scenarios == old(spec.scenarios) && forall s :: s in spec.scenarios ==> s.items == old(s.items)
    }

    /** One more scenario, with nothing in it. */
    twostate predicate OneMoreScenario()
      reads spec`items, spec`scenarios, (set s | s in spec.scenarios)`items
    {
      && |spec.items| == |old(spec.items)| + 1 && old(spec.items) <= spec.items
      && var last := spec.items[|spec.items| - 1];
      && last.ScenarioItem? && spec.scenarios == old(spec.scenarios) + [last.scenario] && last.scenario.items == []
      && forall s :: s in old(spec.scenarios) ==> s.items == old(s.items)
    }

    /** One more item of the latest scenario. */
    twostate predicate OneMoreInScenario()
      reads spec`items, spec`scenarios, (set s | s in spec.scenarios)`items
    {
      && spec.items == old(spec.items) && spec.scenarios == old(spec.scenarios) != []
      && var last := spec.scenarios[|spec.scenarios| - 1];
      && |last.items| == |old(last.items)| + 1 && old(last.items) <= last.items
      && forall s :: s in spec.scenarios && s != last ==> s.items == old(s.items)
    }

    /** Nothing but the lists of items has changed for the entries of some items. */
    twostate lemma {:induction false} SameEntries(items: seq<Item>)
      requires SameTexts() && StepObjects(items) <= old(AllSteps()) && StepObjects(items) <= AllSteps()
      ensures Entries(items) == old(Entries(items))
    {
      hide StepObjects;
      forall k | 0 <= k < |items| ensures EntryOf(items[k]) == old(EntryOf(items[k])) {
        if items[k].StepItem? {
          OneObject(items, k);
        }
      }
      assert forall k :: 0 <= k < |items| ==> Entries(items)[k] == old(Entries(items)[k]);
    }

    twostate lemma {:induction false} SameBody(scenario: Scenario)
      requires SameTexts() && old(Listed()) && Listed() && spec.scenarios == old(spec.scenarios)
      requires scenario in spec.scenarios && scenario.items == old(scenario.items)
      ensures BodyOf(scenario) == old(BodyOf(scenario))
    {
      hide Entries, StepObjects, AllSteps;
      SameEntries(scenario.items);
    }

    twostate lemma {:induction false} SameOutline()
      requires SameItems() && SameTexts() && old(Listed()) && Listed()
      ensures Entries(spec.items) == old(Entries(spec.items)) && Bodies(spec.scenarios) == old(Bodies(spec.scenarios))
    {
      hide Entries, StepObjects, AllSteps, BodyOf;
      SameEntries(spec.items);
      forall k | 0 <= k < |spec.scenarios| ensures Bodies(spec.scenarios)[k] == old(Bodies(spec.scenarios)[k]) {
        SameBody(spec.scenarios[k]);
      }
    }

    twostate lemma {:induction false} ItemOutlined()
      requires OneMoreItem() && SameTexts() && old(Listed()) && Listed()
      ensures Entries(spec.items) == old(Entries(spec.items)) + [EntryOf(spec.items[|spec.items| - 1])]
      ensures Bodies(spec.scenarios) == old(Bodies(spec.scenarios))
    {
      hide Entries, EntryOf, AllSteps, BodyOf;
      var items, item := old(spec.items), spec.items[|spec.items| - 1];
      assert spec.items == items + [item];
      SomeObjects(items, item);
      EntryAdded(items, item);
      SameEntries(items);
      forall k | 0 <= k < |spec.scenarios| ensures Bodies(spec.scenarios)[k] == old(Bodies(spec.scenarios)[k]) {
        SameBody(spec.scenarios[k]);
      }
    }

    twostate lemma {:induction false} ScenarioOutlined()
      requires OneMoreScenario() && SameTexts() && old(Listed()) && Listed()
      ensures var heading := spec.items[|spec.items| - 1].scenario.heading;
              && Entries(spec.items) == old(Entries(spec.items)) + [ScenarioEntry(heading)]
              && Bodies(spec.scenarios) == old(Bodies(spec.scenarios)) + [Body(heading, [])]
    {
      hide Entries, AllSteps;
      var items, item := old(spec.items), spec.items[|spec.items| - 1];
      assert spec.items == items + [item];
      SomeObjects(items, item);
      EntryAdded(items, item);
      SameEntries(items);
      forall k | 0 <= k < |old(spec.scenarios)| ensures Bodies(spec.scenarios)[k] == old(Bodies(spec.scenarios)[k]) {
        SameOldBody(old(spec.scenarios)[k]);
      }
      assert |Entries(item.scenario.items)| == 0;
    }

    twostate lemma {:induction false} SameOldBody(scenario: Scenario)
      requires SameTexts() && old(Listed()) && Listed() && scenario in old(spec.scenarios) && scenario in spec.scenarios
      requires scenario.items == old(scenario.items)
      ensures BodyOf(scenario) == old(BodyOf(scenario))
    {
      hide Entries, StepObjects, AllSteps;
      SameEntries(scenario.items);
    }

    twostate lemma {:induction false} InScenarioOutlined()
      requires OneMoreInScenario() && DistinctHeadings(spec.scenarios, lower)
      requires SameTexts() && old(Listed()) && Listed()
      ensures Entries(spec.items) == old(Entries(spec.items))
      ensures var last := spec.scenarios[|spec.scenarios| - 1];
              Bodies(spec.scenarios) == Extended(old(Bodies(spec.scenarios)), [EntryOf(last.items[|last.items| - 1])])
    {
      hide Entries, EntryOf, AllSteps, BodyOf;
      SameEntries(spec.items);
      var n := |spec.scenarios| - 1;
      var last := spec.scenarios[n];
      LastBodyExtended(last);
      forall k | 0 <= k < n ensures Bodies(spec.scenarios)[k] == old(Bodies(spec.scenarios)[k]) {
        SameBody(spec.scenarios[k]);
      }
    }

    twostate lemma {:induction false} LastBodyExtended(last: Scenario)
      requires SameTexts() && old(Listed()) && Listed() && last in old(spec.scenarios) && last in spec.scenarios
      requires |last.items| == |old(last.items)| + 1 && old(last.items) <= last.items
      ensures var before, item := old(BodyOf(last)), last.items[|last.items| - 1];
              BodyOf(last) == before.(entries := before.entries + [EntryOf(item)])
    {
      hide Entries, EntryOf, AllSteps;
      var items, item := old(last.items), last.items[|last.items| - 1];
      assert last.items == items + [item];
      SomeObjects(items, item);
      EntryAdded(items, item);
      SameEntries(items);
    }

    /** Nothing but the text and the arguments of the latest step has changed. */
    twostate predicate OnlyLatest()
      reads spec`items, spec`scenarios, spec`contexts, (set s | s in spec.scenarios)`items,
        (set s | s in spec.scenarios)`steps, AllSteps()
    {
      && SameItems() && spec.contexts == old(spec.contexts)
      && (forall s :: s in spec.scenarios ==> s.steps == old(s.steps))
      && forall x :: x in AllSteps() && x in old(AllSteps()) && !old(Latest(ScopesOf(state), x)) ==>
           x.value == old(x.value) && x.args == old(x.args)
    }

    twostate lemma {:induction false} OtherEntries(items: seq<Item>)
      requires OnlyLatest() && StepObjects(items) <= old(AllSteps()) && StepObjects(items) <= AllSteps()
      requires forall x :: x in StepObjects(items) ==> !old(Latest(ScopesOf(state), x))
      ensures Entries(items) == old(Entries(items))
    {
      hide StepObjects, Latest, ScopesOf;
      forall k | 0 <= k < |items| ensures EntryOf(items[k]) == old(EntryOf(items[k])) {
        if items[k].StepItem? {
          OneObject(items, k);
        }
      }
      assert forall k :: 0 <= k < |items| ==> Entries(items)[k] == old(Entries(items)[k]);
    }

    /** The entry of the latest step is the last one of a step, and only it has changed. */
    twostate lemma {:induction false} LatestEntries(items: seq<Item>)
      requires OnlyLatest() && StepObjects(items) <= old(AllSteps()) && StepObjects(items) <= AllSteps()
      requires StepsIn(items) != [] && NoneTwice(StepsIn(items))
      requires var latest := StepsIn(items)[|StepsIn(items)| - 1];
               && latest in old(AllSteps())
               && forall x :: x in old(AllSteps()) ==> (old(Latest(ScopesOf(state), x)) <==> x == latest)
      ensures var item := StepItem(StepsIn(items)[|StepsIn(items)| - 1]);
              && Entries(items) == ReplaceLast(old(Entries(items)), EntryOf(item))
              && LastStep(old(Entries(items))) == Some(old(EntryOf(item)))
    {
      hide StepObjects, StepsIn, NoneTwice, ReplaceLast, LastStep, Latest, ScopesOf;
      var latest := StepsIn(items)[|StepsIn(items)| - 1];
      var before, was := old(Entries(items)), old(EntryOf(StepItem(latest)));
      forall k | 0 <= k < |items|
        ensures before[k] == if items[k] == StepItem(latest) then was else EntryOf(items[k])
      {
        if items[k].StepItem? {
          OneObject(items, k);
        }
      }
      LastReplaced(items, latest, before, was);
    }

    twostate lemma {:induction false} OtherBody(scenario: Scenario)
      requires OnlyLatest() && old(Listed()) && Listed() && scenario in spec.scenarios
      requires forall x :: x in StepObjects(scenario.items) ==> !old(Latest(ScopesOf(state), x))
      ensures BodyOf(scenario) == old(BodyOf(scenario))
    {
      hide Entries, StepObjects, AllSteps, Latest, ScopesOf;
      OtherEntries(scenario.items);
    }

    /** A changed context. */
    twostate lemma {:induction false} ContextRetouched()
      requires OnlyLatest() && old(Listed()) && Listed() && Projected() && spec.contexts != []
      requires old(ScopesOf(state)).context && !old(ScopesOf(state)).step
      ensures var item := StepItem(spec.contexts[|spec.contexts| - 1]);
              && Entries(spec.items) == ReplaceLast(old(Entries(spec.items)), EntryOf(item))
              && LastStep(old(Entries(spec.items))) == Some(old(EntryOf(item)))
      ensures Bodies(spec.scenarios) == old(Bodies(spec.scenarios))
    {
      hide Entries, StepObjects, BodyOf, EntryOf, ScopesOf, ReplaceLast, LastStep;
      var latest := spec.contexts[|spec.contexts| - 1];
      assert spec.Projected() && latest in spec.contexts && latest in old(spec.contexts);
      LatestEntries(spec.items);
      forall k | 0 <= k < |spec.scenarios| ensures Bodies(spec.scenarios)[k] == old(Bodies(spec.scenarios)[k]) {
        var s := spec.scenarios[k];
        assert s.Projected();
        ObjectsAreSteps(s.items);
        OtherBody(s);
      }
    }

    /** The body of the latest scenario with a changed step. */
    twostate lemma {:induction false} LatestBody()
      requires OnlyLatest() && old(Listed()) && Listed() && Projected()
      requires spec.scenarios != [] && old(ScopesOf(state)).step && spec.scenarios[|spec.scenarios| - 1].steps != []
      ensures var last := spec.scenarios[|spec.scenarios| - 1];
              var item, before := StepItem(last.steps[|last.steps| - 1]), old(BodyOf(last));
              && LastStep(before.entries) == Some(old(EntryOf(item)))
              && BodyOf(last) == before.(entries := ReplaceLast(before.entries, EntryOf(item)))
    {
      hide Entries, StepObjects, EntryOf, ReplaceLast, LastStep, ScopesOf;
      var last := spec.scenarios[|spec.scenarios| - 1];
      var latest := last.steps[|last.steps| - 1];
      assert last.Projected() && latest in last.steps && latest in old(last.steps) && NoneTwice(last.steps);
      assert last in old(spec.scenarios) && last.items == old(last.items);
      assert StepObjects(last.items) <= BodySteps(spec.scenarios) && StepObjects(last.items) <= old(AllSteps());
      assert latest in old(AllSteps());
      hide BodySteps, OnlyLatest, Projected, NoneTwice, StepsIn, Scenario.Projected;
      LatestEntries(last.items);
    }

    /** A changed step leaves all else as it is. */
    twostate lemma {:induction false} OtherBodies()
      requires OnlyLatest() && old(Listed()) && Listed() && Projected()
      requires DistinctHeadings(spec.scenarios, lower) && spec.scenarios != [] && old(ScopesOf(state)).step
      requires spec.scenarios[|spec.scenarios| - 1].steps != []
      ensures Entries(spec.items) == old(Entries(spec.items))
      ensures forall k :: 0 <= k < |spec.scenarios| - 1 ==> BodyOf(spec.scenarios[k]) == old(BodyOf(spec.scenarios[k]))
    {
      hide Entries, StepObjects, ScopesOf, BodyOf, AllSteps;
      var n := |spec.scenarios| - 1;
      assert spec.Projected();
      ObjectsAreSteps(spec.items);
      OtherEntries(spec.items);
      forall k | 0 <= k < n ensures BodyOf(spec.scenarios[k]) == old(BodyOf(spec.scenarios[k])) {
        var s := spec.scenarios[k];
        assert s.Projected() && s != spec.scenarios[n];
        ObjectsAreSteps(s.items);
        OtherBody(s);
      }
    }

    /** A changed step of the latest scenario. */
    twostate lemma {:induction false} StepRetouched()
      requires OnlyLatest() && old(Listed()) && Listed() && Projected()
      requires DistinctHeadings(spec.scenarios, lower) && spec.scenarios != [] && old(ScopesOf(state)).step
      requires spec.scenarios[|spec.scenarios| - 1].steps != []
      ensures Entries(spec.items) == old(Entries(spec.items))
      ensures var n, before := |spec.scenarios| - 1, old(Bodies(spec.scenarios));
              var steps := spec.scenarios[n].steps;
              var item := StepItem(steps[|steps| - 1]);
              && LastStep(before[n].entries) == Some(old(EntryOf(item)))
              && Bodies(spec.scenarios) ==
                 before[n := before[n].(entries := ReplaceLast(before[n].entries, EntryOf(item)))]
    {
      hide Entries, StepObjects, EntryOf, ReplaceLast, LastStep, ScopesOf, BodyOf, AllSteps, Projected,
        DistinctHeadings;
      LatestBody();
      OtherBodies();
      var n := |spec.scenarios| - 1;
      assert forall k :: 0 <= k < n ==> Bodies(spec.scenarios)[k] == old(Bodies(spec.scenarios)[k]);
    }

    /** With nothing but the latest step changed, the outline is retouched. */
    twostate lemma {:induction false} Retouching()
      requires OnlyLatest() && old(Valid()) && Valid() && old(Listed())
      requires old(ScopesOf(state)).step || old(ScopesOf(state)).context
      ensures forall x :: x in old(AllSteps()) && old(Latest(ScopesOf(state), x)) ==>
                var o, entry := old(Outlined()), EntryOf(StepItem(x));
                && LatestEntry(o) == Some(old(EntryOf(StepItem(x))))
                && Entries(spec.items) == Retouch(o, entry).top && Bodies(spec.scenarios) == Retouch(o, entry).bodies
    {
      hide Entries, StepObjects, EntryOf, ReplaceLast, LastStep, ScopesOf, BodyOf, AllSteps, Projected,
        DistinctHeadings, Bodies, TableOwner;
      ValidLists();
      if old(ScopesOf(state)).step {
        StepRetouched();
      } else {
        ContextRetouched();
      }
    }

    lemma {:induction false} SoundIff()
      ensures Sound() <==> AllMatched() && (spec.dataTable.Some? ==> spec.dataTable.value.headers != [])
    {
    }

    lemma {:induction false} ProjectedIff()
      ensures Projected() <==> spec.Projected() && (forall s :: s in spec.scenarios ==> s.Projected()) && OnePlace()
    {
    }

    /** A new scenario brings no steps. */
    twostate lemma {:induction false} MatchedKept()
      requires AllSteps() == old(AllSteps())
      requires forall s :: s in old(AllSteps()) ==> s.value == old(s.value) && s.args == old(s.args)
      ensures AllMatched() == old(AllMatched())
    {
      if old(AllMatched()) {
        forall s | s in AllSteps() ensures s.Matched() {
          assert old(s.Matched());
        }
      }
      if AllMatched() {
        forall s | s in old(AllSteps()) ensures old(s.Matched()) {
          assert s.Matched();
        }
      }
    }

    twostate lemma {:induction false} ScenarioAdded()
      requires |spec.scenarios| == |old(spec.scenarios)| + 1 && old(spec.scenarios) <= spec.scenarios
      requires spec.scenarios[|spec.scenarios| - 1].steps == [] && spec.contexts == old(spec.contexts)
      requires forall s :: s in old(spec.scenarios) ==> s.steps == old(s.steps)
      ensures AllSteps() == old(AllSteps())
    {
    }

    lemma {:induction false} AllMatchedIff()
      ensures AllMatched() <==> forall s :: s in AllSteps() ==> s.Matched()
    {
    }

    lemma {:induction false} NewScenarioIsProjected(scenario: Scenario)
      requires scenario.steps == [] && scenario.comments == [] && scenario.items == []
      ensures scenario.Projected()
    {
    }

    lemma {:induction false} OwnerIgnoresSpec(s: Scopes)
      ensures TableOwner(s) ==> TableOwner(s.(spec := true))
    {
      hide AllSteps, HasTable;
      if TableOwner(s) && s.table && (s.step || s.context) {
        var step :| step in AllSteps() && Latest(s, step) && HasTable(step);
        assert Latest(s.(spec := true), step);
      }
    }

    /** A heading of the specification; there may be only one. */
    method SpecConverter(token: Token) returns (outcome: Outcome)
      requires Valid() && token.kind.SpecKind?
      modifies `state, `warnings, spec, spec.scenarios, AllSteps()
      ensures Keeps(token, outcome)
      ensures outcome == if old(spec.heading).Some? then Failed(MultipleSpecHeadings) else Done
      ensures outcome.Done? ==>
              && spec.heading == Some(token.value) && SameItems() && SameTexts()
              && spec.dataTable == old(spec.dataTable)
      ensures outcome.Done? ==> LatestShape() == old(LatestShape())
      ensures outcome.Done? ==> ScopesOf(state) == old(ScopesOf(state)).(spec := true)
    {
      hide Projected, DistinctHeadings, AllSteps, AllMatched, GoodToken, HasTable, ScopesOf, AfterSpec, TableOwner;
      if spec.heading.Some? {
        return Failed(MultipleSpecHeadings);
      }
      Transitions(state);
      OwnerIgnoresSpec(ScopesOf(state));
      spec.heading := Some(token.value);
      state := AfterSpec(state);
      outcome := Done;
    }

    /** One more scenario, at the end. */
    method AddScenario(heading: string)
      requires Valid()
      modifies spec`items, spec`comments, spec`scenarios, spec`contexts
      ensures OneMoreScenario() && Projected() && AllSteps() == old(AllSteps())
      ensures var scenario := spec.scenarios[|spec.scenarios| - 1]; fresh(scenario) && scenario.heading == heading
    {
      hide AllSteps, HasTable, ScopesOf, Specification.Projected, Scenario.Projected, DistinctHeadings, InScope;
      ProjectedIff();
      var scenario := new Scenario(heading);
      NewScenarioIsProjected(scenario);
      spec.AddItem(ScenarioItem(scenario));
      ProjectedIff();
      ScenarioAdded();
    }

    /** A heading of a scenario: it ends the scopes of the scenario before. */
    method ScenarioConverter(token: Token) returns (outcome: Outcome)
      requires Valid() && token.kind.ScenarioKind?
      modifies `state, `warnings, spec, spec.scenarios, AllSteps()
      ensures Keeps(token, outcome)
      ensures outcome == if old(spec.heading).None? then Failed(ScenarioBeforeSpec)
                         else if exists s :: s in old(spec.scenarios) && lower(s.heading) == lower(token.value)
                         then Failed(DuplicateScenario) else Done
      ensures outcome.Done? ==>
                && OneMoreScenario() && spec.items[|spec.items| - 1].scenario.heading == token.value && SameTexts()
                && spec.heading == old(spec.heading) && spec.dataTable == old(spec.dataTable)
                && ScopesOf(state) == Scopes(old(ScopesOf(state)).spec, true, false, false, false)
    {
      hide Projected, AllMatched, AllSteps, GoodToken, HasTable, ScopesOf, AfterScenario, Specification.Projected,
        Scenario.Projected, Step.Matched;
      if spec.heading.None? {
        return Failed(ScenarioBeforeSpec);
      }
      for i := 0 to |spec.scenarios|
        invariant forall j :: 0 <= j < i ==> lower(spec.scenarios[j].heading) != lower(token.value)
        invariant Same()
      {
        if lower(spec.scenarios[i].heading) == lower(token.value) {
          return Failed(DuplicateScenario);
        }
      }
      Transitions(state);
      assert allocated(AllSteps());
      AddScenario(token.value);
      state := AfterScenario(state);
      MatchedKept();
      outcome := Done;
    }

    /** Nothing that the scopes rest on has changed. */
    twostate predicate SameSteps()
      reads spec, spec.scenarios
    {
      && spec.scenarios == old(spec.scenarios) && spec.contexts == old(spec.contexts)
      && spec.heading == old(spec.heading) && spec.dataTable == old(spec.dataTable)
      && forall s :: s in spec.scenarios ==> s.steps == old(s.steps)
    }

    twostate lemma {:induction false} SameAllSteps()
      requires SameSteps()
      ensures AllSteps() == old(AllSteps())
    {
    }

    /** One more item: in the latest scenario, or in the specification when no scenario is open. */
    twostate predicate Placed(item: Item)
      reads spec`items, spec`scenarios, (set s | s in spec.scenarios)`items
    {
      if old(ScopesOf(state)).scenario then
        OneMoreInScenario() && var s := spec.scenarios[|spec.scenarios| - 1]; s.items[|s.items| - 1] == item
      else OneMoreItem() && spec.items[|spec.items| - 1] == item
    }

    twostate predicate Commented(text: string)
      reads spec`items, spec`scenarios, (set s | s in spec.scenarios)`items
    {
      Placed(CommentItem(text))
    }

    twostate lemma {:induction false} PlacedOutlined(item: Item)
      requires Placed(item) && DistinctHeadings(spec.scenarios, lower)
      requires SameTexts() && old(Listed()) && Listed()
      ensures if old(ScopesOf(state)).scenario
              then
                && Entries(spec.items) == old(Entries(spec.items))
                && Bodies(spec.scenarios) == Extended(old(Bodies(spec.scenarios)), [EntryOf(item)])
              else
                && Entries(spec.items) == old(Entries(spec.items)) + [EntryOf(item)]
                && Bodies(spec.scenarios) == old(Bodies(spec.scenarios))
    {
      hide Entries, EntryOf, DistinctHeadings, ScopesOf, Extended, Listed, SameTexts, BodyOf;
      if old(ScopesOf(state)).scenario {
        InScenarioOutlined();
      } else {
        ItemOutlined();
      }
    }

    twostate lemma {:induction false} CommentOutlined(text: string)
      requires Commented(text) && DistinctHeadings(spec.scenarios, lower)
      requires SameTexts() && old(Listed()) && Listed()
      ensures if old(ScopesOf(state)).scenario
              then
                && Entries(spec.items) == old(Entries(spec.items))
                && Bodies(spec.scenarios) == Extended(old(Bodies(spec.scenarios)), [CommentEntry(text)])
              else
                && Entries(spec.items) == old(Entries(spec.items)) + [CommentEntry(text)]
                && Bodies(spec.scenarios) == old(Bodies(spec.scenarios))
    {
      hide Entries, DistinctHeadings, ScopesOf, Extended, Listed, SameTexts, BodyOf, Placed;
      PlacedOutlined(CommentItem(text));
    }

    method AddComment(text: string)
      requires Valid()
      modifies spec`items, spec`comments, spec`scenarios, spec`contexts
      modifies (set s | s in spec.scenarios)`comments, (set s | s in spec.scenarios)`items
      ensures SameSteps() && Projected() && Commented(text)
    {
      hide DistinctHeadings, AllSteps, HasTable, Specification.Projected, Scenario.Projected;
      ProjectedIff();
      if IsInState(state, SCENARIO) {
        spec.scenarios[|spec.scenarios| - 1].AddComment(text);
      } else {
        spec.AddItem(CommentItem(text));
      }
      ProjectedIff();
    }

    /** A comment; a table after it would not belong to a step any more. */
    method CommentConverter(token: Token) returns (outcome: Outcome)
      requires Valid() && token.kind.CommentKind?
      modifies `state, `warnings, spec, spec.scenarios, AllSteps()
      ensures Keeps(token, outcome) && outcome.Done?
      ensures SameSteps() && Commented(token.value) && SameTexts()
      ensures Outlined() ==
              WithLine(old(Outlined()), CommentEntry(token.value)).(scopes := ScopesOf(state), latest := None)
      ensures var s := old(ScopesOf(state)); ScopesOf(state) == Scopes(s.spec, s.scenario, false, false, false)
    {
      hide Projected, AllMatched, DistinctHeadings, AllSteps, GoodToken, HasTable, ScopesOf, AfterComment,
        Commented, Entries, Bodies, Extended, LatestShape, Listed, SameTexts;
      outcome := Done;
      Transitions(state);
      ProjectedLists();
      assert allocated(AllSteps());
      AddComment(token.value);
      state := AfterComment(state);
      SameAllSteps();
      ProjectedLists();
      TextsKept();
      MatchedKept();
      CommentOutlined(token.value);
      NoLatest();
    }

    /** Tags of the latest scenario, or of the specification when no scenario is open. */
    method AddTags(values: seq<string>)
      requires Valid()
      modifies spec`tags, spec`items, spec`comments, spec`scenarios, spec`contexts
      modifies (set s | s in spec.scenarios)`tags, (set s | s in spec.scenarios)`items
      ensures SameSteps() && Projected() && Placed(TagsItem(values))
      ensures if ScopesOf(state).scenario then spec.scenarios[|spec.scenarios| - 1].tags == Some(values)
              else spec.tags == Some(values)
    {
      hide AllSteps, HasTable, Specification.Projected, Scenario.Projected, DistinctHeadings, ScopesOf;
      ProjectedIff();
      ScenarioScope(state);
      if IsInState(state, SCENARIO) {
        spec.scenarios[|spec.scenarios| - 1].AddTags(values);
      } else {
        spec.tags := Some(values);
        spec.AddItem(TagsItem(values));
      }
      ProjectedIff();
    }

    /** Tags leave the bitmask alone. */
    method TagConverter(token: Token) returns (outcome: Outcome)
      requires Valid() && token.kind.TagKind?
      modifies `state, `warnings, spec, spec.scenarios, AllSteps()
      ensures Keeps(token, outcome) && outcome.Done?
      ensures SameSteps() && state == old(state)
      ensures if ScopesOf(state).scenario then spec.scenarios[|spec.scenarios| - 1].tags == Some(token.args)
              else spec.tags == Some(token.args)
      ensures Outlined() == WithLine(old(Outlined()), TagsEntry(token.args))
    {
      hide Projected, AllMatched, DistinctHeadings, AllSteps, GoodToken, HasTable, ScopesOf, Entries, Bodies, Extended,
        Placed, LatestShape, Listed, SameTexts;
      outcome := Done;
      ProjectedLists();
      assert allocated(AllSteps());
      AddTags(token.args);
      SameAllSteps();
      ProjectedLists();
      TextsKept();
      MatchedKept();
      PlacedOutlined(TagsItem(token.args));
      ScopesKept(ScopesOf(state));
      LatestKept();
    }

    /** With the same steps the latest one has the same shape. */
    twostate lemma {:induction false} LatestKept()
      requires SameSteps() && AllSteps() == old(AllSteps()) && ScopesOf(state) == old(ScopesOf(state))
      requires forall x :: x in old(AllSteps()) ==> x.value == old(x.value) && x.args == old(x.args)
      ensures LatestShape() == old(LatestShape())
    {
      hide ScopesOf, CountHoles, ShownArgs;
      if ScopesOf(state).step && spec.scenarios != [] && spec.scenarios[|spec.scenarios| - 1].steps != [] {
        var last := spec.scenarios[|spec.scenarios| - 1];
        assert last in old(spec.scenarios) && last.steps[|last.steps| - 1] in old(last.steps);
      } else if spec.contexts != [] {
        assert spec.contexts[|spec.contexts| - 1] in old(spec.contexts);
      }
    }

    /** A `table:` keyword: the external data table, unless there is one already. */
    method KeywordConverter(token: Token) returns (outcome: Outcome)
      requires Valid() && token.kind.DataTableKind?
      modifies `state, `warnings, spec, spec.scenarios, AllSteps()
      ensures Keeps(token, outcome) && outcome.Done? && OneMoreItem() && spec.heading == old(spec.heading)
      ensures SameTexts()
      ensures old(spec.heading).Some? && old(spec.dataTable).None? ==>
                && spec.dataTable == Some(token.table) && spec.items[|spec.items| - 1] == ExternalTableItem(token.value)
                && ScopesOf(state) == Scopes(true, false, false, false, false) && LatestShape() == None
      ensures !(old(spec.heading).Some? && old(spec.dataTable).None?) ==>
                && SameSteps() && state == old(state) && spec.items[|spec.items| - 1] == CommentItem(token.lineText)
                && LatestShape() == old(LatestShape())
                && warnings == old(warnings) + [if old(spec.heading).Some? then MultipleDataTables else NoSpecForTable]
    {
      hide AllMatched, DistinctHeadings, AllSteps, HasTable, ScopesOf, AfterKeyword, Specification.Projected,
        Scenario.Projected;
      outcome := Done;
      assert allocated(AllSteps());
      Transitions(state);
      SpecScope(state);
      if IsInState(state, SPEC) && spec.dataTable.None? {
        spec.AddDataTable(token.table, ExternalTableItem(token.value));
        state := AfterKeyword(state);
        StepsKept();
        MatchedKept();
      } else if IsInState(state, SPEC) {
        IgnoreTable(token, MultipleDataTables);
      } else {
        IgnoreTable(token, NoSpecForTable);
      }
    }

    /** A table that is not used becomes a comment of the specification. */
    method IgnoreTable(token: Token, warning: Warning)
      requires Valid()
      modifies `warnings, spec`items, spec`comments, spec`scenarios, spec`contexts
      ensures Keeps(token, Done) && SameSteps() && OneMoreItem() && LatestShape() == old(LatestShape())
      ensures spec.items[|spec.items| - 1] == CommentItem(token.lineText) && warnings == old(warnings) + [warning]
    {
      hide AllMatched, DistinctHeadings, AllSteps, HasTable, ScopesOf, Specification.Projected, Scenario.Projected;
      assert allocated(AllSteps());
      spec.AddItem(CommentItem(token.lineText));
      warnings := warnings + [warning];
      StepsKept();
      MatchedKept();
    }

    twostate lemma {:induction false} MatchedGrows()
      requires forall s :: s in AllSteps() ==>
               (s in old(AllSteps()) && s.value == old(s.value) && s.args == old(s.args)) || s.Matched()
      ensures old(AllMatched()) ==> AllMatched()
    {
      if old(AllMatched()) {
        forall s | s in AllSteps() ensures s.Matched() {
          assert s in old(AllSteps()) ==> old(s.Matched());
        }
      }
    }

    twostate lemma {:induction false} StepAdded()
      requires spec.scenarios == old(spec.scenarios) != [] && spec.contexts == old(spec.contexts)
      requires var last := spec.scenarios[|spec.scenarios| - 1];
               && |last.steps| == |old(last.steps)| + 1 && old(last.steps) <= last.steps
               && forall s :: s in spec.scenarios && s != last ==> s.steps == old(s.steps)
      ensures var last := spec.scenarios[|spec.scenarios| - 1];
              AllSteps() == old(AllSteps()) + {last.steps[|last.steps| - 1]}
    {
      var last := spec.scenarios[|spec.scenarios| - 1];
      var step := last.steps[|last.steps| - 1];
      assert last.steps == old(last.steps) + [step];
      assert old(last.steps) == old(spec.scenarios[|spec.scenarios| - 1].steps);
      forall s | s in AllSteps() ensures s in old(AllSteps()) + {step} {
        if s !in spec.contexts {
          var scenario :| scenario in spec.scenarios && s in scenario.steps;
          if scenario != last {
            assert s in old(scenario.steps);
          }
        }
      }
      forall s | s in old(AllSteps()) ensures s in AllSteps() {
        if s !in spec.contexts {
          var scenario :| scenario in spec.scenarios && s in old(scenario.steps);
          assert s in scenario.steps;
        }
      }
      assert last in spec.scenarios && step in last.steps;
    }

    /** A new step has a place of its own. */
    twostate lemma {:induction false} StepPlaced()
      requires old(OnePlace()) && spec.scenarios == old(spec.scenarios) != [] && spec.contexts == old(spec.contexts)
      requires var last := spec.scenarios[|spec.scenarios| - 1];
               && |last.steps| == |old(last.steps)| + 1 && old(last.steps) <= last.steps
               && last.steps[|last.steps| - 1] !in old(AllSteps())
               && forall s :: s in spec.scenarios && s != last ==> s.steps == old(s.steps)
      ensures OnePlace()
    {
      var last := spec.scenarios[|spec.scenarios| - 1];
      var step := last.steps[|last.steps| - 1];
      assert last.steps == old(last.steps) + [step];
      assert old(last.steps) == old(spec.scenarios[|spec.scenarios| - 1].steps);
      assert forall s, x :: s in spec.scenarios && x in s.steps ==> x in old(s.steps) || (s == last && x == step);
      assert forall s :: s in spec.scenarios ==> step !in old(s.steps);
    }

    twostate lemma {:induction false} ContextPlaced()
      requires old(OnePlace()) && spec.scenarios == old(spec.scenarios)
      requires |spec.contexts| == |old(spec.contexts)| + 1 && old(spec.contexts) <= spec.contexts
      requires spec.contexts[|spec.contexts| - 1] !in old(AllSteps())
      requires forall s :: s in spec.scenarios ==> s.steps == old(s.steps)
      ensures OnePlace()
    {
      var step := spec.contexts[|spec.contexts| - 1];
      assert spec.contexts == old(spec.contexts) + [step];
      assert forall s :: s in spec.scenarios ==> step !in s.steps;
    }

    /** One more step of the latest scenario. */
    method AddStep(latestScenario: Scenario, step: Step)
      requires Valid() && spec.scenarios != [] && latestScenario == spec.scenarios[|spec.scenarios| - 1]
      requires step !in AllSteps()
      modifies latestScenario`steps, latestScenario`items
      ensures AllSteps() == old(AllSteps()) + {step} && Projected()
      ensures latestScenario.steps == old(latestScenario.steps) + [step]
      ensures latestScenario.items == old(latestScenario.items) + [StepItem(step)]
    {
      hide DistinctHeadings, AllSteps, InScope, Specification.Projected, Scenario.Projected, Projected, OnePlace;
      ProjectedIff();
      latestScenario.AddStep(step);
      StepAdded();
      StepPlaced();
      ProjectedIff();
    }

    /** A new step, with the columns of the data table as names. */
    method CreateStep(token: Token) returns (outcome: Outcome, step: Step)
      requires token.kind.StepKind?
      modifies `warnings
      ensures fresh(step) && step.value == Extract(token.value).0 && step.lineText == TrimSpace(token.lineText)
      ensures Ends(StepObjection(resolve, token, Names()), !Fits(NewShape(resolve, token, Names())), outcome)
      ensures outcome.Done? ==> step.GetShape() == NewShape(resolve, token, Names())
      ensures outcome.Done? ==> step.args == NewArgs(resolve, token, Names())
      ensures GoodToken(token, resolve) ==> !outcome.Panicked? && (outcome.Done? ==> step.Matched())
    {
      hide StepObjection, StepArgument, GoodToken, Step.Matched, Extract, TrimSpace, NewShape, Step.GetShape, NewArgs,
        StandsFor, NamesNothing;
      outcome, step := CreateStepUsingLookup(token);
      if GoodToken(token, resolve) && StepObjection(resolve, token, Names()).None? {
        GoodShape(token);
        ShapeMatches(step);
      }
    }

    /** After a new step of a scenario or of the specification its scope is backed. */
    lemma {:induction false} StepInScope()
      requires var s := ScopesOf(state); s.spec && !s.table && s.step != s.context && s.step == s.scenario
      requires spec.heading.Some?
      requires if ScopesOf(state).step then spec.scenarios != [] && spec.scenarios[|spec.scenarios| - 1].steps != []
               else spec.contexts != []
      ensures InScope()
    {
      hide ScopesOf;
    }

    /** A token that is not taken changes nothing. */
    twostate lemma {:induction false} NothingKept(token: Token)
      requires spec.scenarios == old(spec.scenarios) && AllSteps() == old(AllSteps())
      ensures forall outcome: Outcome ::
                !outcome.Done? && (GoodToken(token, resolve) ==> !outcome.Panicked?) ==> Keeps(token, outcome)
    {
      hide Valid, AllSteps, GoodToken, Sound;
    }

    /** A new step that matches its placeholders, and nothing else that is new. */
    twostate lemma {:induction false} NewStepKeeps(token: Token)
      requires Projected() && DistinctHeadings(spec.scenarios, lower) && InScope()
      requires spec.dataTable == old(spec.dataTable) && spec.scenarios == old(spec.scenarios)
      requires forall s :: s in AllSteps() ==>
                 || (s in old(AllSteps()) && s.value == old(s.value) && s.args == old(s.args))
                 || (fresh(s) && (GoodToken(token, resolve) ==> s.Matched()))
      ensures Keeps(token, Done)
    {
      hide Projected, DistinctHeadings, InScope, AllSteps, GoodToken, Step.Matched, AllMatched;
      if GoodToken(token, resolve) {
        MatchedGrows();
      }
    }

    /** A step of the latest scenario. */
    method StepConverter(token: Token) returns (outcome: Outcome)
      requires Valid() && token.kind.StepKind? && ScopesOf(state).scenario
      modifies `state, `warnings, spec, spec.scenarios, AllSteps()
      ensures Keeps(token, outcome)
      ensures Ends(StepObjection(resolve, token, old(Names())), !Fits(NewShape(resolve, token, old(Names()))), outcome)
      ensures outcome.Done? ==> LatestShape() == Some(NewShape(resolve, token, old(Names())))
      ensures outcome.Done? ==>
                && ScopesOf(state) == Scopes(true, true, false, true, false)
                && spec.heading == old(spec.heading) && spec.dataTable == old(spec.dataTable)
                && OneMoreInScenario()
                && SameTexts()
                && var s := spec.scenarios[|spec.scenarios| - 1];
                   EntryOf(s.items[|s.items| - 1]) == NewEntry(resolve, token, old(Names()))
    {
      hide AllMatched, DistinctHeadings, AllSteps, GoodToken, ScopesOf, AfterStep, Specification.Projected,
        Scenario.Projected, Step.Matched, Extract, Projected, StepObjection, TrimSpace, Kinds, NewShape, NewArgs, Fits,
        LatestShape, Step.GetShape, OnePlace, Listed, SameTexts, Keeps, TableOwner, Entries;
      ScenarioScope(state);
      assert allocated(AllSteps());
      Transitions(state);
      var step;
      outcome, step := CreateStep(token);
      if !outcome.Done? {
        NothingKept(token);
        return;
      }
      AddStep(spec.scenarios[|spec.scenarios| - 1], step);
      TextsKept();
      state := AfterStep(state);
      ShapeOfLatest(step);
      StepInScope();
      NewStepKeeps(token);
    }

    /** One more context. */
    method AddContext(step: Step)
      requires Valid() && step !in AllSteps()
      modifies spec`items, spec`comments, spec`scenarios, spec`contexts
      ensures AllSteps() == old(AllSteps()) + {step} && Projected() && OneMoreItem()
      ensures spec.contexts == old(spec.contexts) + [step] && spec.items == old(spec.items) + [StepItem(step)]
    {
      hide DistinctHeadings, AllSteps, InScope, Specification.Projected, Scenario.Projected, Projected, OnePlace;
      ProjectedIff();
      spec.AddItem(StepItem(step));
      ContextAdded();
      ContextPlaced();
      ProjectedIff();
    }

    /** A step before the first scenario is a context. */
    method ContextConverter(token: Token) returns (outcome: Outcome)
      requires Valid() && token.kind.StepKind? && !ScopesOf(state).scenario && spec.heading.Some?
      modifies `state, `warnings, spec, spec.scenarios, AllSteps()
      ensures Keeps(token, outcome)
      ensures Ends(StepObjection(resolve, token, old(Names())), !Fits(NewShape(resolve, token, old(Names()))), outcome)
      ensures outcome.Done? ==> LatestShape() == Some(NewShape(resolve, token, old(Names())))
      ensures outcome.Done? ==>
                && ScopesOf(state) == Scopes(true, false, false, false, true)
                && spec.heading == old(spec.heading) && spec.dataTable == old(spec.dataTable)
                && OneMoreItem() && SameTexts()
                && EntryOf(spec.items[|spec.items| - 1]) == NewEntry(resolve, token, old(Names()))
    {
      hide AllMatched, DistinctHeadings, AllSteps, GoodToken, ScopesOf, AfterContext, Specification.Projected,
        Scenario.Projected, Step.Matched, Extract, Projected, StepObjection, TrimSpace, Kinds, NewShape, NewArgs, Fits,
        LatestShape, Step.GetShape, OnePlace, Listed, SameTexts, Keeps, TableOwner, Entries;
      ScenarioScope(state);
      SpecScope(state);
      assert allocated(AllSteps());
      Transitions(state);
      var step;
      outcome, step := CreateStep(token);
      if !outcome.Done? {
        NothingKept(token);
        return;
      }
      AddContext(step);
      TextsKept();
      state := AfterContext(state);
      ShapeOfLatest(step);
      StepInScope();
      NewStepKeeps(token);
    }

    /** The latest step; None when neither a step nor a context is open. */
    function LatestStep(): (step: Option<Step>)
      requires InScope()
      reads `state, spec, spec.scenarios, AllSteps()
      ensures step.Some? <==> ScopesOf(state).step || ScopesOf(state).context
      ensures step.Some? ==> Latest(ScopesOf(state), step.value) && step.value in AllSteps()
    {
      if IsInState(state, STEP) then
        var latestScenario := spec.scenarios[|spec.scenarios| - 1];
        assert latestScenario in spec.scenarios;
        assert latestScenario.steps[|latestScenario.steps| - 1] in latestScenario.steps;
        Some(latestScenario.steps[|latestScenario.steps| - 1])
      else if IsInState(state, CONTEXT) then Some(spec.contexts[|spec.contexts| - 1])
      else None
    }

    lemma {:induction false} TableOpens(before: Scopes, latest: Step)
      requires Backed(before) && Latest(before, latest) && latest in AllSteps() && HasTable(latest)
      ensures Backed(before.(table := true)) && TableOwner(before.(table := true))
    {
    }

    lemma {:induction false} GoodHeader(token: Token)
      requires token.kind.TableHeader?
      ensures GoodToken(token, resolve) ==> token.args != []
    {
    }

    /** A table after a step becomes the last argument of the step. */
    method HeaderOfStep(latest: Step, token: Token) returns (outcome: Outcome)
      requires Valid() && Latest(ScopesOf(state), latest) && latest in AllSteps() && token.kind.TableHeader?
      modifies `state, latest
      ensures Keeps(token, outcome) && AllSteps() == old(AllSteps())
      ensures outcome == if Fits(WithTable(old(latest.GetShape()), token)) then Done else Panicked
      ensures latest.GetShape() == WithTable(old(latest.GetShape()), token)
      ensures ScopesOf(state) == old(ScopesOf(state)).(table := true)
      ensures latest.value == old(latest.value) + " {}"
      ensures latest.args == old(latest.args) + [Arg("", "", TableArg, Some(Headed(token.args)))]
    {
      hide AllMatched, DistinctHeadings, AllSteps, ScopesOf, AfterHeader, Projected, Specification.Projected,
        Scenario.Projected, Step.Matched, GoodToken, Backed, TableOwner, Latest, HasTable, Fits, CountHoles,
        ShownArgs;
      assert allocated(AllSteps());
      Transitions(state);
      AllMatchedIff();
      ghost var scopes := ScopesOf(state);
      GoodHeader(token);
      var ok := latest.AddInlineTableHeader(token.args);
      StepsKept();
      AllMatchedIff();
      outcome := if ok then Done else Panicked;
      state := AfterHeader(state);
      if ok {
        TableOpens(scopes, latest);
      }
    }

    /** A table before the steps becomes the data table, unless there is one. */
    method HeaderOfSpec(token: Token)
      requires Valid() && token.kind.TableHeader?
      requires var s := ScopesOf(state); !s.step && !s.context && !s.scenario
      modifies `state, `warnings, spec
      ensures Keeps(token, Done) && OneMoreItem() && SameTexts() && spec.heading == old(spec.heading)
      ensures LatestShape() == None
      ensures old(spec.dataTable).None? ==>
                && ScopesOf(state) == old(ScopesOf(state)).(table := true)
                && spec.dataTable == Some(Headed(token.args)) && spec.items[|spec.items| - 1] == TableItem
      ensures old(spec.dataTable).Some? ==>
                && SameSteps() && state == old(state) && warnings == old(warnings) + [MultipleDataTables]
                && spec.items[|spec.items| - 1] == CommentItem(token.lineText)
    {
      hide AllMatched, DistinctHeadings, AllSteps, ScopesOf, AfterHeader, Projected, Specification.Projected,
        Scenario.Projected, Step.Matched, HasTable, SameTexts, LatestShape;
      assert allocated(AllSteps());
      Transitions(state);
      if spec.dataTable.None? {
        ProjectedIff();
        spec.AddDataTable(Headed(token.args), TableItem);
        ProjectedIff();
        StepsKept();
        MatchedKept();
        state := AfterHeader(state);
      } else {
        IgnoreTable(token, MultipleDataTables);
      }
      TextsKept();
      NoLatest();
    }

    /** A line of a table that belongs to nothing is kept as a comment. */
    method CommentOnTable(token: Token, more: seq<Warning>)
      requires Valid()
      modifies `warnings, spec`items, spec`comments, spec`scenarios, spec`contexts
      modifies (set s | s in spec.scenarios)`comments, (set s | s in spec.scenarios)`items
      ensures Keeps(token, Done) && SameSteps() && SameTexts() && Commented(token.lineText)
      ensures LatestShape() == old(LatestShape()) && warnings == old(warnings) + more
    {
      hide AllMatched, DistinctHeadings, AllSteps, ScopesOf, Projected, HasTable, Latest, Backed, TableOwner, GoodToken,
        Commented, SameTexts;
      assert allocated(AllSteps());
      AddComment(token.lineText);
      SameAllSteps();
      MatchedKept();
      ScopesKept(ScopesOf(state));
      TextsKept();
      warnings := warnings + more;
    }

    /** A table becomes one more argument of the latest step, with one more placeholder for it. */
    twostate predicate HeaderTaken(token: Token)
      reads spec`items, spec`scenarios, spec`contexts, spec`dataTable, (set s | s in spec.scenarios)`items,
        (set s | s in spec.scenarios)`steps, AllSteps()
    {
      && AllSteps() == old(AllSteps()) && spec.dataTable == old(spec.dataTable) && OnlyLatest()
      && exists step :: step in AllSteps() && old(Latest(ScopesOf(state), step))
           && step.value == old(step.value) + " {}"
           && step.args == old(step.args) + [Arg("", "", TableArg, Some(Headed(token.args)))]
    }

    /** A table after a step: nothing but the latest step changes. */
    method HeaderOfLatest(latest: Step, token: Token) returns (outcome: Outcome)
      requires Valid() && Latest(ScopesOf(state), latest) && latest in AllSteps() && token.kind.TableHeader?
      requires ScopesOf(state).step || ScopesOf(state).context
      modifies `state, latest
      ensures Keeps(token, outcome) && SameItems() && HeaderTaken(token)
      ensures old(LatestShape()).Some?
      ensures outcome == if Fits(WithTable(old(LatestShape()).value, token)) then Done else Panicked
      ensures LatestShape() == Some(WithTable(old(LatestShape()).value, token))
      ensures ScopesOf(state) == old(ScopesOf(state)).(table := true)
    {
      hide Keeps, Valid, AllSteps, ScopesOf, LatestShape, Step.GetShape, WithTable, Fits, Headed;
      assert allocated(AllSteps());
      ShapeOfLatest(latest);
      outcome := HeaderOfStep(latest, token);
      StillLatest(latest);
      OnlyOneLatest();
    }

    /** There is one latest step. */
    twostate lemma {:induction false} OnlyOneLatest()
      ensures forall x, y :: x in old(AllSteps()) && old(Latest(ScopesOf(state), x)) && y in old(AllSteps()) ==>
                old(Latest(ScopesOf(state), y)) ==> x == y
    {
      hide ScopesOf;
    }

    /** The first line of a table: it goes to the latest step, becomes the data table, or is
        kept as a comment. */
    method TableHeaderConverter(token: Token) returns (outcome: Outcome)
      requires Valid() && token.kind.TableHeader? && spec.heading.Some?
      modifies `state, `warnings, spec, spec.scenarios, AllSteps()
      ensures Keeps(token, outcome) && spec.heading == old(spec.heading)
      ensures var s := old(ScopesOf(state));
              && (s.step || s.context ==> old(LatestShape()).Some?)
              && outcome ==
                 if (s.step || s.context) && !Fits(WithTable(old(LatestShape()).value, token)) then Panicked else Done
      ensures outcome.Done? ==>
                var s := old(ScopesOf(state));
                LatestShape() == if s.step || s.context then Some(WithTable(old(LatestShape()).value, token)) else None
      ensures outcome.Done? ==>
                var s := old(ScopesOf(state));
                if s.step || s.context then
                  && ScopesOf(state) == s.(table := true)
                  && SameItems() && HeaderTaken(token)
                else if s.scenario then
                  && SameSteps() && state == old(state) && warnings == old(warnings) + [NoStepForTable]
                  && Commented(token.lineText) && SameTexts()
                else if old(spec.dataTable).None? then
                  && SameTexts()
                  && ScopesOf(state) == s.(table := true)
                  && spec.dataTable == Some(Headed(token.args)) && OneMoreItem()
                  && spec.items[|spec.items| - 1] == TableItem
                else
                  && SameSteps() && state == old(state) && warnings == old(warnings) + [MultipleDataTables]
                  && SameTexts() && OneMoreItem() && spec.items[|spec.items| - 1] == CommentItem(token.lineText)
    {
      hide AllMatched, DistinctHeadings, AllSteps, ScopesOf, AfterHeader, Projected, Specification.Projected,
        Scenario.Projected, Step.Matched, HasTable, Latest, GoodToken, Backed, TableOwner, LatestShape, WithTable, Fits,
        Keeps, SameTexts, Commented, HeaderTaken;
      SpecScope(state);
      ScenarioScope(state);
      outcome := Done;
      assert allocated(AllSteps());
      NoLatestIf();
      var latest := LatestStep();
      if latest.Some? {
        outcome := HeaderOfLatest(latest.value, token);
      } else if !IsInState(state, SCENARIO) {
        HeaderOfSpec(token);
      } else {
        CommentOnTable(token, [NoStepForTable]);
      }
    }

    /** The latest step is the same in the same scope. */
    twostate lemma {:induction false} StillLatest(latest: Step)
      requires spec.scenarios == old(spec.scenarios) && spec.contexts == old(spec.contexts)
      requires forall s :: s in spec.scenarios ==> s.steps == old(s.steps)
      requires old(Latest(ScopesOf(state), latest))
      requires ScopesOf(state).step == old(ScopesOf(state)).step
               && ScopesOf(state).context == old(ScopesOf(state)).context
      ensures LatestShape() == Some(latest.GetShape())
    {
      hide ScopesOf, Step.GetShape;
      assert Latest(ScopesOf(state), latest) by { LatestAgain(latest); }
      ShapeOfLatest(latest);
    }

    twostate lemma {:induction false} LatestAgain(latest: Step)
      requires spec.scenarios == old(spec.scenarios) && spec.contexts == old(spec.contexts)
      requires forall s :: s in spec.scenarios ==> s.steps == old(s.steps)
      requires old(Latest(ScopesOf(state), latest))
      requires ScopesOf(state).step == old(ScopesOf(state)).step
               && ScopesOf(state).context == old(ScopesOf(state)).context
      ensures Latest(ScopesOf(state), latest)
    {
      hide ScopesOf;
    }

    twostate lemma {:induction false} ScopesKept(s: Scopes)
      requires SameSteps() && AllSteps() == old(AllSteps())
      requires forall step :: step in AllSteps() ==> step.args == old(step.args) && step.value == old(step.value)
      ensures old(Backed(s)) ==> Backed(s)
      ensures old(TableOwner(s)) ==> TableOwner(s)
    {
      if old(TableOwner(s)) && s.table && (s.step || s.context) {
        var step :| step in old(AllSteps()) && old(Latest(s, step)) && old(HasTable(step));
        assert Latest(s, step) && HasTable(step);
      }
    }

    /** A bitmask with the same scopes is as good. */
    twostate lemma {:induction false} OnlyStateChanged()
      requires unchanged(spec) && unchanged(spec.scenarios) && unchanged(AllSteps())
      requires ScopesOf(state) == old(ScopesOf(state))
      ensures old(Valid()) ==> Valid()
      ensures old(Sound()) ==> Sound()
    {
      hide ScopesOf, HasTable;
      StepsKept();
      MatchedKept();
      ScopesKept(ScopesOf(state));
    }

    lemma {:induction false} LatestHasTable(s: Scopes, latest: Step)
      requires TableOwner(s) && s.table && Latest(s, latest)
      ensures HasTable(latest)
    {
    }

    /** A row of the table of the latest step. */
    method RowOfStep(latest: Step, token: Token) returns (outcome: Outcome)
      requires Valid() && ScopesOf(state).table && Latest(ScopesOf(state), latest) && latest in AllSteps()
      modifies `warnings, latest
      ensures Keeps(token, outcome) && outcome.Done? && latest.GetShape() == old(latest.GetShape())
      ensures old(HasTable(latest)) && RowAdded(old(latest.args), latest.args, RowCells(token.args, Names()))
      ensures latest.value == old(latest.value)
      ensures warnings == old(warnings) + CellWarnings(token.args, Names())
    {
      hide AllMatched, DistinctHeadings, AllSteps, ScopesOf, Projected, Specification.Projected, Scenario.Projected,
        Step.Matched, GoodToken, Backed, TableOwner, Latest, RowCells, WithRow;
      assert allocated(AllSteps());
      AllMatchedIff();
      LatestHasTable(ScopesOf(state), latest);
      warnings := warnings + CellWarnings(token.args, Names());
      var ok := latest.AddInlineTableRow(RowCells(token.args, Names()));
      StepsKept();
      AllMatchedIff();
      outcome := if ok then Done else Panicked;
      OwnerRemains(ScopesOf(state), latest);
    }

    lemma {:induction false} OwnerRemains(s: Scopes, latest: Step)
      requires Latest(s, latest) && latest in AllSteps() && HasTable(latest)
      ensures TableOwner(s)
    {
    }

    /** A row of the data table. */
    method RowOfDataTable(token: Token)
      requires Valid() && var s := ScopesOf(state); s.table && !s.step && !s.context
      modifies spec`dataTable
      ensures Keeps(token, Done)
      ensures old(spec.dataTable).Some?
              && spec.dataTable == Some(WithRow(old(spec.dataTable).value, StaticCells(token.args)))
    {
      hide AllMatched, DistinctHeadings, AllSteps, ScopesOf, Projected, Specification.Projected, Scenario.Projected,
        Step.Matched, GoodToken, StaticCells;
      assert allocated(AllSteps());
      spec.dataTable := Some(WithRow(spec.dataTable.value, StaticCells(token.args)));
      StepsKept();
      MatchedKept();
    }

    /** A row goes to the table of the latest step or to the data table, and nowhere else. */
    twostate predicate RowTaken(token: Token)
      reads spec`items, spec`scenarios, spec`contexts, spec`dataTable, (set s | s in spec.scenarios)`items,
        (set s | s in spec.scenarios)`steps, AllSteps()
    {
      && AllSteps() == old(AllSteps())
      && var s := old(ScopesOf(state));
      if s.step || s.context then
        && spec.dataTable == old(spec.dataTable) && OnlyLatest()
        && exists step :: step in AllSteps() && old(Latest(ScopesOf(state), step))
             && RowAdded(old(step.args), step.args, RowCells(token.args, old(Names())))
             && step.value == old(step.value)
      else
        && old(spec.dataTable).Some? && unchanged(AllSteps())
        && spec.dataTable == Some(WithRow(old(spec.dataTable).value, StaticCells(token.args)))
    }

    method AddTableRow(token: Token) returns (outcome: Outcome)
      requires Valid() && ScopesOf(state).table
      modifies `warnings, spec`dataTable, AllSteps()
      ensures Keeps(token, outcome) && outcome.Done? && RowTaken(token) && LatestShape() == old(LatestShape())
    {
      hide AllMatched, DistinctHeadings, AllSteps, ScopesOf, Projected, Specification.Projected, Scenario.Projected,
        Step.Matched, HasTable, GoodToken, Latest, Backed, TableOwner, RowTaken, Keeps, LatestShape, WithRow,
        StaticCells;
      assert allocated(AllSteps());
      NoLatestIf();
      var latest := LatestStep();
      if latest.Some? {
        outcome := RowOfLatest(latest.value, token);
      } else {
        RowOfDataTable(token);
        NoLatestIf();
        DataRowTaken(token);
        outcome := Done;
      }
    }

    /** A row of the data table leaves all steps alone. */
    twostate lemma {:induction false} DataRowTaken(token: Token)
      requires !old(ScopesOf(state)).step && !old(ScopesOf(state)).context
      requires spec.scenarios == old(spec.scenarios) && spec.contexts == old(spec.contexts)
      requires forall s :: s in spec.scenarios ==> s.steps == old(s.steps)
      requires unchanged(AllSteps()) && old(spec.dataTable).Some?
      requires spec.dataTable == Some(WithRow(old(spec.dataTable).value, StaticCells(token.args)))
      ensures RowTaken(token)
    {
      hide ScopesOf, StaticCells, WithRow;
    }

    /** A row of the table of the latest step: nothing but that step changes. */
    method RowOfLatest(latest: Step, token: Token) returns (outcome: Outcome)
      requires Valid() && ScopesOf(state).table && Latest(ScopesOf(state), latest) && latest in AllSteps()
      requires ScopesOf(state).step || ScopesOf(state).context
      modifies `warnings, latest
      ensures Keeps(token, outcome) && outcome.Done? && RowTaken(token) && LatestShape() == old(LatestShape())
    {
      hide Keeps, Valid, AllSteps, ScopesOf, LatestShape, Step.GetShape, WithRow, StaticCells, RowCells, HasTable,
        RowAdded;
      assert allocated(AllSteps());
      ShapeOfLatest(latest);
      outcome := RowOfStep(latest, token);
      StepsKept();
      StillLatest(latest);
      OnlyOneLatest();
    }

    /** A row of a table: a comment when no table is open, otherwise it goes to the open table;
        separator lines are skipped. */
    method ConvertRow(token: Token) returns (outcome: Outcome)
      requires Valid()
      modifies `warnings, spec, spec.scenarios, AllSteps()
      ensures Keeps(token, outcome) && outcome.Done? && spec.heading == old(spec.heading)
      ensures LatestShape() == old(LatestShape())
      ensures !ScopesOf(state).table ==>
                Commented(token.lineText) && SameTexts() && spec.dataTable == old(spec.dataTable)
      ensures ScopesOf(state).table ==>
                && SameItems()
                && if AreUnderlined(token.args) then SameSteps() && unchanged(AllSteps()) else RowTaken(token)
    {
      hide AllMatched, DistinctHeadings, AllSteps, ScopesOf, Projected, Specification.Projected, Scenario.Projected,
        Step.Matched, HasTable, GoodToken, Latest, Backed, TableOwner, AreUnderlined, RowTaken, Commented, SameTexts;
      assert allocated(AllSteps());
      TableScope(state);
      outcome := Done;
      if !IsInState(state, TABLE) {
        CommentOnTable(token, []);
      } else if !AreUnderlined(token.args) {
        outcome := AddTableRow(token);
      }
    }

    method TableRowConverter(token: Token) returns (outcome: Outcome)
      requires Valid() && token.kind.TableRow?
      modifies `state, `warnings, spec, spec.scenarios, AllSteps()
      ensures Keeps(token, outcome) && outcome.Done? && spec.heading == old(spec.heading)
      ensures ScopesOf(state) == old(ScopesOf(state)) && LatestShape() == old(LatestShape())
      ensures !ScopesOf(state).table ==>
                Commented(token.lineText) && SameTexts() && spec.dataTable == old(spec.dataTable)
      ensures ScopesOf(state).table ==>
                && SameItems()
                && if AreUnderlined(token.args) then SameSteps() && unchanged(AllSteps()) else RowTaken(token)
    {
      hide AllMatched, DistinctHeadings, AllSteps, ScopesOf, AfterRow, Projected, Specification.Projected,
        Scenario.Projected, Step.Matched, HasTable, GoodToken, Latest, Backed, TableOwner, AreUnderlined, RowTaken,
        Commented, SameTexts;
      Transitions(state);
      assert allocated(AllSteps());
      outcome := ConvertRow(token);
      label converted:
      state := AfterRow(state);
      OnlyStateChanged@converted();
    }

    twostate lemma {:induction false} ContextAdded()
      requires spec.scenarios == old(spec.scenarios)
      requires |spec.contexts| == |old(spec.contexts)| + 1 && old(spec.contexts) <= spec.contexts
      requires forall s :: s in spec.scenarios ==> s.steps == old(s.steps)
      ensures AllSteps() == old(AllSteps()) + {spec.contexts[|spec.contexts| - 1]}
    {
      assert spec.contexts == old(spec.contexts) + [spec.contexts[|spec.contexts| - 1]];
    }

    /** The guards of the converters, in the order in which they are asked. */
    predicate Fires(i: nat, token: Token)
      reads `state
    {
      match i
      case 0 => token.kind.SpecKind?
      case 1 => token.kind.ScenarioKind?
      case 2 => token.kind.StepKind? && IsInState(state, SCENARIO)
      case 3 => token.kind.StepKind? && !IsInState(state, SCENARIO) && IsInState(state, SPEC)
      case 4 => token.kind.CommentKind?
      case 5 => token.kind.TableHeader? && IsInState(state, SPEC)
      case 6 => token.kind.TableRow?
      case 7 => token.kind.TagKind?
      case 8 => token.kind.DataTableKind?
      case _ => false
    }

    predicate AnyFires(i: nat, token: Token)
      reads `state
    {
      exists j :: i <= j < 9 && Fires(j, token)
    }

    ghost function Parts(): set<object>
      reads spec, spec.scenarios
    {
      {this, spec} + (set s | s in spec.scenarios) + AllSteps()
    }

    /** What the lemmas about outlines need to know of the bitmask. */
    lemma {:induction false} OutlinedScopes()
      requires InScope()
      ensures var s := Outlined().scopes;
              && (s.spec <==> spec.heading.Some?) && (s.scenario ==> s.spec) && (s.step ==> s.scenario)
              && (s.table && !s.step && !s.context ==> spec.dataTable.Some?)
              && (s.step || s.context <==> Outlined().latest.Some?)
    {
      hide ScopesOf, AllSteps, HasTable;
    }

    lemma {:induction false} HeadingObjections(token: Token)
      ensures token.kind.SpecKind? ==>
                Objection(Outlined(), token, resolve, lower) ==
                if spec.heading.Some? then Some(MultipleSpecHeadings) else None
      ensures token.kind.ScenarioKind? ==>
                Objection(Outlined(), token, resolve, lower) ==
                if spec.heading.None? then Some(ScenarioBeforeSpec)
                else if exists s :: s in spec.scenarios && lower(s.heading) == lower(token.value)
                then Some(DuplicateScenario) else None
    {
      hide Entries, ScopesOf;
      var bodies := Bodies(spec.scenarios);
      if s :| s in spec.scenarios && lower(s.heading) == lower(token.value) {
        var k :| 0 <= k < |spec.scenarios| && spec.scenarios[k] == s;
        assert lower(bodies[k].heading) == lower(token.value);
      }
    }

    /** The converters for headings. */
    method ApplyHeading(i: nat, token: Token) returns (outcome: Outcome)
      requires Valid() && i < 2 && Fires(i, token)
      modifies Parts()
      ensures Keeps(token, outcome) && Contributes(token, outcome)
    {
      hide Valid, AllSteps, ScopesOf, Entries, Advance, Keeps, Objection, Bodies, Stops, LatestShape, Listed, SameTexts;
      ValidLists();
      HeadingObjections(token);
      HeadingTokens(Outlined(), token, resolve);
      StopsByKind(Outlined(), token, resolve);
      if i == 0 {
        outcome := SpecConverter(token);
        assert Contributes(token, outcome) by {
          if outcome.Done? {
            KeptLists(token);
            SameOutline();
          }
        }
      } else {
        outcome := ScenarioConverter(token);
        assert Contributes(token, outcome) by {
          if outcome.Done? {
            KeptLists(token);
            ScenarioOutlined();
            NoLatest();
          }
        }
      }
    }

    /** The converters for steps. */
    method ApplyStep(i: nat, token: Token) returns (outcome: Outcome)
      requires Valid() && 2 <= i < 4 && Fires(i, token)
      modifies Parts()
      ensures Keeps(token, outcome) && Contributes(token, outcome)
      ensures outcome.Done? && i == 2 ==> ScopesOf(state).scenario
    {
      hide Projected, DistinctHeadings, InScope, AllSteps, ScopesOf, Entries, Advance, Keeps, StepObjection,
        TrimSpace, Stops, LatestShape, NewShape, NewEntry, Fits, Listed, SameTexts, Bodies;
      ValidLists();
      SpecScope(state);
      ScenarioScope(state);
      OutlinedScopes();
      StepToken(Outlined(), token, resolve);
      StopsByKind(Outlined(), token, resolve);
      if i == 2 {
        outcome := StepConverter(token);
        if outcome.Done? {
          KeptLists(token);
          InScenarioOutlined();
        }
      } else {
        outcome := ContextConverter(token);
        if outcome.Done? {
          KeptLists(token);
          ItemOutlined();
        }
      }
    }

    /** The converters for lines that have no objections. */
    method ApplyLine(i: nat, token: Token) returns (outcome: Outcome)
      requires Valid() && (i == 4 || i == 7 || i == 8) && Fires(i, token)
      modifies Parts()
      ensures Keeps(token, outcome) && Contributes(token, outcome)
    {
      hide Projected, DistinctHeadings, InScope, AllSteps, ScopesOf, Entries, Bodies, Advance, Keeps, Extended,
        Commented, StepObjection, Stops, LatestShape, Listed, SameTexts;
      ValidLists();
      StopsByKind(Outlined(), token, resolve);
      match i {
        case 4 =>
          CommentToken(Outlined(), token, resolve);
          outcome := CommentConverter(token);
        case 7 =>
          TagToken(Outlined(), token, resolve);
          outcome := TagConverter(token);
        case 8 =>
          OutlinedScopes();
          outcome := KeywordConverter(token);
          assert Contributes(token, outcome) by {
            KeywordToken(old(Outlined()), token, resolve);
            KeptLists(token);
            ItemOutlined();
          }
      }
    }

    /** A table that a step has taken is in the outline. */
    twostate lemma {:induction false} HeaderOutlined(token: Token)
      requires HeaderTaken(token) && old(Valid()) && Valid() && old(Listed())
      requires old(ScopesOf(state)).step || old(ScopesOf(state)).context
      ensures var o := old(Outlined());
              && LatestEntry(o).Some? && spec.dataTable == old(spec.dataTable)
              && Entries(spec.items) == Retouch(o, Tabled(LatestEntry(o).value, token.args)).top
              && Bodies(spec.scenarios) == Retouch(o, Tabled(LatestEntry(o).value, token.args)).bodies
    {
      hide Entries, Bodies, Outlined, Retouch, LatestEntry, AllSteps, ScopesOf, Valid, OnlyLatest, Latest, Listed,
        Headed;
      Retouching();
    }

    /** A row that a step has taken is in the outline. */
    twostate lemma {:induction false} RowOutlined(token: Token)
      requires RowTaken(token) && old(Valid()) && Valid() && old(Listed())
      requires old(ScopesOf(state)).step || old(ScopesOf(state)).context
      ensures var o := old(Outlined());
              && LatestEntry(o).Some? && spec.dataTable == old(spec.dataTable)
              && var latest := LatestEntry(o).value;
                 var step := latest.(args := WithCells(latest.args, RowCells(token.args, Columns(o.table))));
              && Entries(spec.items) == Retouch(o, step).top && Bodies(spec.scenarios) == Retouch(o, step).bodies
    {
      hide Entries, Bodies, Retouch, LatestEntry, ScopesOf, Valid, OnlyLatest, Latest, Listed, WithRow,
        RowCells, LatestShape, WithCells, RowAdded;
      Retouching();
      var step: Step :| step in old(AllSteps()) && old(Latest(ScopesOf(state), step))
        && RowAdded(old(step.args), step.args, RowCells(token.args, old(Names()))) && step.value == old(step.value);
      AddedIsWith(old(step.args), step.args, RowCells(token.args, old(Names())));
    }

    /** A separator, or a row of the data table, changes no step. */
    twostate lemma {:induction false} RowElsewhere(token: Token)
      requires if AreUnderlined(token.args) then SameSteps() && unchanged(AllSteps())
               else RowTaken(token) && !old(ScopesOf(state)).step && !old(ScopesOf(state)).context
      ensures SameTexts()
      ensures if AreUnderlined(token.args) then spec.dataTable == old(spec.dataTable)
              else
                && old(spec.dataTable).Some?
                && spec.dataTable == Some(WithRow(old(spec.dataTable).value, StaticCells(token.args)))
    {
      hide AreUnderlined, WithRow, StaticCells, ScopesOf, AllSteps;
    }

    /** The latest step is in the outline. */
    lemma {:induction false} LatestOutlined()
      requires Valid() && (ScopesOf(state).step || ScopesOf(state).context)
      ensures LatestEntry(Outlined()).Some?
    {
      hide AllSteps, ScopesOf, LatestShape, DistinctHeadings, HasTable;
      if ScopesOf(state).step {
        var last := spec.scenarios[|spec.scenarios| - 1];
        assert last.Projected();
        StepsAreListed(last.items);
      } else {
        assert spec.Projected();
        StepsAreListed(spec.items);
      }
    }

    /** The converter for the first line of a table. */
    method ApplyTable(token: Token) returns (outcome: Outcome)
      requires Valid() && Fires(5, token)
      modifies Parts()
      ensures Keeps(token, outcome) && Contributes(token, outcome)
    {
      hide Projected, DistinctHeadings, InScope, AllSteps, ScopesOf, Entries, Bodies, Advance, Keeps, Stops,
        LatestShape, Fits, WithTable, Listed, SameTexts, HeaderTaken, LatestEntry, ReplaceLast;
      ValidLists();
      SpecScope(state);
      OutlinedScopes();
      StopsByKind(Outlined(), token, resolve);
      if ScopesOf(state).step || ScopesOf(state).context {
        LatestOutlined();
      }
      outcome := TableHeaderConverter(token);
      assert Contributes(token, outcome) by {
        HeaderToken(old(Outlined()), token, resolve);
        if outcome.Done? {
          KeptLists(token);
          var s := old(ScopesOf(state));
          if s.step || s.context {
            HeaderOutlined(token);
          } else if s.scenario {
            CommentOutlined(token.lineText);
          } else {
            ItemOutlined();
          }
        }
      }
    }

    /** The converter for the rows of a table. */
    method ApplyRow(token: Token) returns (outcome: Outcome)
      requires Valid() && Fires(6, token)
      modifies Parts()
      ensures Keeps(token, outcome) && Contributes(token, outcome)
    {
      hide Projected, DistinctHeadings, InScope, AllSteps, ScopesOf, Entries, Bodies, Advance, Keeps, AreUnderlined,
        Stops, LatestShape, Listed, LatestEntry, ReplaceLast, WithCells, RowTaken, SameTexts, OnlyLatest, WithRow,
        Commented, RowCells, StaticCells, Extended;
      ValidLists();
      OutlinedScopes();
      StopsByKind(Outlined(), token, resolve);
      if ScopesOf(state).step || ScopesOf(state).context {
        LatestOutlined();
      }
      outcome := TableRowConverter(token);
      assert Contributes(token, outcome) by {
        RowToken(old(Outlined()), token, resolve);
        KeptLists(token);
        var s := old(ScopesOf(state));
        if !s.table {
          CommentOutlined(token.lineText);
        } else if (s.step || s.context) && !AreUnderlined(token.args) {
          RowOutlined(token);
        } else {
          RowElsewhere(token);
          SameOutline();
        }
      }
    }

    method Apply(i: nat, token: Token) returns (outcome: Outcome)
      requires Valid() && Fires(i, token)
      modifies Parts()
      ensures Keeps(token, outcome) && Contributes(token, outcome)
      ensures outcome.Done? ==> !AnyFires(i + 1, token)
    {
      hide Projected, DistinctHeadings, AllSteps, AllMatched, GoodToken, HasTable, ScopesOf, TableOwner, Latest,
        Contributes, Keeps;
      if i < 2 {
        outcome := ApplyHeading(i, token);
      } else if i < 4 {
        outcome := ApplyStep(i, token);
      } else if i == 5 {
        outcome := ApplyTable(token);
      } else if i == 6 {
        outcome := ApplyRow(token);
      } else {
        outcome := ApplyLine(i, token);
      }
      ScenarioScope(state);
    }

    /** The converters from the `i`-th one on. At most one of them applies to a token. */
    method Convert(i: nat, token: Token) returns (outcome: Outcome, fired: nat)
      requires Valid() && i <= 9
      modifies if AnyFires(i, token) then Parts() else {}
      ensures Keeps(token, outcome)
      ensures fired == if old(AnyFires(i, token)) then 1 else 0
      ensures fired == 0 ==> outcome.Done?
      ensures fired == 1 ==> Contributes(token, outcome)
      decreases 9 - i
    {
      hide Projected, DistinctHeadings, AllMatched, GoodToken, HasTable, ScopesOf, TableOwner, Latest, Fires,
        Contributes;
      if i == 9 {
        return Done, 0;
      }
      if !Fires(i, token) {
        outcome, fired := Convert(i + 1, token);
        return;
      }
      outcome := Apply(i, token);
      assert allocated(AllSteps()) && allocated(StepObjects(spec.items)) && allocated(BodySteps(spec.scenarios));
      if !outcome.Done? {
        return outcome, 1;
      }
      outcome, fired := Convert(i + 1, token);
      fired := fired + 1;
    }

    /** Only a step or a table before the heading of the specification finds no converter. */
    lemma {:induction false} NothingFires(token: Token)
      requires Valid() && !AnyFires(0, token)
      ensures Objection(Outlined(), token, resolve, lower).None? && !Stops(Outlined(), token, resolve)
      ensures Advance(Outlined(), token, resolve) == Outlined()
    {
      hide Projected, DistinctHeadings, TableOwner, ScopesOf, LatestShape, Objection, Advance, Stops, Bodies, Entries;
      SpecScope(state);
      ScenarioScope(state);
      assert !Fires(0, token) && !Fires(1, token) && !Fires(2, token) && !Fires(3, token) && !Fires(4, token)
        && !Fires(5, token) && !Fires(6, token) && !Fires(7, token) && !Fires(8, token);
      BeforeTheHeading(Outlined(), token, resolve, lower);
    }

    /** What all converters together make of a token. */
    method ConvertToken(token: Token) returns (outcome: Outcome)
      requires Valid()
      modifies Parts()
      ensures Keeps(token, outcome) && Contributes(token, outcome)
    {
      hide Projected, DistinctHeadings, AllSteps, AllMatched, GoodToken, HasTable, ScopesOf, TableOwner, Latest,
        Fires, Objection, Advance, Stops;
      if !AnyFires(0, token) {
        NothingFires(token);
      }
      assert allocated(AllSteps()) && allocated(StepObjects(spec.items)) && allocated(BodySteps(spec.scenarios));
      var fired;
      outcome, fired := Convert(0, token);
    }

    /** `validateSpec`; a data table without columns has no first column whose rows could be counted. */
    function Validated(): BuildResult
      reads spec
    {
      if spec.items == [] then Refused(NoElements)
      else if spec.heading.None? then Refused(NoSpecHeading)
      else if spec.dataTable.Some? then
        if spec.dataTable.value.headers == [] then Stopped
        else if spec.dataTable.value.Height() == 0 then Refused(NoDataRows) else Built(this)
      else Built(this)
    }

    /** Validation looks at nothing but the outline. */
    lemma {:induction false} ValidatedByOutline()
      ensures Validated() ==
              match Verdict(Outlined())
              case Some(error) => Refused(error)
              case None => if Columnless(Outlined()) then Stopped else Built(this)
    {
      hide Bodies;
    }

    twostate lemma {:induction false} StepsKept()
      requires spec.scenarios == old(spec.scenarios) && spec.contexts == old(spec.contexts)
      requires forall s :: s in spec.scenarios ==> s.steps == old(s.steps)
      ensures AllSteps() == old(AllSteps())
    {
    }
  }

  lemma {:induction false} LastReplaced(items: seq<Item>, latest: Step, before: seq<Entry>, was: Entry)
    requires |before| == |items| && was.StepEntry?
    requires StepsIn(items) != [] && StepsIn(items)[|StepsIn(items)| - 1] == latest && NoneTwice(StepsIn(items))
    requires forall k :: 0 <= k < |items| ==>
               before[k] == if items[k] == StepItem(latest) then was else EntryOf(items[k])
    ensures Entries(items) == ReplaceLast(before, EntryOf(StepItem(latest))) && LastStep(before) == Some(was)
  {
    var n := |items| - 1;
    var before' := before[..n];
    ObjectsAreSteps(items[..n]);
    if items[n].StepItem? {
      var steps := StepsIn(items[..n]);
      assert StepsIn(items) == steps + [latest];
      assert forall i :: 0 <= i < |steps| ==> steps[i] == StepsIn(items)[i] != StepsIn(items)[|steps|];
      forall k | 0 <= k < n ensures items[k] != StepItem(latest) {
        if items[..n][k].StepItem? {
          OneObject(items[..n], k);
        }
      }
      assert Entries(items) == before' + [EntryOf(StepItem(latest))];
    } else {
      assert StepsIn(items) == StepsIn(items[..n]);
      LastReplaced(items[..n], latest, before', was);
      assert items == items[..n] + [items[n]];
      EntryAdded(items[..n], items[n]);
    }
  }

  lemma {:induction false} StepsAreListed(items: seq<Item>)
    requires StepsIn(items) != []
    ensures LastStep(Entries(items)).Some?
  {
    var n := |items| - 1;
    if !items[n].StepItem? {
      StepsAreListed(items[..n]);
      assert items == items[..n] + [items[n]];
      EntryAdded(items[..n], items[n]);
      assert Entries(items)[..n] == Entries(items[..n]);
    }
  }

  lemma {:induction false} AddedIsWith(before: seq<Arg>, after: seq<Arg>, cells: seq<Cell>)
    requires RowAdded(before, after, cells)
    ensures after == WithCells(before, cells)
  {
    hide WithRow;
    assert after == after[..|after| - 1] + [after[|after| - 1]];
  }

  lemma {:induction false} OneObject(items: seq<Item>, k: nat)
    requires k < |items| && items[k].StepItem?
    ensures items[k].step in StepObjects(items)
  {
  }

  lemma {:induction false} SomeObjects(items: seq<Item>, item: Item)
    ensures StepObjects(items) <= StepObjects(items + [item])
  {
    forall x | x in StepObjects(items) ensures x in StepObjects(items + [item]) {
      var k :| 0 <= k < |items| && items[k].StepItem? && items[k].step == x;
      assert (items + [item])[k] == items[k];
    }
  }

  /** The steps among some items are those of the list. */
  lemma {:induction false} ObjectsAreSteps(items: seq<Item>)
    ensures forall x :: x in StepObjects(items) <==> x in StepsIn(items)
  {
    if items != [] {
      var n := |items| - 1;
      ObjectsAreSteps(items[..n]);
      forall x ensures x in StepObjects(items) <==> x in StepObjects(items[..n]) || items[n] == StepItem(x) {
        if x in StepObjects(items[..n]) {
          var k :| 0 <= k < n && items[..n][k].StepItem? && items[..n][k].step == x;
          assert items[k] == items[..n][k];
        }
        if x in StepObjects(items) {
          var k :| 0 <= k < |items| && items[k].StepItem? && items[k].step == x;
          assert k < n ==> items[..n][k] == items[k];
        }
      }
    }
  }

  /** One more row in the table of the last argument, and nothing else. */
  ghost predicate RowAdded(before: seq<Arg>, after: seq<Arg>, cells: seq<Cell>) {
    && |after| == |before| > 0 && after[..|after| - 1] == before[..|before| - 1]
    && before[|before| - 1].table.Some?
    && after[|after| - 1] ==
       before[|before| - 1].(table := Some(WithRow(before[|before| - 1].table.value, cells)))
  }

  /** Cells in angle brackets that name no column. */
  function CellWarnings(values: seq<string>, names: seq<string>): seq<Warning> {
    if values == [] then []
    else
      var last := values[|values| - 1];
      CellWarnings(values[..|values| - 1], names) +
      if NamesParameter(last) && !RowCell(last, names).isDynamic then [UnresolvedCell] else []
  }

  /** A warning for each such cell, and for no other. */
  lemma {:induction false} WarnedCells(values: seq<string>, names: seq<string>, more: seq<string>, value: string)
    ensures CellWarnings(values + more, names) == CellWarnings(values, names) + CellWarnings(more, names)
    ensures CellWarnings([], names) == []
    ensures CellWarnings([value], names) ==
            if (exists text :: value == "<" + text + ">")
               && !(exists name :: name in names && value == "<" + name + ">")
            then [UnresolvedCell] else []
  {
    hide RowCell, NamesParameter;
    if more == [] {
      assert values + more == values;
    } else {
      var n := |more| - 1;
      assert (values + more)[..|values + more| - 1] == values + more[..n];
      WarnedCells(values, names, more[..n], value);
    }
    assert [value][..0] == [];
    WarnedCell(value, names);
  }

  lemma {:induction false} WarnedCell(value: string, names: seq<string>)
    ensures NamesParameter(value) <==> exists text :: value == "<" + text + ">"
    ensures NamesParameter(value) ==>
              (RowCell(value, names).isDynamic <==> exists name :: name in names && value == "<" + name + ">")
  {
    if NamesParameter(value) {
      assert value == "<" + value[1..|value| - 1] + ">";
      forall name | name in names && value == "<" + name + ">"
        ensures value[1..|value| - 1] == name
      {
      }
    }
  }

  lemma {:induction false} TableScope(state: bv16)
    ensures IsInState(state, TABLE) == ScopesOf(state).table
  {
  }

  lemma {:induction false} ScenarioScope(state: bv16)
    ensures IsInState(state, SCENARIO) == ScopesOf(state).scenario
  {
  }

  lemma {:induction false} SpecScope(state: bv16)
    ensures IsInState(state, SPEC) == ScopesOf(state).spec
  {
  }

  /** Builds a specification. The outcome is decided by the tokens: a token that is objected to
      is refused, a step that cannot be split stops the program, and otherwise what has been
      built has the outline of the tokens; it is refused when it has no items, no heading, or a
      data table without rows, and a data table without columns stops the program. When no step
      text has a literal placeholder and every table has columns, every step has as many
      arguments as placeholders and the program does not stop. */
  method CreateSpecification(tokens: seq<Token>, resolve: string -> Resolution, lower: string -> string)
      returns (result: BuildResult)
    ensures result.Built? <==> BuiltFrom(tokens, resolve, lower)
    ensures result.Stopped? <==> StoppedFor(tokens, resolve, lower)
    ensures result.Refused? ==> RefusedFor(tokens, result.error, resolve, lower)
    ensures result.Built? ==>
              var b := result.builder;
              && fresh(b) && b.Valid() && b.resolve == resolve && b.lower == lower
              && b.Outlined() == Read(tokens, |tokens|, resolve)
    ensures AllGood(tokens, resolve) ==> !result.Stopped? && (result.Built? ==> result.builder.AllMatched())
  {
    hide Builder.Valid, Builder.Sound, Builder.AllSteps, Builder.AllMatched, GoodToken, Objection, Advance,
      Builder.Outlined, Stops, StoppedFor, RefusedFor, BuiltFrom, Verdict, Columnless, Read, Accepted, AllGood;
    var builder := new Builder(resolve, lower);
    OneOutcome(tokens, resolve, lower);
    NoTokens(tokens, resolve, lower);
    for i := 0 to |tokens|
      invariant fresh(builder) && fresh(builder.spec) && builder.Valid()
      invariant builder.resolve == resolve && builder.lower == lower
      invariant forall s :: s in builder.spec.scenarios ==> fresh(s)
      invariant forall s :: s in builder.AllSteps() ==> fresh(s)
      invariant AllGood(tokens, resolve) ==> builder.Sound()
      invariant builder.Outlined() == Read(tokens, i, resolve) && Accepted(tokens, i, resolve, lower)
    {
      NextToken(tokens, i, resolve, lower);
      var outcome := builder.ConvertToken(tokens[i]);
      if outcome.Failed? {
        RefusedAt(tokens, i, outcome.error, resolve, lower);
        return Refused(outcome.error);
      }
      if outcome.Panicked? {
        StoppedAt(tokens, i, resolve, lower);
        return Stopped;
      }
    }
    builder.SoundIff();
    builder.ValidatedByOutline();
    AtTheEnd(tokens, resolve, lower);
    result := builder.Validated();
  }

  /** A specification is built exactly when every token passes, one of them is the heading, it has
      lines, and its data table, if there is one, has columns and rows. */
  lemma {:induction false} BuiltIff(tokens: seq<Token>, resolve: string -> Resolution, lower: string -> string)
    ensures BuiltFrom(tokens, resolve, lower) <==>
            && Accepted(tokens, |tokens|, resolve, lower)
            && (exists i :: 0 <= i < |tokens| && tokens[i].kind.SpecKind?)
            && var o := Read(tokens, |tokens|, resolve);
            && o.top != [] && (o.table.Some? ==> o.table.value.headers != [] && o.table.value.columns[0] != [])
  {
    hide Accepted, Read;
    HeadingIff(tokens, |tokens|, resolve);
  }

  lemma {:induction false} NoTokens(tokens: seq<Token>, resolve: string -> Resolution, lower: string -> string)
    ensures Read(tokens, 0, resolve) == NOTHING && Accepted(tokens, 0, resolve, lower)
  {
  }

  lemma {:induction false} NextToken(tokens: seq<Token>, i: nat, resolve: string -> Resolution, lower: string -> string)
    requires i < |tokens| && Accepted(tokens, i, resolve, lower)
    ensures Read(tokens, i + 1, resolve) == Advance(Read(tokens, i, resolve), tokens[i], resolve)
    ensures Objection(Read(tokens, i, resolve), tokens[i], resolve, lower).None?
            && !Stops(Read(tokens, i, resolve), tokens[i], resolve) ==>
              Accepted(tokens, i + 1, resolve, lower)
    ensures AllGood(tokens, resolve) ==> GoodToken(tokens[i], resolve)
  {
    hide Objection, Stops, Advance, GoodToken;
  }

  lemma {:induction false} RefusedAt(tokens: seq<Token>, i: nat, error: BuildError, resolve: string -> Resolution,
      lower: string -> string)
    requires i < |tokens| && Accepted(tokens, i, resolve, lower)
    requires Objection(Read(tokens, i, resolve), tokens[i], resolve, lower) == Some(error)
    ensures RefusedFor(tokens, error, resolve, lower)
  {
    hide Objection, Read;
  }

  lemma {:induction false} StoppedAt(tokens: seq<Token>, i: nat, resolve: string -> Resolution, lower: string -> string)
    requires i < |tokens|
    ensures Accepted(tokens, i, resolve, lower)
            && Objection(Read(tokens, i, resolve), tokens[i], resolve, lower).None?
            && Stops(Read(tokens, i, resolve), tokens[i], resolve) ==>
              StoppedFor(tokens, resolve, lower)
  {
    hide Objection, Stops, Read;
  }

  lemma {:induction false} AtTheEnd(tokens: seq<Token>, resolve: string -> Resolution, lower: string -> string)
    requires Accepted(tokens, |tokens|, resolve, lower)
    ensures Verdict(Read(tokens, |tokens|, resolve)).Some? ==>
              RefusedFor(tokens, Verdict(Read(tokens, |tokens|, resolve)).value, resolve, lower)
    ensures Columnless(Read(tokens, |tokens|, resolve)) ==> StoppedFor(tokens, resolve, lower)
    ensures Verdict(Read(tokens, |tokens|, resolve)).None? && !Columnless(Read(tokens, |tokens|, resolve)) ==>
              BuiltFrom(tokens, resolve, lower)
  {
    hide Objection, Stops, Read, Verdict;
  }

  /** Being built, being refused and stopping exclude each other. */
  lemma {:induction false} OneOutcome(tokens: seq<Token>, resolve: string -> Resolution, lower: string -> string)
    ensures BuiltFrom(tokens, resolve, lower) ==> !StoppedFor(tokens, resolve, lower)
    ensures forall e :: RefusedFor(tokens, e, resolve, lower) ==>
              !BuiltFrom(tokens, resolve, lower) && !StoppedFor(tokens, resolve, lower)
  {
    hide Objection, Stops, Read, Verdict;
    if StoppedFor(tokens, resolve, lower) {
      forall e ensures !RefusedFor(tokens, e, resolve, lower) {
        NotBoth(tokens, e, resolve, lower);
      }
    }
  }

  lemma {:induction false} NotBoth(tokens: seq<Token>, e: BuildError, resolve: string -> Resolution,
      lower: string -> string)
    requires StoppedFor(tokens, resolve, lower)
    ensures !RefusedFor(tokens, e, resolve, lower)
  {
    hide Objection, Stops, Read, Verdict;
  }

  /** There is one reason for a refusal. */
  lemma {:induction false} OneReason(tokens: seq<Token>, e: BuildError, f: BuildError, resolve: string -> Resolution,
      lower: string -> string)
    ensures RefusedFor(tokens, e, resolve, lower) && RefusedFor(tokens, f, resolve, lower) ==> e == f
  {
    hide Objection, Stops, Read, Verdict;
  }

  /** Literal text around markers makes good step tokens. */
  lemma {:induction false} LiteralTextIsGood(texts: seq<string>, kinds: seq<Kind>)
    requires |texts| == |kinds| + 1 && forall t :: t in texts ==> Literal(t)
    ensures var value := Weave(texts, Markers(kinds));
            Kinds(value) == kinds && CountHoles(Extract(value).0) == |kinds|
  {
    hide Extract, CountHoles, Weave, Literal;
    ExtractWeave(texts, kinds);
    CountOfWeave(texts);
  }

  lemma {:induction false} BraceIsNoMarker(text: string)
    ensures !AtMarker("{}" + text) && !AtMarker("}" + text)
  {
    hide Marker;
    assert ("{}" + text)[1] == '}' && ("}" + text)[0] == '}';
    MarkerShape(Static);
    MarkerShape(Dynamic);
    MarkerShape(Special);
  }

  /** Reading passes over a pair of braces in front. */
  lemma {:induction false} BracesStay(text: string)
    ensures Extract("{}" + text) == Prepend("{}", [], Extract(text))
  {
    hide Marker, AtMarker, FirstKind;
    var value := "{}" + text;
    assert value[1..] == "}" + text && value[1..][1..] == text;
    BraceIsNoMarker(text);
    assert Extract("}" + text) == Prepend("}", [], Extract(text));
    assert Extract(value) == Prepend("{", [], Extract("}" + text));
    assert "{" + ("}" + Extract(text).0) == "{}" + Extract(text).0;
    assert [] + ([] + Extract(text).1) == [] + Extract(text).1;
  }

  /** A step with a literal placeholder has more placeholders than arguments. */
  lemma {:induction false} LiteralPlaceholderIsBad(text: string, kinds: seq<Kind>)
    requires Kinds(text) == kinds && CountHoles(Extract(text).0) == |kinds|
    ensures var value := "{}" + text; Kinds(value) == kinds && CountHoles(Extract(value).0) == |kinds| + 1
  {
    hide Extract;
    BracesStay(text);
    assert ("{}" + Extract(text).0)[2..] == Extract(text).0;
  }
}
