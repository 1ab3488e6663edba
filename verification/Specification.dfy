/** A specification as it is built from tokens: steps, scenarios and their item lists. */
module Specification {
  import opened Text
  import opened Tables
  import opened Substitution
  import opened StepFormat
  import opened Fragments

  predicate AllConvertible(args: seq<Arg>) {
    forall i :: 0 <= i < |args| ==> Convertible(args[i])
  }

  /** Which arguments can be shown. */
  function ShownArgs(args: seq<Arg>): (shown: seq<bool>)
    ensures |shown| == |args| && forall i :: 0 <= i < |args| ==> shown[i] == Convertible(args[i])
  {
    seq(|args|, i requires 0 <= i < |args| => Convertible(args[i]))
  }

  class Step {
    const lineText: string
    var value: string
    var args: seq<Arg>
    var hasInlineTable: bool
    var fragments: seq<Fragment>

    constructor (value: string, lineText: string)
      ensures this.value == value && this.lineText == lineText && args == [] && !hasInlineTable && fragments == []
    {
      this.value, this.lineText := value, lineText;
      args, hasInlineTable, fragments := [], false, [];
    }

    /** As many placeholders as arguments, and every table can be shown. */
    predicate Matched()
      reads `value, `args
    {
      CountHoles(value) == |args| && AllConvertible(args)
    }

    function GetShape(): Shape
      reads `value, `args
    {
      Shape(CountHoles(value), ShownArgs(args))
    }

    /** `populateFragments`; not ok is where the program stops. */
    method Repopulate() returns (ok: bool)
      modifies `fragments
      ensures ok <==> Fits(GetShape())
      ensures ok ==> Joined(fragments) == value
      ensures ok ==> Parameters(fragments) == if args == [] then [] else UpTo(CountHoles(value))
    {
      hide CountHoles, Joined, Parameters;
      var r := PopulateFragments(value, |args|);
      ok := r.Some? && forall k :: 0 <= k < |args| && k < CountHoles(value) ==> Convertible(args[k]);
      fragments := if r.Some? then r.value else [];
    }

    method AddArgs(more: seq<Arg>) returns (ok: bool)
      modifies `args, `fragments
      ensures args == old(args) + more
      ensures ok <==> Fits(GetShape())
      ensures ok ==> Joined(fragments) == value
    {
      hide CountHoles, Joined, Parameters;
      args := args + more;
      ok := Repopulate();
    }

    /** `addInlineTableHeader`: one more placeholder and a table for it. */
    method AddInlineTableHeader(headers: seq<string>) returns (ok: bool)
      modifies this
      ensures hasInlineTable && value == old(value) + " {}"
      ensures args == old(args) + [Arg("", "", TableArg, Some(Headed(headers)))]
      ensures GetShape() == Shape(old(GetShape()).holes + 1, old(GetShape()).shown + [headers != []])
      ensures ok <==> Fits(GetShape())
      ensures old(Matched()) && headers != [] ==> ok && Matched()
      ensures ok ==> Joined(fragments) == value
    {
      hide CountHoles, Joined, Parameters;
      TableAddsHole(value);
      value := value + " {}";
      hasInlineTable := true;
      ok := AddArgs([Arg("", "", TableArg, Some(Headed(headers)))]);
      assert ShownArgs(args) == ShownArgs(old(args)) + [headers != []];
    }

    /** `addInlineTableRow`: the row goes into the table of the last argument. */
    method AddInlineTableRow(row: seq<Cell>) returns (ok: bool)
      requires args != [] && args[|args| - 1].table.Some?
      modifies `args, `fragments
      ensures |args| == |old(args)| && args[..|args| - 1] == old(args)[..|args| - 1]
      ensures var last := old(args)[|args| - 1];
              args[|args| - 1] == last.(table := Some(WithRow(last.table.value, row)))
      ensures GetShape() == old(GetShape()) && (ok <==> Fits(GetShape()))
      ensures old(Matched()) ==> ok && Matched()
      ensures ok ==> Joined(fragments) == value
    {
      hide CountHoles, Joined, Parameters;
      var n := |args| - 1;
      var lastArg := args[n];
      args := args[n := lastArg.(table := Some(WithRow(lastArg.table.value, row)))];
      assert ShownArgs(args) == ShownArgs(old(args));
      ok := Repopulate();
    }
  }

  datatype Item =
    | StepItem(step: Step)
    | ScenarioItem(scenario: Scenario)
    | CommentItem(text: string)
    | TagsItem(values: seq<string>)
    | TableItem
    | ExternalTableItem(value: string)

  function StepsIn(items: seq<Item>): seq<Step> {
    if items == [] then []
    else
      var last := items[|items| - 1];
      StepsIn(items[..|items| - 1]) + if last.StepItem? then [last.step] else []
  }

  function ScenariosIn(items: seq<Item>): seq<Scenario> {
    if items == [] then []
    else
      var last := items[|items| - 1];
      ScenariosIn(items[..|items| - 1]) + if last.ScenarioItem? then [last.scenario] else []
  }

  function CommentsIn(items: seq<Item>): seq<string> {
    if items == [] then []
    else
      var last := items[|items| - 1];
      CommentsIn(items[..|items| - 1]) + if last.CommentItem? then [last.text] else []
  }

  /** What one more item adds to the lists of its kind. */
  lemma {:induction false} ItemAdded(items: seq<Item>, item: Item)
    ensures StepsIn(items + [item]) == StepsIn(items) + (if item.StepItem? then [item.step] else [])
    ensures ScenariosIn(items + [item]) == ScenariosIn(items) + (if item.ScenarioItem? then [item.scenario] else [])
    ensures CommentsIn(items + [item]) == CommentsIn(items) + (if item.CommentItem? then [item.text] else [])
  {
    assert (items + [item])[..|items|] == items;
  }

  class Scenario {
    const heading: string
    var steps: seq<Step>
    var comments: seq<string>
    var tags: Option<seq<string>>
    var items: seq<Item>

    constructor (heading: string)
      ensures this.heading == heading && steps == [] && comments == [] && tags == None && items == []
    {
      this.heading := heading;
      steps, comments, tags, items := [], [], None, [];
    }

    /** The lists are those of the items of their kind, in order. */
    predicate Projected()
      reads `steps, `comments, `items
    {
      steps == StepsIn(items) && comments == CommentsIn(items)
    }

    method AddStep(step: Step)
      requires Projected()
      modifies `steps, `items
      ensures Projected() && steps == old(steps) + [step] && items == old(items) + [StepItem(step)]
    {
      ItemAdded(items, StepItem(step));
      steps := steps + [step];
      items := items + [StepItem(step)];
    }

    method AddTags(values: seq<string>)
      requires Projected()
      modifies `tags, `items
      ensures Projected() && tags == Some(values) && items == old(items) + [TagsItem(values)]
    {
      ItemAdded(items, TagsItem(values));
      tags := Some(values);
      items := items + [TagsItem(values)];
    }

    method AddComment(text: string)
      requires Projected()
      modifies `comments, `items
      ensures Projected() && comments == old(comments) + [text] && items == old(items) + [CommentItem(text)]
    {
      ItemAdded(items, CommentItem(text));
      comments := comments + [text];
      items := items + [CommentItem(text)];
    }
  }

  class Specification {
    var heading: Option<string>
    var scenarios: seq<Scenario>
    var comments: seq<string>
    var contexts: seq<Step>
    var dataTable: Option<RectGrid>
    var tags: Option<seq<string>>
    var items: seq<Item>

    constructor ()
      ensures Projected() && heading == None && dataTable == None && tags == None
      ensures scenarios == [] && contexts == [] && items == []
    {
      heading, scenarios, comments, contexts, dataTable, tags, items := None, [], [], [], None, None, [];
    }

    /** The lists are those of the items of their kind, in order. */
    predicate Projected()
      reads `scenarios, `contexts, `comments, `items
    {
      scenarios == ScenariosIn(items) && contexts == StepsIn(items) && comments == CommentsIn(items)
    }

    method AddItem(item: Item)
      requires Projected()
      modifies `items, `scenarios, `contexts, `comments
      ensures Projected() && items == old(items) + [item]
      ensures scenarios == old(scenarios) + if item.ScenarioItem? then [item.scenario] else []
      ensures contexts == old(contexts) + if item.StepItem? then [item.step] else []
      ensures comments == old(comments) + if item.CommentItem? then [item.text] else []
    {
      ItemAdded(items, item);
      match item {
        case ScenarioItem(scenario) => scenarios := scenarios + [scenario];
        case StepItem(step) => contexts := contexts + [step];
        case CommentItem(text) => comments := comments + [text];
        case _ =>
      }
      items := items + [item];
    }

    method AddDataTable(table: RectGrid, item: Item)
      requires Projected() && !item.ScenarioItem? && !item.StepItem? && !item.CommentItem?
      modifies this
      ensures Projected() && items == old(items) + [item] && dataTable == Some(table)
      ensures scenarios == old(scenarios) && contexts == old(contexts) && heading == old(heading)
    {
      dataTable := Some(table);
      AddItem(item);
    }
  }
}
