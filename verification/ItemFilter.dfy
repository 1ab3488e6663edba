/** Removing items of a specification in place while a filter with a state of its own looks at
    them. */
module ItemFilter {
  import opened Specification

  /** A filter: what it answers for an item and its next state. */
  type Rule = (int, Item) -> (bool, int)

  class Filter {
    const rule: Rule
    var current: int
    /** The items it was asked about. */
    ghost var asked: seq<Item>

    constructor (rule: Rule)
      ensures this.rule == rule && current == 0 && asked == []
    {
      this.rule, current, asked := rule, 0, [];
    }

    method Ask(item: Item) returns (remove: bool)
      modifies this
      ensures (remove, current) == rule(old(current), item)
      ensures asked == old(asked) + [item]
    {
      var answer := rule(current, item);
      remove, current := answer.0, answer.1;
      asked := asked + [item];
    }
  }

  /** The state of a filter after the first `n` items. */
  function StateAfter(rule: Rule, s: int, items: seq<Item>, n: nat): int
    requires n <= |items|
  {
    if n == 0 then s else rule(StateAfter(rule, s, items, n - 1), items[n - 1]).1
  }

  /** The items that a filter leaves of the first `n`: each is judged once, in order. */
  function Kept(rule: Rule, s: int, items: seq<Item>, n: nat): (kept: seq<Item>)
    requires n <= |items|
    ensures |kept| <= n
  {
    if n == 0 then []
    else
      Kept(rule, s, items, n - 1) +
      if rule(StateAfter(rule, s, items, n - 1), items[n - 1]).0 then [] else [items[n - 1]]
  }

  /* ---------- finding the scenario of a removed item ---------- */

  predicate SameStep(a: Step, b: Step)
    reads a, b
  {
    && a.value == b.value && a.lineText == b.lineText && a.args == b.args
    && a.hasInlineTable == b.hasInlineTable && a.fragments == b.fragments
  }

  predicate SameItem(a: Item, b: Item)
    reads if a.StepItem? then {a.step} else {}, if b.StepItem? then {b.step} else {}
  {
    if a.StepItem? && b.StepItem? then SameStep(a.step, b.step) else a == b
  }

  function StepsOf(items: seq<Item>): set<Step> {
    set i | 0 <= i < |items| && items[i].StepItem? :: items[i].step
  }

  /** `reflect.DeepEqual`: equal contents. */
  predicate DeepEqual(a: Scenario, b: Scenario)
    reads a, b, a.steps, b.steps, StepsOf(a.items), StepsOf(b.items)
  {
    && a.heading == b.heading && a.comments == b.comments && a.tags == b.tags
    && |a.items| == |b.items| && |a.steps| == |b.steps|
    && (forall i :: 0 <= i < |a.steps| ==> SameStep(a.steps[i], b.steps[i]))
    && forall i :: 0 <= i < |a.items| ==> SameItem(a.items[i], b.items[i])
  }

  predicate HeadingsDiffer(scenarios: seq<Scenario>) {
    forall i, j :: 0 <= i < j < |scenarios| ==> scenarios[i].heading != scenarios[j].heading
  }

  /** `getIndexFor` */
  method GetIndexFor(scenario: Scenario, scenarios: seq<Scenario>) returns (index: int)
    ensures -1 <= index < |scenarios|
    ensures index >= 0 ==> DeepEqual(scenario, scenarios[index])
    ensures forall i :: 0 <= i < (if index < 0 then |scenarios| else index) ==> !DeepEqual(scenario, scenarios[i])
  {
    for i := 0 to |scenarios|
      invariant forall k :: 0 <= k < i ==> !DeepEqual(scenario, scenarios[k])
    {
      if DeepEqual(scenario, scenarios[i]) {
        return i;
      }
    }
    return -1;
  }

  /** With different headings equal contents mean the same scenario. */
  method PositionOf(scenario: Scenario, scenarios: seq<Scenario>) returns (index: int)
    requires HeadingsDiffer(scenarios) && scenario in scenarios
    ensures 0 <= index < |scenarios| && scenarios[index] == scenario
  {
    index := GetIndexFor(scenario, scenarios);
    var k :| 0 <= k < |scenarios| && scenarios[k] == scenario;
    assert DeepEqual(scenario, scenarios[k]);
    assert index >= 0 && scenarios[index].heading == scenarios[k].heading;
  }

  function Without<T>(s: seq<T>, i: nat): (r: seq<T>)
    requires i < |s|
    ensures |r| == |s| - 1 && forall k :: 0 <= k < |r| ==> r[k] == if k < i then s[k] else s[k + 1]
  {
    s[..i] + s[i + 1..]
  }

  /** Cutting one element out of a slice, in the three ways the program does it. */
  method Remove<T>(s: seq<T>, i: nat) returns (r: seq<T>)
    requires i < |s|
    ensures r == Without(s, i)
  {
    if |s| - 1 == i {
      r := s[..i];
    } else if i == 0 {
      r := s[i + 1..];
    } else {
      r := s[..i] + s[i + 1..];
    }
  }

  lemma {:induction false} ScenariosOfParts(a: seq<Item>, b: seq<Item>)
    ensures ScenariosIn(a + b) == ScenariosIn(a) + ScenariosIn(b)
  {
    if b == [] {
      assert a + b == a;
    } else {
      var n := |b| - 1;
      assert a + b == (a + b[..n]) + [b[n]];
      ScenariosOfParts(a, b[..n]);
      ItemAdded(a + b[..n], b[n]);
      assert b == b[..n] + [b[n]];
      ItemAdded(b[..n], b[n]);
    }
  }

  /** Where the scenario of an item stands among all scenarios. */
  lemma {:induction false} ScenarioWithout(items: seq<Item>, i: nat, position: nat)
    requires i < |items| && items[i].ScenarioItem? && HeadingsDiffer(ScenariosIn(items))
    requires position < |ScenariosIn(items)| && ScenariosIn(items)[position] == items[i].scenario
    ensures ScenariosIn(Without(items, i)) == Without(ScenariosIn(items), position)
  {
    hide ScenariosIn;
    var front, back := items[..i], items[i + 1..];
    assert items == front + ([items[i]] + back);
    ScenariosOfParts(front, [items[i]] + back);
    ScenariosOfParts([items[i]], back);
    OneItem(items[i]);
    var all, p := ScenariosIn(items), |ScenariosIn(front)|;
    assert all == ScenariosIn(front) + ([items[i].scenario] + ScenariosIn(back));
    assert all[p] == items[i].scenario;
    assert p == position;
    assert Without(items, i) == front + back;
    ScenariosOfParts(front, back);
  }

  lemma {:induction false} OneItem(item: Item)
    ensures ScenariosIn([item]) == if item.ScenarioItem? then [item.scenario] else []
  {
    assert [] + [item] == [item];
    ItemAdded([], item);
  }

  lemma {:induction false} OtherWithout(items: seq<Item>, i: nat)
    requires i < |items| && !items[i].ScenarioItem?
    ensures ScenariosIn(Without(items, i)) == ScenariosIn(items)
  {
    var front, back := items[..i], items[i + 1..];
    assert items == front + ([items[i]] + back);
    ScenariosOfParts(front, [items[i]] + back);
    ScenariosOfParts([items[i]], back);
    OneItem(items[i]);
    assert Without(items, i) == front + back;
    ScenariosOfParts(front, back);
    assert [] + ScenariosIn(back) == ScenariosIn(back);
  }

  lemma {:induction false} ScenarioIsListed(items: seq<Item>, i: nat)
    requires i < |items| && items[i].ScenarioItem?
    ensures items[i].scenario in ScenariosIn(items)
  {
    var front, back := items[..i], items[i + 1..];
    assert items == front + ([items[i]] + back);
    ScenariosOfParts(front, [items[i]] + back);
    ScenariosOfParts([items[i]], back);
    OneItem(items[i]);
    assert ScenariosIn(items)[|ScenariosIn(front)|] == items[i].scenario;
  }

  /** `removeItem` with `removeScenario`: the scenarios stay those of the items. */
  method RemoveItem(spec: Specification, i: nat)
    requires i < |spec.items| && spec.scenarios == ScenariosIn(spec.items) && HeadingsDiffer(spec.scenarios)
    modifies spec`items, spec`scenarios
    ensures spec.items == Without(old(spec.items), i)
    ensures spec.scenarios == ScenariosIn(spec.items) && HeadingsDiffer(spec.scenarios)
    ensures spec.contexts == old(spec.contexts) && spec.comments == old(spec.comments)
  {
    var item := spec.items[i];
    spec.items := Remove(spec.items, i);
    if item.ScenarioItem? {
      ScenarioIsListed(old(spec.items), i);
      var index := PositionOf(item.scenario, spec.scenarios);
      ScenarioWithout(old(spec.items), i, index);
      spec.scenarios := Remove(spec.scenarios, index);
    } else {
      OtherWithout(old(spec.items), i);
    }
  }

  lemma {:induction false} NextItem(rule: Rule, s: int, all: seq<Item>, n: nat)
    requires n < |all|
    ensures var kept, (remove, next) := Kept(rule, s, all, n), rule(StateAfter(rule, s, all, n), all[n]);
            && StateAfter(rule, s, all, n + 1) == next
            && Kept(rule, s, all, n + 1) == (if remove then kept else kept + [all[n]])
            && (kept + all[n..])[|kept|] == all[n]
            && Without(kept + all[n..], |kept|) == kept + all[n + 1..]
            && kept + all[n..] == (kept + [all[n]]) + all[n + 1..]
            && all[..n + 1] == all[..n] + [all[n]]
  {
    assert all[n..] == [all[n]] + all[n + 1..];
  }

  lemma {:induction false} NoItemYet(rule: Rule, s: int, all: seq<Item>)
    ensures Kept(rule, s, all, 0) == [] && StateAfter(rule, s, all, 0) == s && [] + all[0..] == all && all[..0] == []
  {
  }

  /** No step and no comment is among the items that a filter removes from the first `n`. */
  predicate OnlyUnlisted(rule: Rule, s: int, items: seq<Item>, n: nat)
    requires n <= |items|
  {
    forall i :: 0 <= i < n && rule(StateAfter(rule, s, items, i), items[i]).0 ==>
      !items[i].StepItem? && !items[i].CommentItem?
  }

  /** Steps and comments are all there exactly when none was removed. */
  lemma {:induction false} ListedKept(rule: Rule, s: int, items: seq<Item>, n: nat)
    requires n <= |items|
    ensures var kept := Kept(rule, s, items, n);
            && |StepsIn(kept)| <= |StepsIn(items[..n])| && |CommentsIn(kept)| <= |CommentsIn(items[..n])|
            && (OnlyUnlisted(rule, s, items, n) ==>
                  StepsIn(kept) == StepsIn(items[..n]) && CommentsIn(kept) == CommentsIn(items[..n]))
            && (!OnlyUnlisted(rule, s, items, n) ==>
                  |StepsIn(kept)| < |StepsIn(items[..n])| || |CommentsIn(kept)| < |CommentsIn(items[..n])|)
  {
    hide StepsIn, CommentsIn, Kept, StateAfter;
    if n == 0 {
      NoItemYet(rule, s, items);
    } else {
      ListedKept(rule, s, items, n - 1);
      NextItem(rule, s, items, n - 1);
      ItemAdded(items[..n - 1], items[n - 1]);
      ItemAdded(Kept(rule, s, items, n - 1), items[n - 1]);
      NextUnlisted(rule, s, items, n - 1);
    }
  }

  lemma {:induction false} NextUnlisted(rule: Rule, s: int, items: seq<Item>, n: nat)
    requires n < |items|
    ensures OnlyUnlisted(rule, s, items, n + 1) <==>
            && OnlyUnlisted(rule, s, items, n)
            && (rule(StateAfter(rule, s, items, n), items[n]).0 ==> !items[n].StepItem? && !items[n].CommentItem?)
  {
    hide StateAfter;
  }

  /** The loop steps back after a removal. It asks the filter about every original item once and
      in order, keeps what the filter leaves, and keeps the scenarios those of the items. The
      lists of contexts and comments are left alone, so they are those of the items afterwards
      exactly when no step and no comment was removed. */
  method FilterItems(spec: Specification, filter: Filter)
    requires spec.scenarios == ScenariosIn(spec.items) && HeadingsDiffer(spec.scenarios)
    modifies spec`items, spec`scenarios, filter
    ensures spec.items == Kept(filter.rule, old(filter.current), old(spec.items), |old(spec.items)|)
    ensures spec.scenarios == ScenariosIn(spec.items) && HeadingsDiffer(spec.scenarios)
    ensures spec.contexts == old(spec.contexts) && spec.comments == old(spec.comments)
    ensures old(spec.Projected()) ==>
              (spec.Projected() <==> OnlyUnlisted(filter.rule, old(filter.current), old(spec.items), |old(spec.items)|))
    ensures filter.asked == old(filter.asked) + old(spec.items)
    ensures filter.current == StateAfter(filter.rule, old(filter.current), old(spec.items), |old(spec.items)|)
  {
    hide Kept, StateAfter, Without, HeadingsDiffer, ScenariosIn, StepsIn, CommentsIn, OnlyUnlisted;
    ghost var all, n, state := spec.items, 0, filter.current;
    NoItemYet(filter.rule, state, all);
    var i := 0;
    while i < |spec.items|
      invariant 0 <= n <= |all| && i == |Kept(filter.rule, state, all, n)|
      invariant spec.items == Kept(filter.rule, state, all, n) + all[n..]
      invariant spec.scenarios == ScenariosIn(spec.items) && HeadingsDiffer(spec.scenarios)
      invariant filter.asked == old(filter.asked) + all[..n]
      invariant filter.current == StateAfter(filter.rule, state, all, n)
      decreases |all| - n
    {
      NextItem(filter.rule, state, all, n);
      var remove := filter.Ask(spec.items[i]);
      if remove {
        RemoveItem(spec, i);
        i := i - 1;
      }
      n := n + 1;
      i := i + 1;
    }
    assert all[..|all|] == all;
    ListedKept(filter.rule, state, all, |all|);
  }

  /* ---------- the filter that keeps one scenario ---------- */

  /** `scenarioIndexFilterToRetain`: counts scenarios and removes all but one. */
  function IndexRule(index: int): Rule {
    (current: int, item: Item) => if item.ScenarioItem? then (current != index, current + 1) else (false, current)
  }

  /** `ScenarioFilterBasedOnTags`: removes the scenarios without the tags, and everything that is
      not a scenario. */
  function TagRule(matches: Scenario -> bool): Rule {
    (current: int, item: Item) => if item.ScenarioItem? then (!matches(item.scenario), current) else (true, current)
  }

  /** It leaves nothing but scenarios, so the lists of contexts and comments are those of the items
      afterwards exactly when there were none. */
  lemma {:induction false} TagFilterKeeps(matches: Scenario -> bool, current: int, items: seq<Item>, n: nat)
    requires n <= |items|
    ensures OthersIn(Kept(TagRule(matches), current, items, n)) == []
    ensures OnlyUnlisted(TagRule(matches), current, items, n) <==>
            StepsIn(items[..n]) == [] && CommentsIn(items[..n]) == []
  {
    hide ScenariosIn, StepsIn, CommentsIn, OthersIn, Kept, StateAfter, OnlyUnlisted, TagRule;
    var rule := TagRule(matches);
    if n == 0 {
      NoneIn();
      NoItemYet(rule, current, items);
      NoneUnlisted(rule, current, items);
    } else {
      var item := items[n - 1];
      TagFilterKeeps(matches, current, items, n - 1);
      NextItem(rule, current, items, n - 1);
      NextUnlisted(rule, current, items, n - 1);
      TagRuleSays(matches, StateAfter(rule, current, items, n - 1), item);
      ItemAdded(items[..n - 1], item);
      OtherAdded(Kept(rule, current, items, n - 1), item);
    }
  }

  lemma {:induction false} NoneUnlisted(rule: Rule, s: int, items: seq<Item>)
    ensures OnlyUnlisted(rule, s, items, 0)
  {
  }

  lemma {:induction false} TagRuleSays(matches: Scenario -> bool, current: int, item: Item)
    ensures TagRule(matches)(current, item).0 == (item.ScenarioItem? ==> !matches(item.scenario))
  {
  }

  function OthersIn(items: seq<Item>): seq<Item> {
    if items == [] then []
    else
      var last := items[|items| - 1];
      OthersIn(items[..|items| - 1]) + if last.ScenarioItem? then [] else [last]
  }

  lemma {:induction false} OtherAdded(items: seq<Item>, item: Item)
    ensures OthersIn(items + [item]) == OthersIn(items) + if item.ScenarioItem? then [] else [item]
  {
    assert (items + [item])[..|items|] == items;
  }

  /** Of the first `n` items it keeps the scenario with the index, counted from the state it starts
      with, and everything that is not a scenario. */
  lemma {:induction false} IndexFilterKeeps(index: int, current: int, items: seq<Item>, n: nat)
    requires n <= |items|
    ensures var scenarios, kept := ScenariosIn(items[..n]), Kept(IndexRule(index), current, items, n);
            && StateAfter(IndexRule(index), current, items, n) == current + |scenarios|
            && ScenariosIn(kept) ==
               (if 0 <= index - current < |scenarios| then [scenarios[index - current]] else [])
            && OthersIn(kept) == OthersIn(items[..n])
  {
    hide ScenariosIn, OthersIn, Kept, StateAfter;
    if n == 0 {
      NoneIn();
      NoItemYet(IndexRule(index), current, items);
    } else {
      var item := items[n - 1];
      IndexFilterKeeps(index, current, items, n - 1);
      NextItem(IndexRule(index), current, items, n - 1);
      ItemAdded(items[..n - 1], item);
      OtherAdded(items[..n - 1], item);
      ItemAdded(Kept(IndexRule(index), current, items, n - 1), item);
      OtherAdded(Kept(IndexRule(index), current, items, n - 1), item);
    }
  }

  lemma {:induction false} NoneIn()
    ensures ScenariosIn([]) == [] && OthersIn([]) == [] && StepsIn([]) == [] && CommentsIn([]) == []
  {
  }

  /* ---------- all specifications ---------- */

  /** The specifications that have a scenario among the items left. */
  function WithScenarios(specs: seq<Specification>, left: seq<seq<Item>>): seq<Specification>
    requires |left| <= |specs|
  {
    if left == [] then []
    else
      var n := |left| - 1;
      WithScenarios(specs, left[..n]) + if ScenariosIn(left[n]) == [] then [] else [specs[n]]
  }

  lemma {:induction false} NoSpecYet(specs: seq<Specification>)
    ensures WithScenarios(specs, []) == []
  {
  }

  lemma {:induction false} OneMoreSpec(specs: seq<Specification>, left: seq<seq<Item>>, items: seq<Item>)
    requires |left| < |specs|
    ensures WithScenarios(specs, left + [items]) ==
            WithScenarios(specs, left) + if ScenariosIn(items) == [] then [] else [specs[|left|]]
  {
    assert (left + [items])[..|left|] == left;
  }

  /** `filterSpecsItems`: one filter goes through all specifications; those left without a
      scenario are dropped. */
  method FilterSpecsItems(specs: seq<Specification>, filter: Filter)
      returns (filtered: seq<Specification>, ghost left: seq<seq<Item>>, ghost states: seq<int>)
    requires forall i, j :: 0 <= i < j < |specs| ==> specs[i] != specs[j]
    requires forall i :: 0 <= i < |specs| ==>
               specs[i].scenarios == ScenariosIn(specs[i].items) && HeadingsDiffer(specs[i].scenarios)
    modifies (set s | s in specs)`items, (set s | s in specs)`scenarios, filter
    ensures |left| == |specs| && filtered == WithScenarios(specs, left)
    ensures |states| == |specs| + 1 && states[0] == old(filter.current) && states[|specs|] == filter.current
    ensures forall i :: 0 <= i < |specs| ==>
              && specs[i].items == left[i] && specs[i].scenarios == ScenariosIn(left[i])
              && left[i] == Kept(filter.rule, states[i], old(specs[i].items), |old(specs[i].items)|)
              && states[i + 1] == StateAfter(filter.rule, states[i], old(specs[i].items), |old(specs[i].items)|)
  {
    hide Kept, StateAfter, HeadingsDiffer, ScenariosIn, OnlyUnlisted, Specification.Projected, WithScenarios;
    NoSpecYet(specs);
    filtered, left, states := [], [], [filter.current];
    for i := 0 to |specs|
      invariant |states| == i + 1 && states[0] == old(filter.current) && states[i] == filter.current
      invariant |left| == i && filtered == WithScenarios(specs, left)
      invariant forall k :: i <= k < |specs| ==> unchanged(specs[k])
      invariant forall k :: 0 <= k < i ==>
                  && specs[k].items == left[k] && specs[k].scenarios == ScenariosIn(left[k])
                  && left[k] == Kept(filter.rule, states[k], old(specs[k].items), |old(specs[k].items)|)
                  && states[k + 1] == StateAfter(filter.rule, states[k], old(specs[k].items), |old(specs[k].items)|)
    {
      FilterItems(specs[i], filter);
      OneMoreSpec(specs, left, specs[i].items);
      if specs[i].scenarios != [] {
        filtered := filtered + [specs[i]];
      }
      left := left + [specs[i].items];
      states := states + [filter.current];
    }
  }
}
