/** Clients of the dictionary: concepts whose order hides a cycle from the check, and two concepts
    from the parser to a resolved step. */
module ConceptExample {
  import opened Text
  import opened Substitution
  import opened StepFormat
  import opened ConceptSteps
  import opened SharedLookups
  import opened ConceptUse
  import ConceptGraph
  import ParameterMeaning
  import Linking = ConceptLinking

  lemma {:induction false} NothingAdded(d: Linking.Dictionary)
    requires d.Valid(None) && d.log == []
    ensures d.conceptsMap.Keys == {} && d.seen == []
  {
    hide d.Linking, d.Kinds, d.Contents;
  }

  lemma {:induction false} KindsOfError(error: Option<DictionaryError>)
    ensures error == None || error == Some(DuplicateDefinition) || error == Some(CircularReference)
  {
    if error.Some? {
      assert error.value.DuplicateDefinition? || error.value.CircularReference?;
    }
  }

  lemma {:induction false} MissedNamesDiffer()
    ensures Linking.AllNew({}, Linking.MISSED_NAMES, 4)
  {
  }

  /** Adding the concepts p, a, b and c to an empty dictionary succeeds, although a, b and c are a
      cycle: p comes first and takes the links to b and c. */
  method AddMissedCycle(d: Linking.Dictionary, concepts: seq<Step>, ghost calls: seq<seq<NestedCall>>)
      returns (error: Option<DictionaryError>, ghost g: ConceptGraph.Graph)
    requires d.Valid(None) && Prepared(d) && Coming(d, concepts) && d.log == []
    requires Written(concepts, Linking.MISSED_NAMES, calls) && AllCallees(calls) == Linking.MISSED_TEXTS
    modifies d`constructionMap, d`conceptsMap, d`log, d`seen, d.homes
    modifies Linking.AllParts(concepts)`isConcept, Linking.AllParts(concepts)`conceptSteps
    modifies Linking.AllParts(concepts)`lookup, Linking.AllParts(concepts)`parent, Linking.AllParts(concepts)`tree
    ensures error == None && g == GraphOf(d.conceptsMap) && ConceptGraph.MissedCycle(g)
  {
    hide d.Valid, Prepared, Coming, Written, Linking.Entries, Linking.GraphOf, Linking.Holds, Linking.AllParts, GraphOf,
      InsideOf, Dictionary, Unfolds, TreesReady, AllCallsAlike, WithCalls, AllCallees, Linking.AllNew,
      ConceptGraph.ClosedBy, ConceptGraph.Cycle;
    NothingAdded(d);
    MissedNamesDiffer();
    ghost var count;
    error, count, g := AddConcepts(d, concepts, Linking.MISSED_NAMES, calls);
    assert d.log == Linking.Entries(Linking.MISSED_NAMES, Linking.MISSED_TEXTS, 4, 0);
    Linking.MissedCycleIsBuilt(g);
    KindsOfError(error);
  }

  /* ---------- a concept inside a concept ---------- */

  function Dynamic(name: string): Arg {
    Arg(name, name, DynamicArg, None)
  }

  const OUTER := "outer {}"
  const INNER := "inner {}"
  const PLAIN := "step {}"

  const EXAMPLE_NAMES := [OUTER, INNER]
  const EXAMPLE_CALLS := [[NestedCall(INNER, [Dynamic("a")])], [NestedCall(PLAIN, [Dynamic("b")])]]
  const EXAMPLE_GRAPH: ConceptGraph.Graph :=
    map[OUTER := [ConceptGraph.Call(INNER, true)], INNER := [ConceptGraph.Call(PLAIN, false)]]
  const EXAMPLE_LOG: seq<Linking.Entry> := [
    Linking.Definition(OUTER), Linking.Inner(INNER, 0), Linking.Definition(INNER), Linking.Inner(PLAIN, 2)]

  lemma {:induction false} ExampleNamesDiffer()
    ensures Linking.AllNew({}, EXAMPLE_NAMES, 2) && OUTER != INNER && PLAIN != OUTER && PLAIN != INNER
  {
    assert OUTER[0] != INNER[0] && PLAIN[0] != OUTER[0] && PLAIN[0] != INNER[0];
  }

  lemma {:induction false} ExampleEntries()
    ensures Linking.Entries(EXAMPLE_NAMES, AllCallees(EXAMPLE_CALLS), 2, 0) == EXAMPLE_LOG
  {
    hide Linking.Entries;
    var texts := AllCallees(EXAMPLE_CALLS);
    Linking.NoEntries(EXAMPLE_NAMES, texts, 0);
    Linking.NextEntries(EXAMPLE_NAMES, texts, 0, 0);
    Linking.NextEntries(EXAMPLE_NAMES, texts, 1, 0);
  }

  /** The step of the first concept comes before the concept it names, and is the first to name it. */
  lemma {:induction false} ExampleLinks()
    ensures Linking.Defined(EXAMPLE_LOG, OUTER) == Some(0) && Linking.Defined(EXAMPLE_LOG, INNER) == Some(2)
    ensures forall v :: Linking.Defined(EXAMPLE_LOG, v).Some? ==> v == OUTER || v == INNER
    ensures Linking.Linked(EXAMPLE_LOG, 1) && !Linking.Linked(EXAMPLE_LOG, 3)
  {
    hide Linking.First, Linking.Defined;
    ExampleNamesDiffer();
    Linking.DefinedAt(EXAMPLE_LOG, OUTER, 0);
    Linking.DefinedAt(EXAMPLE_LOG, INNER, 2);
    Linking.FirstAt(EXAMPLE_LOG, INNER, 1);
  }

  lemma {:induction false} ExampleGraph(g: ConceptGraph.Graph)
    requires Linking.GraphOf(EXAMPLE_LOG, g)
    ensures g == EXAMPLE_GRAPH && !exists w :: ConceptGraph.ClosedBy(g, w)
  {
    hide Linking.First, Linking.Defined, Linking.Linked, ConceptGraph.ClosedBy;
    ExampleNamesDiffer();
    ExampleLinks();
    assert Linking.GraphOf(EXAMPLE_LOG, EXAMPLE_GRAPH);
    Linking.OneGraph(EXAMPLE_LOG, g, EXAMPLE_GRAPH);
    NoCycle();
  }

  lemma {:induction false} NoCycle()
    ensures !exists w :: ConceptGraph.ClosedBy(EXAMPLE_GRAPH, w)
  {
    ExampleNamesDiffer();
    var g := EXAMPLE_GRAPH;
    forall x, y ensures ConceptGraph.Links(g, x, y) ==> x == OUTER && y == INNER {
    }
    forall w ensures !ConceptGraph.ClosedBy(g, w) {
      if ConceptGraph.Chain(g, w) {
        var n := |w| - 1;
        assert n > 0 ==> ConceptGraph.Links(g, w[n - 1], w[n - 1 + 1]) && ConceptGraph.Links(g, w[0], w[0 + 1]);
      }
    }
  }

  lemma {:induction false} OneHole(front: string)
    requires Clean(front)
    ensures CountHoles(front + "{}") == 1
  {
    CountInText(front, "{}");
    assert "{}"[2..] == "";
  }

  lemma {:induction false} HolesOfExample()
    ensures CountHoles(OUTER) == CountHoles(INNER) == CountHoles(PLAIN) == 1
  {
    hide CountHoles;
    OneHole("outer ");
    OneHole("inner ");
    OneHole("step ");
    assert "outer " + "{}" == OUTER && "inner " + "{}" == INNER && "step " + "{}" == PLAIN;
  }

  lemma {:induction false} ExampleCalls(inside: map<string, seq<NestedCall>>)
    requires inside == WithCalls(map[], EXAMPLE_NAMES, EXAMPLE_CALLS, 2)
    ensures inside == map[OUTER := EXAMPLE_CALLS[0], INNER := EXAMPLE_CALLS[1]]
  {
    assert WithCalls(map[], EXAMPLE_NAMES, EXAMPLE_CALLS, 0) == map[];
    assert WithCalls(map[], EXAMPLE_NAMES, EXAMPLE_CALLS, 1) == map[OUTER := EXAMPLE_CALLS[0]];
  }

  /** Each concept is called once at most. */
  lemma {:induction false} ExampleAlike(inside: map<string, seq<NestedCall>>, callee: string, formals: seq<string>)
    requires inside == map[OUTER := EXAMPLE_CALLS[0], INNER := EXAMPLE_CALLS[1]] && AllFit(inside, callee, |formals|)
    requires callee == OUTER || callee == INNER
    ensures CallsAlike(inside, callee, formals)
  {
    hide CallsAlike, AllFit;
    ExampleNamesDiffer();
    OneCallIsAlike(inside, callee, formals, [Dynamic("a")]);
  }

  /** The plans of a step that uses the outer concept with a text. */
  function ExamplePlans(text: string): seq<Plan> {
    var sent := Leaf(PLAIN, [Parameter("", PDynamic, text, None)]);
    [Group(OUTER, [TextArg(text)], [Group(INNER, [TextArg(text)], [sent])])]
  }

  /** A concept with one parameter and one step, which has one dynamic argument, as it is parsed. */
  ghost predicate Simple(concept: Step, name: string, formal: string, call: NestedCall)
    reads concept, concept.lookup, concept.conceptSteps, set s | s in concept.conceptSteps :: s.lookup
  {
    && concept.value == name && concept.args == [Dynamic(formal)] && concept.isConcept && concept.parent == null
    && concept.lookup.Valid() && concept.lookup.formals == [formal] && |concept.conceptSteps| == 1
    && var s := concept.conceptSteps[0];
    && s != concept && NestedCall(s.value, s.args) == call && !s.isConcept && s.conceptSteps == [] && s.lookup.Valid()
  }

  method NewConcept(name: string, formal: string, call: NestedCall) returns (concept: Step)
    ensures fresh(concept) && fresh(concept.lookup) && Simple(concept, name, formal, call)
    ensures forall s :: s in concept.conceptSteps ==> fresh(s) && fresh(s.lookup)
  {
    var lookup := new Lookup({formal}, [formal]);
    var none := new Lookup({}, []);
    var s := new Step(call.callee, call.args, false, none, [], null);
    concept := new Step(name, [Dynamic(formal)], true, lookup, [s], null);
  }

  /** Two such concepts may come into a dictionary that holds nothing. */
  lemma {:induction false} ExampleComing(d: Linking.Dictionary, outer: Step, inner: Step)
    requires d.Valid(None) && d.log == []
    requires Simple(outer, OUTER, "a", EXAMPLE_CALLS[0][0]) && Simple(inner, INNER, "b", EXAMPLE_CALLS[1][0])
    requires outer != inner && outer.conceptSteps[0] !in {inner, inner.conceptSteps[0]}
    requires inner.conceptSteps[0] != outer && outer.lookup != inner.lookup
    requires d.homes ==
             {outer.lookup, inner.lookup, outer.conceptSteps[0].lookup, inner.conceptSteps[0].lookup}
    ensures Prepared(d) && Coming(d, [outer, inner]) && Written([outer, inner], EXAMPLE_NAMES, EXAMPLE_CALLS)
  {
    hide CountHoles, d.Valid;
    NothingAdded(d);
    HolesOfExample();
  }

  lemma {:induction false} PartsOfTwo(outer: Step, inner: Step)
    ensures forall s :: s in Linking.AllParts([outer, inner]) ==>
              s == outer || s in outer.conceptSteps || s == inner || s in inner.conceptSteps
  {
    var concepts := [outer, inner];
    forall s | s in Linking.AllParts(concepts)
      ensures s == outer || s in outer.conceptSteps || s == inner || s in inner.conceptSteps
    {
      var i :| 0 <= i < |concepts| && s in Linking.Parts(concepts[i]);
      assert concepts[i] == outer || concepts[i] == inner;
    }
  }

  lemma {:induction false} TwoAreHeld(now: map<string, Step>, before: map<string, Step>, outer: Step, inner: Step)
    requires Linking.Holds(now, before, EXAMPLE_NAMES, [outer, inner], 2) && before.Keys == {}
    ensures now.Keys == {OUTER, INNER} && now[OUTER] == outer && now[INNER] == inner
  {
    ExampleNamesDiffer();
    assert EXAMPLE_NAMES[..2] == EXAMPLE_NAMES;
    assert EXAMPLE_NAMES[0] == OUTER && EXAMPLE_NAMES[1] == INNER;
  }

  /** The two concepts and a dictionary that holds nothing. */
  method ParseExample() returns (d: Linking.Dictionary, outer: Step, inner: Step)
    ensures fresh(d) && fresh(d.homes) && fresh(Linking.AllParts([outer, inner]))
    ensures d.Valid(None) && d.log == [] && d.seen == [] && d.conceptsMap.Keys == {}
    ensures Prepared(d) && Coming(d, [outer, inner]) && Written([outer, inner], EXAMPLE_NAMES, EXAMPLE_CALLS)
    ensures outer.args == [Dynamic("a")] && inner.args == [Dynamic("b")]
  {
    hide d.Valid, Prepared, Coming, Written, Linking.AllParts;
    outer := NewConcept(OUTER, "a", EXAMPLE_CALLS[0][0]);
    inner := NewConcept(INNER, "b", EXAMPLE_CALLS[1][0]);
    d := new Linking.Dictionary();
    d.Announce({outer.lookup, inner.lookup, outer.conceptSteps[0].lookup, inner.conceptSteps[0].lookup});
    ExampleComing(d, outer, inner);
    NothingAdded(d);
    PartsOfTwo(outer, inner);
  }

  /** The dictionary of the two concepts: the step of the outer one is linked to the inner one. */
  method ExampleDictionary() returns (d: Linking.Dictionary)
    ensures fresh(d) && fresh(KnownSteps(d)) && d.conceptsMap.Keys == {OUTER, INNER}
    ensures TreesReady(d.conceptsMap, KnownSteps(d))
    ensures Unfolds(d.conceptsMap, map[OUTER := EXAMPLE_CALLS[0], INNER := EXAMPLE_CALLS[1]], EXAMPLE_GRAPH)
    ensures d.conceptsMap[OUTER].args == [Dynamic("a")] && d.conceptsMap[INNER].args == [Dynamic("b")]
  {
    hide d.Valid, Prepared, Coming, Written, Linking.Entries, Linking.GraphOf, GraphOf, InsideOf, Dictionary, Unfolds,
      TreesReady, AllCallsAlike, WithCalls, AllCallees, Linking.AllNew, ConceptGraph.ClosedBy, Linking.Holds,
      Linking.AllParts;
    var outer, inner, error;
    d, outer, inner := ParseExample();
    ExampleNamesDiffer();
    ExampleEntries();
    ghost var count, g, held, parts := 0, map[], d.conceptsMap, Linking.AllParts([outer, inner]);
    error, count, g := AddConcepts(d, [outer, inner], EXAMPLE_NAMES, EXAMPLE_CALLS);
    TwoAreHeld(d.conceptsMap, held, outer, inner);
    assert KnownSteps(d) <= {} + parts;
    assert d.log == EXAMPLE_LOG;
    ExampleGraph(g);
    KindsOfError(error);
    ExampleCalls(InsideOf(d.conceptsMap));
    ExampleIsAlike(d);
  }

  lemma {:induction false} ExampleIsAlike(d: Linking.Dictionary)
    requires InsideOf(d.conceptsMap) == map[OUTER := EXAMPLE_CALLS[0], INNER := EXAMPLE_CALLS[1]]
    ensures AllCallsAlike(d.conceptsMap, InsideOf(d.conceptsMap))
  {
    hide CallsAlike, AllFit;
    var inside := InsideOf(d.conceptsMap);
    forall v | v in d.conceptsMap && AllFit(inside, v, |d.conceptsMap[v].lookup.formals|)
      ensures CallsAlike(inside, v, d.conceptsMap[v].lookup.formals)
    {
      ExampleAlike(inside, v, d.conceptsMap[v].lookup.formals);
    }
  }

  lemma {:induction false} BindOne(formal: string, arg: Arg)
    ensures Bind([formal], [arg]) == map[formal := arg] && Values([Dynamic(formal)]) == [formal]
  {
    assert [arg][..0] == [] && Bind([formal], [arg][..0]) == map[];
  }

  lemma {:induction false} EvalOne(arg: Arg, env: Env)
    requires Eval(arg, env).Some?
    ensures EvalAll([arg], env) == Some([Eval(arg, env).value])
  {
    assert [arg][..0] == [] && EvalAll([], env) == Some([]) && [] + [Eval(arg, env).value] == [Eval(arg, env).value];
  }

  lemma {:induction false} ExpandOne(t: Tree, env: Env, row: Env)
    requires Expand(t, env, row).Some?
    ensures ExpandAll([t], 1, env, row) == Some([Expand(t, env, row).value])
  {
    var plan := Expand(t, env, row).value;
    assert ExpandAll([t], 0, env, row) == Some([]) && [] + [plan] == [plan];
  }

  /** A step that passes its one argument on is sent what the argument stands for. */
  lemma {:induction false} LeafExpands(t: Tree, name: string, text: string, env: Env, row: Env)
    requires !t.isConcept && t.args == [Dynamic(name)] && name in env && env[name] == TextArg(text)
    ensures Expand(t, env, row) == Some(Leaf(t.value, [Parameter("", PDynamic, text, None)]))
  {
    var sent := Parameter("", PDynamic, text, None);
    assert t.args[..0] == [] && ToParameters([], env, row) == Some([]) && [] + [sent] == [sent];
    assert ToParameter(t.args[0], env, row) == Some(sent);
    assert ToParameters(t.args, env, row) == Some([sent]);
  }

  /** A concept with one step hands its argument to that step. */
  lemma {:induction false} GroupExpands(t: Tree, formal: string, arg: Arg, text: string, env: Env, row: Env)
    requires t.isConcept && t.args == [arg] && t.formals == [formal] && |t.steps| == 1
    requires Eval(arg, env) == Some(TextArg(text)) && Expand(t.steps[0], map[formal := TextArg(text)], row).Some?
    ensures Expand(t, env, row) ==
            Some(Group(t.value, [TextArg(text)], [Expand(t.steps[0], map[formal := TextArg(text)], row).value]))
  {
    hide Bind, ExpandAll, EvalAll;
    EvalOne(arg, env);
    BindOne(formal, TextArg(text));
    ExpandOne(t.steps[0], map[formal := TextArg(text)], row);
    assert t.steps == [t.steps[0]];
  }

  /** What the trees of the two concepts make of a use. */
  lemma {:induction false} ExampleExpands(concepts: map<string, Step>, trees: map<string, Tree>, text: string, row: Env)
    requires Unfolds(concepts, map[OUTER := EXAMPLE_CALLS[0], INNER := EXAMPLE_CALLS[1]], EXAMPLE_GRAPH)
    requires concepts.Keys == {OUTER, INNER} && TreesAre(concepts, trees)
    requires concepts[OUTER].args == [Dynamic("a")] && concepts[INNER].args == [Dynamic("b")]
    ensures |trees[OUTER].formals| == 1
    ensures Expand(Use(trees[OUTER], [TextArg(text)]), row, row) == Some(ExamplePlans(text)[0])
  {
    hide Expand, Bind;
    ExampleNamesDiffer();
    var use, env := Use(trees[OUTER], [TextArg(text)]), map["a" := TextArg(text)];
    var nested := use.steps[0];
    BindOne("a", Dynamic("a"));
    BindOne("b", Dynamic("b"));
    LeafExpands(nested.steps[0], "b", text, map["b" := TextArg(text)], row);
    GroupExpands(nested, "b", Dynamic("a"), text, env, row);
    GroupExpands(use, "a", TextArg(text), text, row, row);
  }

  /** From two parsed concepts to the resolved step: the text goes from the step to the outer concept,
      from there to the inner one, and to the step inside that. */
  method UseExample(text: string, row: Env) returns (plans: Option<seq<Plan>>)
    ensures plans == Some(ExamplePlans(text))
  {
    hide Expand, ExpandAll, ComputeAll, Unfolds, Dictionary, TreesAre, Use, Processed, ParameterMeaning.MeaningAll,
      ParameterMeaning.AllCells, ParameterMeaning.Outermost, Agrees, ExamplePlans;
    var d := ExampleDictionary();
    assert allocated(Lookups(KnownSteps(d)));
    var none := new Lookup({}, []);
    var step := new Step(OUTER, [TextArg(text)], false, none, [], null);
    ghost var trees, plain := map v | v in d.conceptsMap :: d.conceptsMap[v].tree, [step.tree];
    AreTrees(d.conceptsMap, trees);
    ExampleExpands(d.conceptsMap, trees, text, row);
    ExpandOne(Use(trees[OUTER], [TextArg(text)]), row, row);
    UsedOnce(step.tree, trees, text);
    OnePlan(text);
    plans := ResolveSpecification([step], d.conceptsMap, row, trees, KnownSteps(d), plain);
  }

  lemma {:induction false} UsedOnce(plain: Tree, trees: map<string, Tree>, text: string)
    requires plain.value == OUTER && plain.args == [TextArg(text)] && OUTER in trees && |trees[OUTER].formals| == 1
    ensures InUse([plain], trees) == [Use(trees[OUTER], [TextArg(text)])]
  {
  }

  lemma {:induction false} OnePlan(text: string)
    ensures ExamplePlans(text) == [ExamplePlans(text)[0]]
  {
  }

  lemma {:induction false} AreTrees(concepts: map<string, Step>, trees: map<string, Tree>)
    requires trees == map v | v in concepts :: concepts[v].tree
    ensures TreesAre(concepts, trees)
  {
  }
}
