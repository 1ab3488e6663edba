/** From concepts as they are parsed to the steps of a specification: the dictionary is built,
    its lookups are filled and it is checked; then the steps use it and are resolved. */
module ConceptUse {
  import opened Text
  import opened Tables
  import opened Substitution
  import opened StepFormat
  import opened ConceptSteps
  import opened ConceptTrees
  import opened SharedLookups
  import opened ParameterMeaning
  import opened Resolution
  import opened SentValues
  import Linking = ConceptLinking

  datatype DictionaryError = DuplicateDefinition | CircularReference

  /* ---------- the steps of a dictionary as values ---------- */

  ghost function NodesOf(region: set<Step>): Nodes
    reads region`value, region`args, region`isConcept, region`lookup, region`conceptSteps, Lookups(region)
  {
    map s | s in region :: Node(s.value, s.args, s.isConcept, s.lookup.formals, s.lookup.values, s.conceptSteps)
  }

  ghost function KnownSteps(d: Linking.Dictionary): set<Step>
    reads d`seen
  {
    set s | s in d.seen
  }

  /** A concept step has the steps and the lookup of the definition that it names. */
  lemma {:induction false} StepFollows(d: Linking.Dictionary, s: Step)
    requires d.Valid(None) && s in d.seen
    ensures if s.isConcept then
              && s.value in d.conceptsMap && s.conceptSteps == d.conceptsMap[s.value].conceptSteps
              && s.lookup == d.conceptsMap[s.value].lookup
            else s.conceptSteps == []
  {
    hide Linking.First, Linking.Defined, Linking.Linked;
    var e :| 0 <= e < |d.seen| && d.seen[e] == s;
    assert d.Kind(s) && d.EntryLinked(e);
  }

  lemma {:induction false} DefinitionSeen(d: Linking.Dictionary, v: string)
    requires d.Valid(None) && v in d.conceptsMap
    ensures Linking.Defined(d.log, v).Some?
    ensures var e := Linking.Defined(d.log, v).value;
            && e < |d.log| == |d.seen| && d.log[e] == Linking.Definition(v) && d.seen[e] == d.conceptsMap[v]
            && d.seen[e].value == v && d.seen[e].isConcept
  {
    hide Linking.First, Linking.Defined, Linking.Linked;
    assert d.EntryLinked(Linking.Defined(d.log, v).value);
  }

  lemma {:induction false} InnerSeen(d: Linking.Dictionary, v: string, k: nat)
    requires d.Valid(None) && v in d.conceptsMap && k < |d.conceptsMap[v].conceptSteps|
    ensures Linking.Defined(d.log, v).Some?
    ensures var e := Linking.Defined(d.log, v).value + 1 + k;
            e < |d.log| == |d.seen| && d.log[e].Inner? && d.seen[e] == d.conceptsMap[v].conceptSteps[k]
  {
    hide Linking.First, Linking.Defined, Linking.Linked;
    DefinitionSeen(d, v);
  }

  lemma {:induction false} SeenApart(d: Linking.Dictionary, e: nat, f: nat)
    requires d.Valid(None) && e < |d.seen| && f < |d.seen| && d.seen[e] == d.seen[f]
    ensures e == f
  {
    hide Linking.First, Linking.Defined, Linking.Linked;
  }

  /** Definitions are in no concept, and what is in a concept is known. */
  lemma {:induction false} DefinitionsAreSeen(d: Linking.Dictionary)
    requires d.Valid(None)
    ensures forall v :: v in d.conceptsMap ==>
              d.conceptsMap[v] in d.seen && d.conceptsMap[v].value == v && d.conceptsMap[v].isConcept
    ensures forall s, c :: s in d.seen && c in s.conceptSteps ==> c in d.seen && c !in d.conceptsMap.Values
  {
    hide d.Valid, Linking.Defined;
    forall v | v in d.conceptsMap
      ensures d.conceptsMap[v] in d.seen && d.conceptsMap[v].value == v && d.conceptsMap[v].isConcept
    {
      DefinitionSeen(d, v);
    }
    forall s, c | s in d.seen && c in s.conceptSteps ensures c in d.seen && c !in d.conceptsMap.Values {
      StepFollows(d, s);
      var k :| 0 <= k < |s.conceptSteps| && s.conceptSteps[k] == c;
      InnerSeen(d, s.value, k);
      forall v | v in d.conceptsMap ensures d.conceptsMap[v] != c {
        DefinitionSeen(d, v);
        if d.conceptsMap[v] == c {
          SeenApart(d, Linking.Defined(d.log, v).value, Linking.Defined(d.log, s.value).value + 1 + k);
        }
      }
    }
  }

  lemma {:induction false} NodesAreClosed(d: Linking.Dictionary)
    requires d.Valid(None)
    ensures Closed(NodesOf(KnownSteps(d)))
  {
    hide d.Valid;
    DefinitionsAreSeen(d);
  }

  lemma {:induction false} NodesMirror(d: Linking.Dictionary, g: ConceptGraph.Graph)
    requires d.Valid(None) && d.Graphed(g)
    ensures Mirrors(g, NodesOf(KnownSteps(d)))
  {
    hide d.Valid;
    DefinitionsAreSeen(d);
    forall s | s in d.seen
      ensures if s.isConcept then
                && s.value in d.conceptsMap && s.conceptSteps == d.conceptsMap[s.value].conceptSteps
              else s.conceptSteps == []
    {
      StepFollows(d, s);
    }
  }

  /* ---------- the lookups of a dictionary ---------- */

  ghost function StepsIn(concepts: map<string, Step>): set<Step>
    reads concepts.Values`conceptSteps
  {
    set v, s | v in concepts && s in concepts[v].conceptSteps :: s
  }

  /** The steps inside every concept as calls. */
  ghost function InsideOf(concepts: map<string, Step>): (inside: map<string, seq<NestedCall>>)
    reads concepts.Values`conceptSteps, StepsIn(concepts)`value, StepsIn(concepts)`args
    ensures inside.Keys == concepts.Keys
  {
    map v | v in concepts :: CallsOf(concepts[v].conceptSteps)
  }

  ghost function CallsOf(steps: seq<Step>): (calls: seq<NestedCall>)
    reads (set s | s in steps)`value, (set s | s in steps)`args
    ensures |calls| == |steps| && forall k :: 0 <= k < |steps| ==> calls[k] == NestedCall(steps[k].value, steps[k].args)
  {
    if steps == [] then []
    else
      var n := |steps| - 1;
      CallsOf(steps[..n]) + [NestedCall(steps[n].value, steps[n].args)]
  }

  /** Some call inside a concept names `callee` and passes `args`. */
  ghost predicate Passes(inside: map<string, seq<NestedCall>>, callee: string, args: seq<Arg>) {
    exists a, i :: a in inside && 0 <= i < |inside[a]| && inside[a][i] == NestedCall(callee, args)
  }

  /** The calls of a concept have an argument for each of its parameters. */
  ghost predicate AllFit(inside: map<string, seq<NestedCall>>, callee: string, n: nat) {
    forall args :: Passes(inside, callee, args) ==> |args| == n
  }

  /** What one call of a concept stores is right for every other one. */
  ghost predicate CallsAlike(inside: map<string, seq<NestedCall>>, callee: string, formals: seq<string>)
    requires AllFit(inside, callee, |formals|)
  {
    forall args, others :: Passes(inside, callee, args) && Passes(inside, callee, others) ==>
      AlikeEnvs(Bind(formals, StripAll(args)), Bind(formals, others))
  }

  /** When the parameters have different names, the calls of a concept are alike exactly when
      they lose nothing and pass the same in every place. Dynamic arguments lose nothing. */
  lemma {:induction false} CallsAlikeIff(inside: map<string, seq<NestedCall>>, callee: string, formals: seq<string>)
    requires AllFit(inside, callee, |formals|) && Distinct(formals)
    ensures CallsAlike(inside, callee, formals) <==>
            forall args, others :: Passes(inside, callee, args) && Passes(inside, callee, others) ==>
              forall i :: 0 <= i < |formals| && i < |args| && i < |others| ==>
                Kept(others[i]) && Alike(args[i], others[i])
  {
    hide Bind, StripAll, Passes, AlikeEnvs, Distinct;
    forall args, others | Passes(inside, callee, args) && Passes(inside, callee, others)
      ensures AlikeEnvs(Bind(formals, StripAll(args)), Bind(formals, others)) <==>
              forall i :: 0 <= i < |formals| ==> Alike(Strip(args[i]), others[i])
    {
      AlikeInEveryPlace(formals, StripAll(args), others);
    }
  }

  /** A single call loses nothing that is dynamic or plain text. */
  lemma {:induction false} OneCallIsAlike(
      inside: map<string, seq<NestedCall>>, callee: string, formals: seq<string>, args: seq<Arg>)
    requires AllFit(inside, callee, |formals|)
    requires forall others :: Passes(inside, callee, others) ==> others == args
    requires forall i :: 0 <= i < |args| ==> Kept(args[i])
    ensures CallsAlike(inside, callee, formals)
  {
    hide Bind, StripAll, Passes;
    if |args| == |formals| {
      forall name | name in Bind(formals, args)
        ensures Alike(Bind(formals, StripAll(args))[name], Bind(formals, args)[name])
      {
        BindIndex(formals, args, name);
      }
    }
  }

  /** A lookup is right for all calls of its concept. */
  ghost predicate RightForAll(lookup: Env, inside: map<string, seq<NestedCall>>, callee: string, formals: seq<string>)
    requires AllFit(inside, callee, |formals|)
  {
    forall args :: Passes(inside, callee, args) ==> AlikeEnvs(lookup, Bind(formals, args))
  }

  /** The list of calls has the calls inside every concept visited, and no others. */
  lemma {:induction false} CallVisited(inside: map<string, seq<NestedCall>>, order: seq<string>, a: string, i: nat)
      returns (k: nat)
    requires (forall name :: name in order ==> name in inside) && a in order && i < |inside[a]|
    ensures k < |CallList(inside, order)| && CallList(inside, order)[k] == inside[a][i]
  {
    var n := |order| - 1;
    if order[n] == a {
      k := |CallList(inside, order[..n])| + i;
    } else {
      k := CallVisited(inside, order[..n], a, i);
    }
  }

  lemma {:induction false} CallOfSome(inside: map<string, seq<NestedCall>>, order: seq<string>, k: nat)
      returns (a: string, i: nat)
    requires (forall name :: name in order ==> name in inside) && k < |CallList(inside, order)|
    ensures a in order && i < |inside[a]| && CallList(inside, order)[k] == inside[a][i]
  {
    var n := |order| - 1;
    var before := |CallList(inside, order[..n])|;
    if k < before {
      a, i := CallOfSome(inside, order[..n], k);
    } else {
      a, i := order[n], k - before;
    }
  }

  ghost predicate InList(calls: seq<NestedCall>, callee: string, args: seq<Arg>) {
    exists k :: Calls(calls, callee, k) && calls[k].args == args
  }

  lemma {:induction false} SameCalls(inside: map<string, seq<NestedCall>>, order: seq<string>, callee: string,
      args: seq<Arg>)
    requires forall name :: name in order <==> name in inside
    ensures InList(CallList(inside, order), callee, args) <==> Passes(inside, callee, args)
  {
    hide CallList;
    var calls := CallList(inside, order);
    if Passes(inside, callee, args) {
      var a, i :| a in inside && 0 <= i < |inside[a]| && inside[a][i] == NestedCall(callee, args);
      var k := CallVisited(inside, order, a, i);
      assert Calls(calls, callee, k);
    }
    if k :| Calls(calls, callee, k) && calls[k].args == args {
      var a, i := CallOfSome(inside, order, k);
      assert inside[a][i] == NestedCall(callee, args);
    }
  }

  /** The two conditions of the list of calls, by arguments instead of positions. */
  lemma {:induction false} ByArguments(calls: seq<NestedCall>, callee: string, formals: seq<string>, final: Env)
    requires Fitting(calls, callee, |formals|)
    ensures (forall k :: Calls(calls, callee, k) ==> AlikeEnvs(final, Bind(formals, calls[k].args))) <==>
            (forall args :: InList(calls, callee, args) && |args| == |formals| ==>
              AlikeEnvs(final, Bind(formals, args)))
    ensures (forall j, k :: Calls(calls, callee, j) && Calls(calls, callee, k) ==>
               AlikeEnvs(Bind(formals, StripAll(calls[j].args)), Bind(formals, calls[k].args))) <==>
            (forall args, others ::
               InList(calls, callee, args) && InList(calls, callee, others) && |args| == |others| == |formals| ==>
               AlikeEnvs(Bind(formals, StripAll(args)), Bind(formals, others)))
  {
    hide Bind, AlikeEnvs, StripAll;
    assert forall k :: Calls(calls, callee, k) ==> InList(calls, callee, calls[k].args);
  }

  /** Whatever the order of the concepts, their lookups are right for all calls exactly when the
      calls of each concept are alike. */
  lemma {:induction false} RightIff(
      inside: map<string, seq<NestedCall>>, order: seq<string>, callee: string, formals: seq<string>, initial: Env,
        final: Env)
    requires forall name :: name in order <==> name in inside
    requires AllFit(inside, callee, |formals|) && Fitting(CallList(inside, order), callee, |formals|)
    requires initial.Keys <= (set name | name in formals)
    requires final == After(CallList(inside, order), callee, formals, initial)
    ensures RightForAll(final, inside, callee, formals) <==> CallsAlike(inside, callee, formals)
  {
    hide Bind, After, StripAll, CallList, AlikeEnvs, Calls, Passes, InList, Fitting;
    EveryCallAgreesIff(CallList(inside, order), callee, formals, initial);
    ByArguments(CallList(inside, order), callee, formals, final);
    forall args ensures InList(CallList(inside, order), callee, args) <==> Passes(inside, callee, args) {
      SameCalls(inside, order, callee, args);
    }
  }

  /* ---------- two calls that differ ---------- */

  function TextArg(text: string): Arg {
    Arg("", text, StaticArg, None)
  }

  /** A step with the parameter `x` of the concept around it. */
  const INNER_STEP := Tree("s {}", [Arg("x", "x", DynamicArg, None)], false, [], map[], [])

  /** A use of the concept "c <x>", which has that step. */
  function InnerUse(text: string, lookup: Env): Tree {
    Tree("c {}", [TextArg(text)], true, ["x"], lookup, [INNER_STEP])
  }

  function Sent(shown: string, text: string): Plan {
    Group("c {}", [TextArg(shown)], [Leaf("s {}", [Parameter("", PDynamic, text, None)])])
  }

  function TwoCalls(first: string, second: string): seq<NestedCall> {
    [NestedCall("c {}", [TextArg(first)]), NestedCall("c {}", [TextArg(second)])]
  }

  /** After two nested calls of a concept the first one is shown with its own argument, and its step
      is sent the argument of the second one. */
  lemma {:induction false} OtherCallIsSent(first: string, second: string, row: Env, top: bool)
    ensures var lookup := After(TwoCalls(first, second), "c {}", ["x"], map[]);
            && Compute(InnerUse(first, lookup), row, row, top) == Some(Sent(first, second))
            && Meaning(InnerUse(first, lookup), Outermost(row)) == Some(Sent(first, first))
  {
    hide Compute, Meaning;
    var lookup := After(TwoCalls(first, second), "c {}", ["x"], map[]);
    LookupOfTwo(first, second);
    InnerSent(first, lookup, second, row, top);
    InnerMeant(first, lookup, Outermost(row));
  }

  lemma {:induction false} LookupOfTwo(first: string, second: string)
    ensures After(TwoCalls(first, second), "c {}", ["x"], map[]) == map["x" := TextArg(second)]
  {
    var calls := TwoCalls(first, second);
    LastCallWins(calls, "c {}", ["x"], map[], 1);
    assert StripAll(calls[1].args) == [TextArg(second)] && [TextArg(second)][..0] == [];
  }

  lemma {:induction false} InnerSent(first: string, lookup: Env, text: string, row: Env, top: bool)
    requires lookup == map["x" := TextArg(text)]
    ensures Compute(InnerUse(first, lookup), row, row, top) == Some(Sent(first, text))
  {
    var args := [TextArg(first)];
    assert args[..0] == [] && EvalAll([], row) == Some([]) && [] + args == args;
    assert EvalAll(args, row) == Some(args);
    assert Known(lookup, row) && Through(lookup, row) == lookup;
    var inside := INNER_STEP.args;
    assert inside[..0] == [] && ToParameters([], lookup, row) == Some([]);
    var sent := Parameter("", PDynamic, text, None);
    JustOne(sent);
    JustOne(Leaf("s {}", [sent]));
    assert ToParameter(inside[0], lookup, row) == Some(sent) && ToParameters(inside, lookup, row) == Some([sent]);
    assert ComputeAll([INNER_STEP], 0, lookup, row, false) == Some([]);
    assert ComputeAll([INNER_STEP], 1, lookup, row, false) == Some([Leaf("s {}", [sent])]);
  }

  lemma {:induction false} StepMeant(first: string, inner: Scope)
    requires "x" in inner && inner["x"].arg == TextArg(first)
    ensures MeaningAll([INNER_STEP], 1, inner) == Some([Leaf("s {}", [Parameter("", PDynamic, first, None)])])
  {
    hide Plain;
    var inside, meant := INNER_STEP.args, Parameter("", PDynamic, first, None);
    JustOne(meant);
    JustOne(Leaf("s {}", [meant]));
    assert inside[..0] == [] && MeantParameters([], inner) == Some([]);
    assert MeantParameter(inside[0], inner) == Some(meant) && MeantParameters(inside, inner) == Some([meant]);
    assert MeaningAll([INNER_STEP], 0, inner) == Some([]);
  }

  lemma {:induction false} InnerMeant(first: string, lookup: Env, scope: Scope)
    ensures Meaning(InnerUse(first, lookup), scope) == Some(Sent(first, first))
  {
    hide MeaningAll;
    var args, bound := [TextArg(first)], Bound(TextArg(first), scope);
    JustOne(bound);
    assert args[..0] == [] && LookAll([], scope) == Some([]);
    assert LookAll(args, scope) == Some([bound]) && Arguments([bound]) == args;
    assert Bind(["x"], [bound][..0]) == map[] && Bind(["x"], [bound]) == map["x" := bound];
    StepMeant(first, map["x" := bound]);
  }

  /* ---------- adding concepts ---------- */

  /** As many arguments as placeholders, as every step has that is read. */
  ghost predicate Counted(s: Step)
    reads s`value, s`args
  {
    |s.args| == CountHoles(s.value)
  }

  /** A definition as it is parsed: its lookup has the names of its parameters. */
  ghost predicate Named(concept: Step)
    reads concept`args, concept`lookup, concept`parent
  {
    concept.parent == null && concept.lookup.formals == Values(concept.args)
  }

  ghost predicate OwnLookups(concepts: set<Step>)
    reads concepts`lookup
  {
    forall a, b :: a in concepts && b in concepts && a != b ==> a.lookup != b.lookup
  }

  /** What the steps of a dictionary are besides being linked. */
  ghost predicate Prepared(d: Linking.Dictionary)
    reads d, d.seen, d.conceptsMap.Values, d.homes
  {
    && (forall s :: s in d.seen ==> Counted(s))
    && (forall lookup :: lookup in d.homes ==> lookup.Valid())
    && (forall v :: v in d.conceptsMap ==> Named(d.conceptsMap[v]))
    && OwnLookups(d.conceptsMap.Values)
  }

  /** The concepts in whatever order the map yields them. */
  method InSomeOrder(names: set<string>) returns (order: seq<string>)
    ensures forall name :: name in order <==> name in names
  {
    order := [];
    var rest := names;
    while rest != {}
      invariant rest <= names && forall name :: name in order <==> name in names - rest
      decreases rest
    {
      var name :| name in rest;
      order := order + [name];
      rest := rest - {name};
    }
  }

  ghost function LookupsOf(concepts: map<string, Step>): map<string, Lookup>
    reads concepts.Values`lookup
  {
    map v | v in concepts :: concepts[v].lookup
  }

  ghost function EnvsOf(concepts: map<string, Step>): map<string, Env>
    reads concepts.Values`lookup, set v | v in concepts :: concepts[v].lookup
  {
    map v | v in concepts :: concepts[v].lookup.values
  }

  lemma {:induction false} DictionaryReady(d: Linking.Dictionary)
    requires d.Valid(None) && Prepared(d)
    ensures Ready(d.conceptsMap, InsideOf(d.conceptsMap))
    ensures forall v :: v in d.conceptsMap ==>
              && AllFit(InsideOf(d.conceptsMap), v, |d.conceptsMap[v].lookup.formals|)
              && d.conceptsMap[v].lookup in d.homes
  {
    hide d.Valid, CountHoles;
    DefinitionsAreSeen(d);
    forall v | v in d.conceptsMap ensures d.conceptsMap[v].lookup in d.homes {
      LookupIsKnown(d, d.conceptsMap[v]);
    }
    forall v, k | v in d.conceptsMap && 0 <= k < |d.conceptsMap[v].conceptSteps|
      ensures var step := d.conceptsMap[v].conceptSteps[k];
              step.value in d.conceptsMap ==> |step.args| == |d.conceptsMap[step.value].args|
    {
      assert Counted(d.conceptsMap[v].conceptSteps[k]);
      var value := d.conceptsMap[v].conceptSteps[k].value;
      if value in d.conceptsMap {
        assert Counted(d.conceptsMap[value]);
      }
    }
  }

  lemma {:induction false} LookupIsKnown(d: Linking.Dictionary, s: Step)
    requires d.Valid(None) && s in d.seen
    ensures s.lookup in d.homes
  {
    hide Linking.First, Linking.Defined, Linking.Linked;
    assert d.Kind(s);
  }

  /** Only parent pointers of the steps inside concepts and the values of lookups changed. */
  twostate lemma {:induction false} StillPrepared(d: Linking.Dictionary)
    requires old(Prepared(d)) && unchanged(d) && forall v :: v in d.conceptsMap ==> d.conceptsMap[v] in d.seen
    requires forall s :: s in d.seen ==> s.value == old(s.value) && s.args == old(s.args) && s.lookup == old(s.lookup)
    requires forall v :: v in d.conceptsMap ==> d.conceptsMap[v].parent == old(d.conceptsMap[v].parent)
    requires forall lookup :: lookup in d.homes ==> lookup.Valid()
    ensures Prepared(d)
  {
    hide CountHoles;
    forall s | s in d.seen ensures Counted(s) {
      assert old(Counted(s));
    }
    forall v | v in d.conceptsMap ensures Named(d.conceptsMap[v]) {
      assert old(Named(d.conceptsMap[v]));
    }
  }

  method UpdateLookups(d: Linking.Dictionary, order: seq<string>, ghost inside: map<string, seq<NestedCall>>,
                       ghost lookups: map<string, Lookup>, ghost initial: map<string, Env>)
    requires d.Valid(None) && Prepared(d) && forall name :: name in order <==> name in d.conceptsMap
    requires inside == InsideOf(d.conceptsMap) && lookups == LookupsOf(d.conceptsMap)
             && initial == EnvsOf(d.conceptsMap)
    modifies KnownSteps(d)`parent, d.homes
    ensures Holds(lookups, initial, CallList(inside, order))
    ensures forall lookup :: lookup in d.homes ==> lookup.Valid()
    ensures forall v :: v in d.conceptsMap ==> d.conceptsMap[v].parent == old(d.conceptsMap[v].parent)
  {
    hide d.Valid, Holds, Ready, Prepared, InsideOf, CallList, StepsIn, AllFit;
    DictionaryReady(d);
    StepsInside(d);
    LookupsValid(d);
    UpdateLookupForNestedConcepts(d.conceptsMap, order, inside, lookups, initial, StepsIn(d.conceptsMap));
    HeldAreValid(lookups, initial, CallList(inside, order));
  }

  lemma {:induction false} StepsInside(d: Linking.Dictionary)
    requires d.Valid(None)
    ensures StepsIn(d.conceptsMap) <= KnownSteps(d)
    ensures forall v :: v in d.conceptsMap ==> d.conceptsMap[v] !in StepsIn(d.conceptsMap)
    ensures forall v, s :: v in d.conceptsMap && s in d.conceptsMap[v].conceptSteps ==> s in StepsIn(d.conceptsMap)
  {
    hide d.Valid;
    DefinitionsAreSeen(d);
  }

  lemma {:induction false} HeldAreValid(lookups: map<string, Lookup>, initial: map<string, Env>, done: seq<NestedCall>)
    requires Holds(lookups, initial, done)
    ensures forall lookup :: lookup in lookups.Values ==> lookup.Valid()
  {
    hide After;
  }

  /** Filling the lookups touches parent pointers and values only. */
  method FillLookups(d: Linking.Dictionary, order: seq<string>)
    requires d.Valid(None) && Prepared(d) && forall name :: name in order <==> name in d.conceptsMap
    modifies KnownSteps(d)`parent, d.homes
    ensures d.Valid(None) && Prepared(d) && InsideOf(d.conceptsMap) == old(InsideOf(d.conceptsMap))
    ensures forall v :: v in d.conceptsMap ==>
              && var l := d.conceptsMap[v].lookup;
              && AllFit(InsideOf(d.conceptsMap), v, |l.formals|)
              && (RightForAll(l.values, InsideOf(d.conceptsMap), v, l.formals) <==>
                  CallsAlike(InsideOf(d.conceptsMap), v, l.formals))
  {
    hide d.Valid, AllFit, RightForAll, CallsAlike, Holds, Ready, Prepared, InsideOf;
    DictionaryReady(d);
    DefinitionsAreSeen(d);
    LookupsValid(d);
    ghost var inside, lookups, initial := InsideOf(d.conceptsMap), LookupsOf(d.conceptsMap), EnvsOf(d.conceptsMap);
    assert allocated(StepsIn(d.conceptsMap));
    UpdateLookups(d, order, inside, lookups, initial);
    forall v | v in d.conceptsMap
      ensures RightForAll(d.conceptsMap[v].lookup.values, inside, v, d.conceptsMap[v].lookup.formals) <==>
              CallsAlike(inside, v, d.conceptsMap[v].lookup.formals)
    {
      Filled(lookups, initial, inside, order, v);
    }
    StillPrepared(d);
  }

  lemma {:induction false} LookupsValid(d: Linking.Dictionary)
    requires Prepared(d)
    ensures forall lookup :: lookup in d.homes ==> lookup.Valid()
    ensures OwnLookups(d.conceptsMap.Values)
  {
  }

  lemma {:induction false} Filled(
      lookups: map<string, Lookup>, initial: map<string, Env>, inside: map<string, seq<NestedCall>>, order: seq<string>,
        v: string)
    requires forall name :: name in order <==> name in inside
    requires Holds(lookups, initial, CallList(inside, order)) && v in lookups
    requires AllFit(inside, v, |lookups[v].formals|) && initial[v].Keys <= (set name | name in lookups[v].formals)
    ensures lookups[v].Valid()
    ensures RightForAll(lookups[v].values, inside, v, lookups[v].formals) <==> CallsAlike(inside, v, lookups[v].formals)
  {
    hide CallList, After, RightForAll, CallsAlike, AllFit;
    RightIff(inside, order, v, lookups[v].formals, initial[v], lookups[v].values);
  }

  /* ---------- checking a dictionary ---------- */

  /** The reference graph of the concepts as they are linked. */
  function GraphOf(concepts: map<string, Step>): (g: ConceptGraph.Graph)
    reads concepts.Values`conceptSteps, StepsIn(concepts)`value, StepsIn(concepts)`isConcept
    ensures g.Keys == concepts.Keys
  {
    map v | v in concepts :: CallsIn(concepts[v].conceptSteps)
  }

  function CallsIn(steps: seq<Step>): (calls: seq<ConceptGraph.Call>)
    reads (set s | s in steps)`value, (set s | s in steps)`isConcept
    ensures |calls| == |steps|
    ensures forall k :: 0 <= k < |steps| ==> calls[k] == ConceptGraph.Call(steps[k].value, steps[k].isConcept)
  {
    if steps == [] then []
    else
      var n := |steps| - 1;
      CallsIn(steps[..n]) + [ConceptGraph.Call(steps[n].value, steps[n].isConcept)]
  }

  lemma {:induction false} IsGraphed(d: Linking.Dictionary)
    requires d.Valid(None)
    ensures d.Graphed(GraphOf(d.conceptsMap)) && ConceptGraph.WellFormed(GraphOf(d.conceptsMap))
  {
    hide d.Valid, ConceptGraph.WellFormed, ConceptGraph.FullyLinked, Linking.Forward;
    d.FullyLinkedIff(GraphOf(d.conceptsMap));
  }

  method CheckDictionary(g: ConceptGraph.Graph, order: seq<string>) returns (found: bool)
    requires ConceptGraph.WellFormed(g) && forall name :: name in order <==> name in g
    ensures found <==> exists w :: ConceptGraph.ClosedBy(g, w)
  {
    hide ConceptGraph.WellFormed, ConceptGraph.ClosedBy;
    var checked := new ConceptGraph.ConceptDictionary(g);
    found := checked.ValidateConcepts(order);
  }

  /* ---------- the trees of an accepted dictionary ---------- */

  ghost method AssignTrees(region: set<Step>, nodes: Nodes, n: nat)
    requires nodes == NodesOf(region) && Closed(nodes) && forall s :: s in region ==> s.lookup.Valid()
    requires forall s :: s in region ==> TreeOf(nodes, s, n) == TreeOf(nodes, s, n + 1)
    modifies region`tree
    ensures Region(region) && NodesOf(region) == nodes
    ensures forall s :: s in region ==> s.tree == TreeOf(nodes, s, n)
  {
    hide TreeOf;
    forall s | s in region {
      s.tree := TreeOf(nodes, s, n);
    }
    forall s | s in region ensures s.Models() {
      Unrolled(nodes, s, n);
    }
    forall s, c | s in region && c in s.conceptSteps ensures c in region {
      var k :| 0 <= k < |nodes[s].inside| && nodes[s].inside[k] == c;
    }
  }

  lemma {:induction false} Unrolled(nodes: Nodes, s: Step, n: nat)
    requires Closed(nodes) && s in nodes
    ensures var node, tree := nodes[s], TreeOf(nodes, s, n + 1);
            && tree.value == node.value && tree.args == node.args && tree.isConcept == node.isConcept
            && tree.formals == node.formals && tree.lookup == node.lookup && |tree.steps| == |node.inside|
            && forall i :: 0 <= i < |node.inside| ==> tree.steps[i] == TreeOf(nodes, node.inside[i], n)
  {
  }

  /* ---------- the whole of `add` ---------- */

  /** Concepts as they are parsed, which a dictionary does not know yet. */
  ghost predicate Coming(d: Linking.Dictionary, concepts: seq<Step>)
    reads d, d.conceptsMap.Values, concepts, Linking.AllParts(concepts)
  {
    && d.Waiting(concepts, 0) && Linking.Apart(concepts)
    && (forall s :: s in Linking.AllParts(concepts) ==> Counted(s))
    && (forall c :: c in concepts ==> Named(c))
    && OwnLookups(d.conceptsMap.Values + (set c | c in concepts))
  }

  lemma {:induction false} ComingMeans(d: Linking.Dictionary, concepts: seq<Step>)
    requires Coming(d, concepts)
    ensures d.Waiting(concepts, 0) && Linking.Apart(concepts)
    ensures forall s :: s in Linking.AllParts(concepts) ==> Counted(s)
    ensures forall c :: c in concepts ==> Named(c)
    ensures var all := d.conceptsMap.Values + (set c | c in concepts);
            forall a, b :: a in all && b in all && a != b ==>
              a.lookup != b.lookup
  {
  }

  lemma {:induction false} PreparedMeans(d: Linking.Dictionary)
    ensures Prepared(d) <==>
            && (forall s :: s in d.seen ==> Counted(s)) && (forall lookup :: lookup in d.homes ==> lookup.Valid())
            && (forall v :: v in d.conceptsMap ==> Named(d.conceptsMap[v])) && OwnLookups(d.conceptsMap.Values)
  {
  }

  /** Steps and definitions that were ready are so afterwards. */
  twostate lemma {:induction false} StaysPrepared(d: Linking.Dictionary)
    requires forall s :: s in d.seen ==>
               old(allocated(s)) && old(Counted(s)) && s.value == old(s.value) && s.args == old(s.args)
    requires forall c :: c in d.conceptsMap.Values ==>
               && c in d.seen && old(allocated(c)) && old(Named(c)) && c.parent == old(c.parent)
               && c.lookup == old(c.lookup)
    requires (forall lookup :: lookup in d.homes ==> lookup.Valid()) && OwnLookups(d.conceptsMap.Values)
    ensures Prepared(d)
  {
    hide CountHoles, OwnLookups;
    forall s | s in d.seen ensures Counted(s) {
      assert old(Counted(s));
    }
    forall v | v in d.conceptsMap ensures Named(d.conceptsMap[v]) {
      var c := d.conceptsMap[v];
      assert c in d.conceptsMap.Values && old(Named(c));
    }
  }

  lemma {:induction false} OwnMeans(concepts: set<Step>)
    ensures OwnLookups(concepts) <==> forall a, b :: a in concepts && b in concepts && a != b ==> a.lookup != b.lookup
  {
  }

  /** The names of the concepts and the calls inside them. */
  ghost predicate Written(concepts: seq<Step>, names: seq<string>, calls: seq<seq<NestedCall>>)
    reads concepts, set i, s | 0 <= i < |concepts| && s in concepts[i].conceptSteps :: s
  {
    && |names| == |calls| == |concepts|
    && forall i :: 0 <= i < |concepts| ==>
         concepts[i].value == names[i] && CallsOf(concepts[i].conceptSteps) == calls[i]
  }

  ghost function CalleesOf(calls: seq<NestedCall>): (texts: seq<string>)
    ensures |texts| == |calls| && forall k :: 0 <= k < |calls| ==> texts[k] == calls[k].callee
  {
    seq(|calls|, k requires 0 <= k < |calls| => calls[k].callee)
  }

  ghost function AllCallees(calls: seq<seq<NestedCall>>): (texts: seq<seq<string>>)
    ensures |texts| == |calls| && forall i :: 0 <= i < |calls| ==> texts[i] == CalleesOf(calls[i])
  {
    seq(|calls|, i requires 0 <= i < |calls| => CalleesOf(calls[i]))
  }

  lemma {:induction false} WrittenMeans(concepts: seq<Step>, names: seq<string>, calls: seq<seq<NestedCall>>)
    requires Written(concepts, names, calls)
    ensures |names| == |calls| == |concepts|
    ensures forall i :: 0 <= i < |concepts| ==> CallsOf(concepts[i].conceptSteps) == calls[i]
  {
  }

  lemma {:induction false} WrittenDescribed(concepts: seq<Step>, names: seq<string>, calls: seq<seq<NestedCall>>)
    requires Written(concepts, names, calls)
    ensures Linking.Described(concepts, names, AllCallees(calls))
  {
    forall i | 0 <= i < |concepts|
      ensures Linking.ValuesOf(concepts[i].conceptSteps) == CalleesOf(CallsOf(concepts[i].conceptSteps))
    {
    }
  }

  /** The calls inside the concepts that are held, with the first `n` of some more. */
  ghost function WithCalls(
      inside: map<string, seq<NestedCall>>, names: seq<string>, calls: seq<seq<NestedCall>>, n: nat
    ): map<string, seq<NestedCall>>
    requires n <= |names| == |calls|
  {
    if n == 0 then inside else WithCalls(inside, names, calls, n - 1)[names[n - 1] := calls[n - 1]]
  }

  lemma {:induction false} CallsWith(
      inside: map<string, seq<NestedCall>>, names: seq<string>, calls: seq<seq<NestedCall>>, n: nat, v: string)
    requires n <= |names| == |calls| && Linking.AllNew(inside.Keys, names, n)
    ensures v in WithCalls(inside, names, calls, n) <==> v in inside || v in names[..n]
    ensures v in inside ==> WithCalls(inside, names, calls, n)[v] == inside[v]
    ensures forall i :: 0 <= i < n && names[i] == v ==> WithCalls(inside, names, calls, n)[v] == calls[i]
  {
    if n > 0 {
      CallsWith(inside, names, calls, n - 1, v);
      assert names[..n] == names[..n - 1] + [names[n - 1]];
      assert forall i :: 0 <= i < n - 1 ==> names[i] == names[..n - 1][i];
    }
  }

  /** A concept in a dictionary was there before or came in. */
  lemma {:induction false} WhatIsHeld(
      now: map<string, Step>, before: map<string, Step>, names: seq<string>, concepts: seq<Step>, n: nat)
    requires n <= |names| == |concepts| && Linking.Holds(now, before, names, concepts, n)
    ensures forall v :: v in now ==> (v in before && now[v] == before[v]) || now[v] in concepts
    ensures forall v :: v in before ==> v in now && now[v] == before[v]
  {
  }

  /** A concept keeps its calls when it keeps its steps. */
  twostate lemma {:induction false} KeepsCalls(concept: Step)
    requires concept.conceptSteps == old(concept.conceptSteps)
    requires forall s :: s in concept.conceptSteps ==> s.value == old(s.value) && s.args == old(s.args)
    ensures CallsOf(concept.conceptSteps) == old(CallsOf(concept.conceptSteps))
  {
  }

  /** The definitions of a dictionary keep their calls when more concepts come in. */
  twostate lemma {:induction false} OldCallsKept(d: Linking.Dictionary)
    requires d.ConceptsUnchanged()
    requires forall v :: v in old(d.conceptsMap) ==>
               var c := old(d.conceptsMap[v]); c in old(d.seen) && c in d.seen && old(c.isConcept)
    requires forall s :: s in old(d.seen) ==> s.value == old(s.value) && s.args == old(s.args)
    requires forall s, c :: s in old(d.seen) && c in old(s.conceptSteps) ==> c in old(d.seen)
    ensures forall v :: v in old(d.conceptsMap) ==>
              CallsOf(old(d.conceptsMap)[v].conceptSteps) == old(InsideOf(d.conceptsMap))[v]
  {
    hide CallsOf;
    forall v | v in old(d.conceptsMap)
      ensures CallsOf(old(d.conceptsMap)[v].conceptSteps) == old(InsideOf(d.conceptsMap))[v]
    {
      KeepsCalls(old(d.conceptsMap)[v]);
      assert old(InsideOf(d.conceptsMap)[v]) == old(CallsOf(d.conceptsMap[v].conceptSteps));
    }
  }

  /** The calls inside the concepts of a dictionary, when each concept has the steps it had. */
  lemma {:induction false} CallsHeld(
      now: map<string, Step>, before: map<string, Step>, inside: map<string, seq<NestedCall>>, concepts: seq<Step>,
      names: seq<string>, calls: seq<seq<NestedCall>>, n: nat)
    requires n <= |names| == |calls| == |concepts| && Linking.Holds(now, before, names, concepts, n)
    requires inside.Keys == before.Keys && Linking.AllNew(before.Keys, names, n)
    requires forall v :: v in before ==> CallsOf(before[v].conceptSteps) == inside[v]
    requires forall i :: 0 <= i < n ==> CallsOf(concepts[i].conceptSteps) == calls[i]
    ensures InsideOf(now) == WithCalls(inside, names, calls, n)
  {
    hide CallsOf, WithCalls, Linking.AllNew;
    var after := WithCalls(inside, names, calls, n);
    forall v ensures (v in now <==> v in after) && (v in now ==> CallsOf(now[v].conceptSteps) == after[v]) {
      CallsWith(inside, names, calls, n, v);
    }
  }

  /** The concepts come in and are linked. */
  method Incorporate(d: Linking.Dictionary, concepts: seq<Step>, ghost names: seq<string>,
                     ghost calls: seq<seq<NestedCall>>)
      returns (duplicate: bool, ghost count: nat)
    requires Written(concepts, names, calls)
    requires d.Valid(None) && Prepared(d) && Coming(d, concepts)
    modifies d`constructionMap, d`conceptsMap, d`log, d`seen
    modifies Linking.AllParts(concepts)`isConcept
    modifies Linking.AllParts(concepts)`conceptSteps
    modifies Linking.AllParts(concepts)`lookup
    modifies KnownSteps(d)`isConcept, KnownSteps(d)`conceptSteps, KnownSteps(d)`lookup
    ensures d.Valid(None) && Prepared(d)
    ensures duplicate <==> !Linking.AllNew(old(d.conceptsMap.Keys), names, |names|)
    ensures count <= |names| && Linking.AllNew(old(d.conceptsMap.Keys), names, count)
    ensures if duplicate then count < |names| && !Linking.AllNew(old(d.conceptsMap.Keys), names, count + 1)
            else count == |names|
    ensures Linking.Holds(d.conceptsMap, old(d.conceptsMap), names, concepts, count)
    ensures d.log == old(d.log) + Linking.Entries(names, AllCallees(calls), count, |old(d.log)|)
    ensures d.ConceptsUnchanged() && forall i :: 0 <= i < |concepts| ==> Linking.SameFields(concepts[i])
    ensures forall s :: s in d.seen ==> s in old(d.seen) || s in old(Linking.AllParts(concepts))
  {
    hide d.Valid, Prepared, Coming, d.Waiting, Linking.Apart, Linking.AllNew, Linking.TextsOf, Linking.AllParts,
      CountHoles, Named, Counted, OwnLookups, Linking.Holds, Linking.Entries, Written, Linking.Described;
    PreparedMeans(d);
    ComingMeans(d, concepts);
    DefinitionsAreSeen(d);
    WrittenDescribed(concepts, names, calls);
    ghost var all := d.conceptsMap.Values + (set c | c in concepts);
    ghost var parts := Linking.AllParts(concepts);
    assert allocated(parts);
    duplicate, count := d.Add(concepts, names, AllCallees(calls));
    WhatIsHeld(d.conceptsMap, old(d.conceptsMap), names, concepts, count);
    DefinitionsAreSeen(d);
    assert d.conceptsMap.Values <= all;
    forall c | c in all && c in d.seen ensures c.lookup == old(c.lookup) {
      if c in concepts {
        var i :| 0 <= i < |concepts| && concepts[i] == c;
      } else {
        assert old(c.isConcept) && c in old(d.seen);
      }
    }
    OwnMeans(d.conceptsMap.Values);
    StaysPrepared(d);
  }

  /** The same, with the calls inside the concepts. */
  method BringIn(d: Linking.Dictionary, concepts: seq<Step>, ghost names: seq<string>,
                 ghost calls: seq<seq<NestedCall>>)
      returns (duplicate: bool, ghost count: nat)
    requires Written(concepts, names, calls)
    requires d.Valid(None) && Prepared(d) && Coming(d, concepts)
    modifies d`constructionMap, d`conceptsMap, d`log, d`seen
    modifies Linking.AllParts(concepts)`isConcept
    modifies Linking.AllParts(concepts)`conceptSteps
    modifies Linking.AllParts(concepts)`lookup
    modifies KnownSteps(d)`isConcept, KnownSteps(d)`conceptSteps, KnownSteps(d)`lookup
    ensures d.Valid(None) && Prepared(d)
    ensures duplicate <==> !Linking.AllNew(old(d.conceptsMap.Keys), names, |names|)
    ensures count <= |names| && Linking.AllNew(old(d.conceptsMap.Keys), names, count)
    ensures if duplicate then count < |names| && !Linking.AllNew(old(d.conceptsMap.Keys), names, count + 1)
            else count == |names|
    ensures Linking.Holds(d.conceptsMap, old(d.conceptsMap), names, concepts, count)
    ensures d.log == old(d.log) + Linking.Entries(names, AllCallees(calls), count, |old(d.log)|)
    ensures d.ConceptsUnchanged() && forall i :: 0 <= i < |concepts| ==> Linking.SameFields(concepts[i])
    ensures InsideOf(d.conceptsMap) == WithCalls(old(InsideOf(d.conceptsMap)), names, calls, count)
    ensures KnownSteps(d) <= old(KnownSteps(d)) + old(Linking.AllParts(concepts))
  {
    hide d.Valid, Prepared, Coming, Linking.AllNew, Linking.TextsOf, Linking.AllParts, InsideOf, Written, WithCalls,
      Linking.Holds, Linking.Entries, CallsOf;
    WrittenMeans(concepts, names, calls);
    DefinitionsAreSeen(d);
    ghost var inside := InsideOf(d.conceptsMap);
    duplicate, count := Incorporate(d, concepts, names, calls);
    DefinitionsAreSeen(d);
    WhatIsHeld(d.conceptsMap, old(d.conceptsMap), names, concepts, count);
    OldCallsKept(d);
    forall i | 0 <= i < |concepts| ensures CallsOf(concepts[i].conceptSteps) == calls[i] {
      KeepsCalls(concepts[i]);
    }
    CallsHeld(d.conceptsMap, old(d.conceptsMap), inside, concepts, names, calls, count);
  }

  /** Every concept of the dictionary with trees whose nested lookups are right. */
  ghost predicate TreesReady(concepts: map<string, Step>, region: set<Step>)
    reads region, concepts.Values, Lookups(region)
  {
    && Dictionary(concepts, region)
    && forall v :: v in concepts ==>
         var tree := concepts[v].tree;
         && tree.lookup.Keys <= (set name | name in tree.formals)
         && |tree.formals| == |concepts[v].args|
         && forall k :: 0 <= k < |tree.steps| ==> Agrees(tree.steps[k])
  }

  /** The lookups are right for all calls inside concepts. */
  ghost predicate LookupsRight(concepts: map<string, Step>, inside: map<string, seq<NestedCall>>)
    reads concepts.Values`lookup, set v | v in concepts :: concepts[v].lookup
  {
    forall v :: v in concepts && AllFit(inside, v, |concepts[v].lookup.formals|) ==>
      RightForAll(concepts[v].lookup.values, inside, v, concepts[v].lookup.formals)
  }

  lemma {:induction false} NestedNodesAgree(d: Linking.Dictionary)
    requires d.Valid(None) && Prepared(d) && LookupsRight(d.conceptsMap, InsideOf(d.conceptsMap))
    ensures InsideAgrees(NodesOf(KnownSteps(d)))
  {
    hide d.Valid, Prepared, RightForAll, AllFit, InsideOf, Passes, NodeAgrees;
    DefinitionsAreSeen(d);
    DictionaryReady(d);
    forall s, k | s in d.seen && 0 <= k < |s.conceptSteps|
      ensures s.conceptSteps[k] in d.seen && NodeAgrees(NodesOf(KnownSteps(d))[s.conceptSteps[k]])
    {
      var c := s.conceptSteps[k];
      assert c in s.conceptSteps;
      StepFollows(d, s);
      StepFollows(d, c);
      if c.isConcept {
        CallPasses(d.conceptsMap, s.value, k);
        LinkedNodeAgrees(d.conceptsMap, InsideOf(d.conceptsMap), c);
      } else {
        PlainNodeAgrees(c);
      }
    }
  }

  lemma {:induction false} PlainNodeAgrees(c: Step)
    ensures !c.isConcept ==>
              NodeAgrees(Node(c.value, c.args, c.isConcept, c.lookup.formals, c.lookup.values, c.conceptSteps))
  {
  }

  /** The lookup of a linked step is that of its concept. */
  lemma {:induction false} LinkedNodeAgrees(concepts: map<string, Step>, inside: map<string, seq<NestedCall>>, c: Step)
    requires c.isConcept && c.value in concepts && c.lookup == concepts[c.value].lookup
    requires AllFit(inside, c.value, |c.lookup.formals|) && Passes(inside, c.value, c.args)
    requires RightForAll(c.lookup.values, inside, c.value, c.lookup.formals)
    ensures NodeAgrees(Node(c.value, c.args, true, c.lookup.formals, c.lookup.values, c.conceptSteps))
  {
    hide Bind, Passes, AllFit, RightForAll, AlikeEnvs;
    RightMeans(c.lookup.values, inside, c.value, c.lookup.formals, c.args);
  }

  lemma {:induction false} CallPasses(concepts: map<string, Step>, v: string, k: nat)
    requires v in concepts && k < |concepts[v].conceptSteps|
    ensures var c := concepts[v].conceptSteps[k]; Passes(InsideOf(concepts), c.value, c.args)
  {
    var c := concepts[v].conceptSteps[k];
    assert InsideOf(concepts)[v][k] == NestedCall(c.value, c.args);
  }

  lemma {:induction false} RightMeans(
      lookup: Env, inside: map<string, seq<NestedCall>>, callee: string, formals: seq<string>, args: seq<Arg>)
    requires AllFit(inside, callee, |formals|) && RightForAll(lookup, inside, callee, formals)
             && Passes(inside, callee, args)
    ensures |args| == |formals| && AlikeEnvs(lookup, Bind(formals, args))
  {
    hide Passes, Bind, AlikeEnvs;
  }

  /** With their trees the concepts of a dictionary are ready for use. */
  lemma {:induction false} ReadyForUse(d: Linking.Dictionary, n: nat)
    requires d.Valid(None) && Prepared(d) && Region(KnownSteps(d))
    requires var nodes := NodesOf(KnownSteps(d));
             Closed(nodes) && forall s :: s in d.seen ==> s.tree == TreeOf(nodes, s, n) == TreeOf(nodes, s, n + 1)
    ensures Dictionary(d.conceptsMap, KnownSteps(d))
    ensures LookupsRight(d.conceptsMap, InsideOf(d.conceptsMap)) ==> TreesReady(d.conceptsMap, KnownSteps(d))
  {
    hide d.Valid, InsideOf, LookupsRight, TreeOf, Bind, Counted;
    DefinitionsAreSeen(d);
    var nodes := NodesOf(KnownSteps(d));
    if LookupsRight(d.conceptsMap, InsideOf(d.conceptsMap)) {
      NestedNodesAgree(d);
      forall v | v in d.conceptsMap
        ensures var tree := d.conceptsMap[v].tree; forall k :: 0 <= k < |tree.steps| ==> Agrees(tree.steps[k])
      {
        DefinitionTreeAgrees(nodes, d.conceptsMap[v], n);
      }
      forall v | v in d.conceptsMap
        ensures d.conceptsMap[v].tree.lookup.Keys <= (set name | name in d.conceptsMap[v].tree.formals)
      {
        assert d.conceptsMap[v].Models();
      }
    }
  }

  lemma {:induction false} DefinitionTreeAgrees(nodes: Nodes, s: Step, n: nat)
    requires Closed(nodes) && InsideAgrees(nodes) && s in nodes && TreeOf(nodes, s, n) == TreeOf(nodes, s, n + 1)
    ensures var tree := TreeOf(nodes, s, n); forall k :: 0 <= k < |tree.steps| ==> Agrees(tree.steps[k])
  {
    hide TreeOf, Agrees;
    Unrolled(nodes, s, n);
    forall k | 0 <= k < |nodes[s].inside| ensures Agrees(TreeOf(nodes, nodes[s].inside[k], n)) {
      TreesAgree(nodes, nodes[s].inside[k], n);
    }
  }

  lemma {:induction false} TreesExist(d: Linking.Dictionary, g: ConceptGraph.Graph)
    requires d.Valid(None) && Prepared(d) && g == GraphOf(d.conceptsMap)
    requires !(exists w :: ConceptGraph.ClosedBy(g, w))
    ensures var nodes := NodesOf(KnownSteps(d));
            Closed(nodes) && forall s :: s in d.seen ==> TreeOf(nodes, s, |g|) == TreeOf(nodes, s, |g| + 1)
    ensures forall s :: s in d.seen ==> s.lookup.Valid()
  {
    hide d.Valid, Prepared, TreeOf, Mirrors, ConceptGraph.WellFormed, ConceptGraph.ClosedBy, GraphOf;
    IsGraphed(d);
    NodesAreClosed(d);
    NodesMirror(d, g);
    EnoughLevels(g, NodesOf(KnownSteps(d)));
    PreparedMeans(d);
    forall s | s in d.seen ensures s.lookup.Valid() {
      LookupIsKnown(d, s);
    }
  }

  /** The calls of every concept are alike. */
  ghost predicate AllCallsAlike(concepts: map<string, Step>, inside: map<string, seq<NestedCall>>)
    reads concepts.Values`lookup
  {
    forall v :: v in concepts && AllFit(inside, v, |concepts[v].lookup.formals|) ==>
      CallsAlike(inside, v, concepts[v].lookup.formals)
  }

  lemma {:induction false} AllRightIff(d: Linking.Dictionary)
    requires var inside := InsideOf(d.conceptsMap);
             forall v :: v in d.conceptsMap ==>
               var formals := d.conceptsMap[v].lookup.formals;
               AllFit(inside, v, |formals|) &&
               (RightForAll(d.conceptsMap[v].lookup.values, inside, v, formals) <==> CallsAlike(inside, v, formals))
    ensures LookupsRight(d.conceptsMap, InsideOf(d.conceptsMap)) <==>
            AllCallsAlike(d.conceptsMap, InsideOf(d.conceptsMap))
  {
    hide AllFit, RightForAll, CallsAlike, InsideOf;
  }

  /** Nothing has changed but trees and parent pointers. */
  twostate predicate SameSteps(d: Linking.Dictionary)
    reads d, d.seen, set s | s in d.seen :: s.lookup
  {
    && unchanged(d)
    && forall s :: s in d.seen ==>
         && s.value == old(s.value) && s.args == old(s.args) && s.isConcept == old(s.isConcept)
         && s.lookup == old(s.lookup) && s.conceptSteps == old(s.conceptSteps)
         && s.lookup.values == old(s.lookup.values)
  }

  /** The definitions are known steps, and so are the steps inside known ones. */
  ghost predicate Enclosed(d: Linking.Dictionary)
    reads d`seen, d`conceptsMap, d.seen`conceptSteps
  {
    && (forall v :: v in d.conceptsMap ==> d.conceptsMap[v] in d.seen)
    && forall s, c :: s in d.seen && c in s.conceptSteps ==> c in d.seen
  }

  twostate lemma {:induction false} SameGraph(d: Linking.Dictionary)
    requires Enclosed(d) && SameSteps(d)
    ensures GraphOf(d.conceptsMap) == old(GraphOf(d.conceptsMap))
  {
    assert forall v :: v in d.conceptsMap ==>
      CallsIn(d.conceptsMap[v].conceptSteps) == old(CallsIn(d.conceptsMap[v].conceptSteps));
  }

  twostate lemma {:induction false} SameCallsInside(d: Linking.Dictionary)
    requires Enclosed(d) && SameSteps(d)
    ensures InsideOf(d.conceptsMap) == old(InsideOf(d.conceptsMap))
  {
    assert forall v :: v in d.conceptsMap ==>
      CallsOf(d.conceptsMap[v].conceptSteps) == old(CallsOf(d.conceptsMap[v].conceptSteps));
  }

  /** Graph, calls and lookups are those of the fields that trees are made of. */
  twostate lemma {:induction false} SameConcepts(d: Linking.Dictionary)
    requires Enclosed(d) && SameSteps(d)
    ensures GraphOf(d.conceptsMap) == old(GraphOf(d.conceptsMap))
            && InsideOf(d.conceptsMap) == old(InsideOf(d.conceptsMap))
    ensures AllCallsAlike(d.conceptsMap, InsideOf(d.conceptsMap)) ==
            old(AllCallsAlike(d.conceptsMap, InsideOf(d.conceptsMap)))
    ensures LookupsRight(d.conceptsMap, InsideOf(d.conceptsMap)) ==
            old(LookupsRight(d.conceptsMap, InsideOf(d.conceptsMap)))
  {
    hide AllFit, CallsAlike, RightForAll, GraphOf, InsideOf;
    SameGraph(d);
    SameCallsInside(d);
  }

  /** The tree of a step inside a concept: a linked one has the steps of the concept it names. */
  ghost predicate Expands(step: Tree, call: NestedCall, linked: bool, concepts: map<string, Step>)
    reads concepts.Values`tree
  {
    && step.value == call.callee && step.args == call.args && step.isConcept == linked
    && if linked then
         && call.callee in concepts
         && var tree := concepts[call.callee].tree;
         step.formals == tree.formals && step.lookup == tree.lookup && step.steps == tree.steps
       else step.steps == []
  }

  /** The tree of every concept has the calls inside it, unfolded along the links. */
  ghost predicate Unfolds(concepts: map<string, Step>, inside: map<string, seq<NestedCall>>, g: ConceptGraph.Graph)
    reads concepts.Values`tree, concepts.Values`args
  {
    inside.Keys == g.Keys == concepts.Keys && forall v :: v in concepts ==>
      var tree := concepts[v].tree;
      && tree.value == v && tree.isConcept && tree.args == concepts[v].args && tree.formals == Values(tree.args)
      && |tree.steps| == |inside[v]| == |g[v]|
      && forall k :: 0 <= k < |tree.steps| ==> Expands(tree.steps[k], inside[v][k], g[v][k].isConcept, concepts)
  }

  lemma {:induction false} StepExpands(d: Linking.Dictionary, s: Step)
    requires d.Valid(None) && Region(KnownSteps(d)) && s in d.seen
    ensures Expands(s.tree, NestedCall(s.value, s.args), s.isConcept, d.conceptsMap)
  {
    hide d.Valid;
    StepFollows(d, s);
    DefinitionsAreSeen(d);
    assert s.Models();
    if s.isConcept {
      assert d.conceptsMap[s.value].Models();
    }
  }

  lemma {:induction false} TreesUnfold(d: Linking.Dictionary)
    requires d.Valid(None) && Prepared(d) && Region(KnownSteps(d))
    ensures Unfolds(d.conceptsMap, InsideOf(d.conceptsMap), GraphOf(d.conceptsMap))
  {
    hide d.Valid, Counted, Expands;
    DefinitionsAreSeen(d);
    forall v, k | v in d.conceptsMap && 0 <= k < |d.conceptsMap[v].conceptSteps|
      ensures var s := d.conceptsMap[v].conceptSteps[k];
              Expands(s.tree, NestedCall(s.value, s.args), s.isConcept, d.conceptsMap)
    {
      assert d.conceptsMap[v].conceptSteps[k] in d.conceptsMap[v].conceptSteps;
      StepExpands(d, d.conceptsMap[v].conceptSteps[k]);
    }
    forall v | v in d.conceptsMap ensures d.conceptsMap[v].Models() && Named(d.conceptsMap[v]) {
    }
  }

  /** All steps get their trees; nothing else changes. */
  ghost method GiveTrees(d: Linking.Dictionary, g: ConceptGraph.Graph)
    requires d.Valid(None) && Prepared(d) && g == GraphOf(d.conceptsMap)
    requires !(exists w :: ConceptGraph.ClosedBy(g, w))
    requires LookupsRight(d.conceptsMap, InsideOf(d.conceptsMap)) <==>
             AllCallsAlike(d.conceptsMap, InsideOf(d.conceptsMap))
    modifies KnownSteps(d)`tree
    ensures d.Valid(None) && Prepared(d) && Dictionary(d.conceptsMap, KnownSteps(d)) && g == GraphOf(d.conceptsMap)
    ensures Unfolds(d.conceptsMap, InsideOf(d.conceptsMap), g)
    ensures InsideOf(d.conceptsMap) == old(InsideOf(d.conceptsMap))
    ensures AllCallsAlike(d.conceptsMap, InsideOf(d.conceptsMap)) ==> TreesReady(d.conceptsMap, KnownSteps(d))
  {
    hide d.Valid, Prepared, TreeOf, LookupsRight, AllCallsAlike, InsideOf, ConceptGraph.ClosedBy, GraphOf, Region,
      Dictionary, TreesReady, NodesOf, StepsIn, Unfolds;
    ghost var nodes := NodesOf(KnownSteps(d));
    TreesExist(d, g);
    DefinitionsAreSeen(d);
    LookupsValid(d);
    AssignTrees(KnownSteps(d), nodes, |g|);
    SameConcepts(d);
    StillPrepared(d);
    ReadyForUse(d, |g|);
    TreesUnfold(d);
  }

  /** The check of a dictionary whose lookups are filled. */
  method CheckFilled(d: Linking.Dictionary, order: seq<string>) returns (found: bool, ghost g: ConceptGraph.Graph)
    requires d.Valid(None) && Prepared(d) && forall name :: name in order <==> name in d.conceptsMap
    requires LookupsRight(d.conceptsMap, InsideOf(d.conceptsMap)) <==>
             AllCallsAlike(d.conceptsMap, InsideOf(d.conceptsMap))
    modifies KnownSteps(d)`tree
    ensures d.Valid(None) && Prepared(d) && g == GraphOf(d.conceptsMap) && Linking.GraphOf(d.log, g)
    ensures InsideOf(d.conceptsMap) == old(InsideOf(d.conceptsMap))
    ensures found <==> exists w :: ConceptGraph.ClosedBy(g, w)
    ensures !found ==>
              && Dictionary(d.conceptsMap, KnownSteps(d)) && Unfolds(d.conceptsMap, InsideOf(d.conceptsMap), g)
              && (AllCallsAlike(d.conceptsMap, InsideOf(d.conceptsMap)) ==> TreesReady(d.conceptsMap, KnownSteps(d)))
  {
    hide d.Valid, Prepared, InsideOf, LookupsRight, AllCallsAlike, Dictionary, TreesReady, ConceptGraph.ClosedBy,
      ConceptGraph.WellFormed, GraphOf, d.Graphed, StepsIn, Unfolds, Linking.GraphOf;
    IsGraphed(d);
    d.GraphOfLog(GraphOf(d.conceptsMap));
    var graph := GraphOf(d.conceptsMap);
    g := graph;
    DefinitionsAreSeen(d);
    found := CheckDictionary(graph, order);
    SameConcepts(d);
    if !found {
      GiveTrees(d, g);
    }
  }

  /** The second half of `add`: the lookups are filled, and the dictionary is checked. */
  method Settle(d: Linking.Dictionary) returns (found: bool, ghost g: ConceptGraph.Graph)
    requires d.Valid(None) && Prepared(d)
    modifies KnownSteps(d)`parent, KnownSteps(d)`tree, d.homes
    ensures d.Valid(None) && Prepared(d) && g == GraphOf(d.conceptsMap)
    ensures InsideOf(d.conceptsMap) == old(InsideOf(d.conceptsMap))
    ensures found <==> exists w :: ConceptGraph.ClosedBy(g, w)
    ensures Linking.GraphOf(d.log, g)
    ensures !found ==>
              && Dictionary(d.conceptsMap, KnownSteps(d)) && Unfolds(d.conceptsMap, InsideOf(d.conceptsMap), g)
              && (AllCallsAlike(d.conceptsMap, InsideOf(d.conceptsMap)) ==> TreesReady(d.conceptsMap, KnownSteps(d)))
  {
    hide d.Valid, Prepared, InsideOf, AllFit, RightForAll, CallsAlike, LookupsRight, AllCallsAlike, Dictionary,
      TreesReady, ConceptGraph.ClosedBy, ConceptGraph.WellFormed, GraphOf, d.Graphed, StepsIn, Unfolds,
      Linking.GraphOf;
    assert allocated(StepsIn(d.conceptsMap));
    ghost var inside := InsideOf(d.conceptsMap);
    var order := InSomeOrder(d.conceptsMap.Keys);
    assert InsideOf(d.conceptsMap) == inside;
    FillLookups(d, order);
    assert InsideOf(d.conceptsMap) == inside;
    AllRightIff(d);
    found, g := CheckFilled(d, order);
    assert InsideOf(d.conceptsMap) == inside;
  }

  /** `add` as a whole. It holds the first `count` concepts, with their steps linked by the order in
      which they came. Definitions that are taken already are refused, and so are circular
      references along links. Otherwise every concept has its tree, unfolded along the links, and
      the dictionary can be used; nested concepts then resolve as they should when the lookups are
      right for all calls, which is so exactly when the calls of each concept are alike. */
  method AddConcepts(d: Linking.Dictionary, concepts: seq<Step>, ghost names: seq<string>,
                     ghost calls: seq<seq<NestedCall>>)
    returns (error: Option<DictionaryError>, ghost count: nat, ghost g: ConceptGraph.Graph)
    requires Written(concepts, names, calls)
    requires d.Valid(None) && Prepared(d) && Coming(d, concepts)
    modifies d`constructionMap, d`conceptsMap, d`log, d`seen, d.homes
    modifies Linking.AllParts(concepts)`isConcept, Linking.AllParts(concepts)`conceptSteps
    modifies Linking.AllParts(concepts)`lookup, Linking.AllParts(concepts)`parent, Linking.AllParts(concepts)`tree
    modifies KnownSteps(d)`isConcept, KnownSteps(d)`conceptSteps, KnownSteps(d)`lookup
    modifies KnownSteps(d)`parent, KnownSteps(d)`tree
    ensures d.Valid(None) && Prepared(d)
    ensures error == Some(DuplicateDefinition) <==> !Linking.AllNew(old(d.conceptsMap.Keys), names, |names|)
    ensures count <= |names| && Linking.AllNew(old(d.conceptsMap.Keys), names, count)
    ensures if error == Some(DuplicateDefinition)
            then count < |names| && !Linking.AllNew(old(d.conceptsMap.Keys), names, count + 1)
            else count == |names|
    ensures Linking.Holds(d.conceptsMap, old(d.conceptsMap), names, concepts, count)
    ensures d.log == old(d.log) + Linking.Entries(names, AllCallees(calls), count, |old(d.log)|)
    ensures d.ConceptsUnchanged() && forall i :: 0 <= i < |concepts| ==> Linking.SameFields(concepts[i])
    ensures InsideOf(d.conceptsMap) == WithCalls(old(InsideOf(d.conceptsMap)), names, calls, count)
    ensures KnownSteps(d) <= old(KnownSteps(d)) + old(Linking.AllParts(concepts))
    ensures error != Some(DuplicateDefinition) ==>
              && g == GraphOf(d.conceptsMap) && Linking.GraphOf(d.log, g)
              && (error == Some(CircularReference) <==> exists w :: ConceptGraph.ClosedBy(g, w))
    ensures error == None ==>
              && Dictionary(d.conceptsMap, KnownSteps(d)) && Unfolds(d.conceptsMap, InsideOf(d.conceptsMap), g)
              && (AllCallsAlike(d.conceptsMap, InsideOf(d.conceptsMap)) ==> TreesReady(d.conceptsMap, KnownSteps(d)))
  {
    hide d.Valid, Prepared, Coming, Linking.AllNew, Linking.TextsOf, Linking.AllParts, InsideOf, AllCallsAlike,
      Dictionary, TreesReady, ConceptGraph.ClosedBy, GraphOf, Unfolds, Written, WithCalls, Linking.GraphOf,
      Linking.Holds, Linking.Entries;
    g := map[];
    WrittenMeans(concepts, names, calls);
    var duplicate;
    duplicate, count := BringIn(d, concepts, names, calls);
    if duplicate {
      return Some(DuplicateDefinition), count, g;
    }
    var found;
    found, g := Settle(d);
    error := if found then Some(CircularReference) else None;
  }

  /* ---------- the steps of a specification ---------- */

  /** A use has a lookup that is right, all the way down. */
  lemma {:induction false} UseAgrees(concept: Tree, args: seq<Arg>)
    requires |args| == |concept.formals| && concept.lookup.Keys <= (set name | name in concept.formals)
    requires forall k :: 0 <= k < |concept.steps| ==> Agrees(concept.steps[k])
    ensures Agrees(Use(concept, args))
  {
    hide Bind;
    assert concept.formals[..|args|] == concept.formals;
    assert concept.lookup + Bind(concept.formals, args) == Bind(concept.formals, args);
  }

  /** What the steps of a specification are once they use the dictionary. */
  ghost function InUse(steps: seq<Tree>, concepts: map<string, Tree>): (uses: seq<Tree>)
    ensures |uses| == |steps| && forall i :: 0 <= i < |steps| ==> uses[i] == Processed(steps[i], concepts)
  {
    seq(|steps|, i requires 0 <= i < |steps| => Processed(steps[i], concepts))
  }

  lemma {:induction false} ProcessedAgrees(step: Tree, concepts: map<string, Step>, trees: map<string, Tree>,
      region: set<Step>)
    requires TreesReady(concepts, region) && TreesAre(concepts, trees) && !step.isConcept
    requires step.value in concepts ==> |step.args| == |concepts[step.value].args|
    ensures Agrees(Processed(step, trees))
  {
    hide Use;
    if step.value in concepts {
      UseAgrees(concepts[step.value].tree, step.args);
    }
  }

  lemma {:induction false} UsesEnclose(region: set<Step>, added: set<Step>, done: set<Step>)
    requires Uses(region, added, done)
    ensures Region(region + added + done) && Encloses(region + added + done, region + added)
  {
  }

  lemma {:induction false} UsesAgree(plain: seq<Tree>, concepts: map<string, Step>, trees: map<string, Tree>,
      region: set<Step>)
    requires TreesReady(concepts, region) && TreesAre(concepts, trees)
    requires forall i :: 0 <= i < |plain| ==>
               && !plain[i].isConcept
               && (plain[i].value in concepts ==> |plain[i].args| == |concepts[plain[i].value].args|)
    ensures forall t :: t in InUse(plain, trees) ==> Agrees(t)
  {
    hide Agrees, Processed, TreesReady, TreesAre;
    forall i | 0 <= i < |plain| ensures Agrees(InUse(plain, trees)[i]) {
      ProcessedAgrees(plain[i], concepts, trees, region);
    }
  }

  /** From the steps of a specification to what is executed for a row: the steps use the
      dictionary and are resolved. When the lookups of the dictionary are right, the result is what
      the uses mean if, and when they mean something only if, the row has the right text for all
      cells that are shown. */
  method ResolveSpecification(steps: seq<Step>, concepts: map<string, Step>, row: Env,
                              ghost trees: map<string, Tree>, ghost region: set<Step>, ghost plain: seq<Tree>)
    returns (plans: Option<seq<Plan>>)
    requires Dictionary(concepts, region) && TreesAre(concepts, trees) && |plain| == |steps|
    requires forall i :: 0 <= i < |steps| ==>
               && steps[i] !in region && steps[i].Models() && steps[i].tree == plain[i] && steps[i].parent == null
               && plain[i].steps == [] && !plain[i].isConcept
    requires forall i, j :: 0 <= i < j < |steps| ==> steps[i] != steps[j]
    requires forall i :: 0 <= i < |steps| && steps[i].value in concepts ==>
             |steps[i].args| == |concepts[steps[i].value].args|
    modifies (set s | s in steps), region`parent
    ensures forall ps :: plans == Some(ps) <==> AllSend(InUse(plain, trees), |plain|, row, row, true, ps)
    ensures plans == ComputeAll(InUse(plain, trees), |plain|, row, row, true)
    ensures old(TreesReady(concepts, region)) ==>
              var uses := InUse(plain, trees);
              var meaning := MeaningAll(uses, |plain|, Outermost(row));
              && plans == ExpandAll(uses, |plain|, row, row)
              && (AllCells(uses, |plain|, Outermost(row), row) ==> plans == meaning)
              && (meaning.Some? && plans == meaning ==> AllCells(uses, |plain|, Outermost(row), row))
  {
    hide ExpandAll, ComputeAll, MeaningAll, AllCells, Outermost, Processed, Agrees, Uses, Region, Encloses, Dictionary,
      TreesReady, TreesAre, AllSend;
    ghost var uses := InUse(plain, trees);
    if TreesReady(concepts, region) {
      UsesAgree(plain, concepts, trees, region);
    }
    ghost var added := ProcessConceptSteps(steps, concepts, trees, region);
    ghost var done := set s | s in steps;
    UsesEnclose(region, added, done);
    plans := ResolveItems(steps, row, region + added + done, region + added, uses);
  }
}
