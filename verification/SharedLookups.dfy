/** The lookups of nested concepts: every call of a concept writes into the one lookup that all
    of its calls share. */
module SharedLookups {
  import opened Text
  import opened Tables
  import opened Substitution
  import opened ConceptSteps

  /** A step inside a concept with its arguments. */
  datatype NestedCall = NestedCall(callee: string, args: seq<Arg>)

  /** What is kept of an argument: its name and its table are lost. */
  function Strip(arg: Arg): Arg {
    Arg("", arg.value, arg.argType, None)
  }

  function StripAll(args: seq<Arg>): (stripped: seq<Arg>)
    ensures |stripped| == |args| && forall i :: 0 <= i < |args| ==> stripped[i] == Strip(args[i])
  {
    seq(|args|, i requires 0 <= i < |args| => Strip(args[i]))
  }

  /** After a call each parameter has the value and the kind of the argument in its place, and
      neither its name nor its table. */
  lemma {:induction false} StoredArgument(formals: seq<string>, args: seq<Arg>, i: nat)
    requires |args| == |formals| && i < |args| && Distinct(formals)
    ensures formals[i] in Bind(formals, StripAll(args))
    ensures var stored := Bind(formals, StripAll(args))[formals[i]];
            && stored.value == args[i].value && stored.argType == args[i].argType
            && stored.name == "" && stored.table.None?
  {
    BoundAt(formals, StripAll(args), i);
  }

  /** All calls in the order in which the concepts are visited. */
  function CallList(inside: map<string, seq<NestedCall>>, order: seq<string>): seq<NestedCall>
    requires forall name :: name in order ==> name in inside
  {
    if order == [] then []
    else CallList(inside, order[..|order| - 1]) + inside[order[|order| - 1]]
  }

  /** Calls of a concept have as many arguments as it has parameters. */
  ghost predicate Fitting(calls: seq<NestedCall>, callee: string, n: nat) {
    forall k :: 0 <= k < |calls| && calls[k].callee == callee ==> |calls[k].args| == n
  }

  /** The lookup of a concept after some calls. */
  ghost function After(calls: seq<NestedCall>, callee: string, formals: seq<string>, initial: Env): Env
    requires Fitting(calls, callee, |formals|)
  {
    if calls == [] then initial
    else
      var before := After(calls[..|calls| - 1], callee, formals, initial);
      var last := calls[|calls| - 1];
      if last.callee == callee then before + Bind(formals, StripAll(last.args)) else before
  }

  lemma {:induction false} BindIndex(formals: seq<string>, args: seq<Arg>, name: string)
    requires |args| <= |formals| && name in Bind(formals, args)
    ensures exists i :: 0 <= i < |args| && formals[i] == name && Bind(formals, args)[name] == args[i]
    ensures Bind(formals, StripAll(args))[name] == Strip(Bind(formals, args)[name])
  {
    var n := |args| - 1;
    assert StripAll(args)[..n] == StripAll(args[..n]);
    if formals[n] != name {
      BindIndex(formals, args[..n], name);
    }
  }

  /** What an argument loses is never read: it is dynamic, or it has neither a name nor a table. */
  predicate Kept(arg: Arg) {
    arg.argType.DynamicArg? || (arg.name == "" && arg.table == None)
  }

  /** What is stored for an argument resolves like the argument exactly when nothing is lost. */
  lemma {:induction false} KeptIff(arg: Arg)
    ensures Kept(arg) <==> forall env :: Eval(Strip(arg), env) == Eval(arg, env)
  {
    AlikeIff(Strip(arg), arg);
  }

  /** If what one call stored is right for another call, the other one would store the same. */
  lemma {:induction false} StoredAlike(formals: seq<string>, args: seq<Arg>, others: seq<Arg>)
    requires |args| == |others| == |formals| && AlikeEnvs(Bind(formals, StripAll(args)), Bind(formals, others))
    ensures AlikeEnvs(Bind(formals, StripAll(others)), Bind(formals, StripAll(args)))
  {
    hide Bind, StripAll;
    forall name | name in Bind(formals, others)
      ensures Alike(Bind(formals, StripAll(others))[name], Bind(formals, StripAll(args))[name])
    {
      BindIndex(formals, args, name);
      BindIndex(formals, others, name);
    }
  }

  ghost predicate Calls(calls: seq<NestedCall>, callee: string, k: int) {
    0 <= k < |calls| && calls[k].callee == callee
  }

  /** The last call wins. */
  lemma {:induction false} LastCallWins(
      calls: seq<NestedCall>, callee: string, formals: seq<string>, initial: Env, k: nat)
    requires initial.Keys <= (set name | name in formals)
    requires Fitting(calls, callee, |formals|)
    requires Calls(calls, callee, k) && forall j :: k < j < |calls| ==> calls[j].callee != callee
    ensures After(calls, callee, formals, initial) == Bind(formals, StripAll(calls[k].args))
  {
    hide Bind;
    var n := |calls| - 1;
    assert formals[..|formals|] == formals;
    if k < n {
      LastCallWins(calls[..n], callee, formals, initial, k);
    } else {
      KeysAfter(calls[..n], callee, formals, initial);
    }
  }

  lemma {:induction false} KeysAfter(calls: seq<NestedCall>, callee: string, formals: seq<string>, initial: Env)
    requires initial.Keys <= (set name | name in formals)
    requires Fitting(calls, callee, |formals|)
    ensures After(calls, callee, formals, initial).Keys <= (set name | name in formals)
  {
    hide Bind;
    if calls != [] {
      var n := |calls| - 1;
        KeysAfter(calls[..n], callee, formals, initial);
      assert formals[..|formals|] == formals;
    }
  }

  lemma {:induction false} LastCall(calls: seq<NestedCall>, callee: string, k: nat) returns (last: nat)
    requires Calls(calls, callee, k)
    ensures Calls(calls, callee, last) && forall j :: last < j < |calls| ==> calls[j].callee != callee
    decreases |calls| - k
  {
    if j :| k < j < |calls| && calls[j].callee == callee {
      last := LastCall(calls, callee, j);
    } else {
      last := k;
    }
  }

  /** The shared lookup is right for every call exactly when what any call stores is right for
      every other one. The order of the calls does not matter for that. */
  lemma {:induction false} EveryCallAgreesIff(
      calls: seq<NestedCall>, callee: string, formals: seq<string>, initial: Env)
    requires initial.Keys <= (set name | name in formals)
    requires Fitting(calls, callee, |formals|)
    ensures (forall k :: Calls(calls, callee, k) ==>
               AlikeEnvs(After(calls, callee, formals, initial), Bind(formals, calls[k].args))) <==>
            (forall j, k :: Calls(calls, callee, j) && Calls(calls, callee, k) ==>
               AlikeEnvs(Bind(formals, StripAll(calls[j].args)), Bind(formals, calls[k].args)))
  {
    hide Bind, After, StripAll;
    var final := After(calls, callee, formals, initial);
    if forall k :: Calls(calls, callee, k) ==> AlikeEnvs(final, Bind(formals, calls[k].args)) {
      forall j, k | Calls(calls, callee, j) && Calls(calls, callee, k)
        ensures AlikeEnvs(Bind(formals, StripAll(calls[j].args)), Bind(formals, calls[k].args))
      {
        var last := LastCall(calls, callee, j);
        LastCallWins(calls, callee, formals, initial, last);
        StoredAlike(formals, calls[last].args, calls[j].args);
      }
    }
    if forall j, k :: Calls(calls, callee, j) && Calls(calls, callee, k) ==>
         AlikeEnvs(Bind(formals, StripAll(calls[j].args)), Bind(formals, calls[k].args)) {
      forall k | Calls(calls, callee, k)
        ensures AlikeEnvs(final, Bind(formals, calls[k].args))
      {
        var last := LastCall(calls, callee, k);
        LastCallWins(calls, callee, formals, initial, last);
      }
    }
  }

  lemma {:induction false} BoundAt(formals: seq<string>, args: seq<Arg>, i: nat)
    requires |args| <= |formals| && i < |args| && Distinct(formals)
    ensures formals[i] in Bind(formals, args) && Bind(formals, args)[formals[i]] == args[i]
  {
    if i < |args| - 1 {
      BoundAt(formals, args[..|args| - 1], i);
    }
  }

  lemma {:induction false} AlikeInEveryPlace(formals: seq<string>, args: seq<Arg>, others: seq<Arg>)
    requires |args| == |others| == |formals| && Distinct(formals)
    ensures AlikeEnvs(Bind(formals, args), Bind(formals, others)) <==>
            forall i :: 0 <= i < |args| ==> Alike(args[i], others[i])
  {
    hide Bind, Distinct;
    forall i | 0 <= i < |args|
      ensures formals[i] in Bind(formals, args) && Bind(formals, args)[formals[i]] == args[i]
      ensures Bind(formals, others)[formals[i]] == others[i]
    {
      BoundAt(formals, args, i);
      BoundAt(formals, others, i);
    }
    forall name | name in Bind(formals, args) ensures exists i :: 0 <= i < |args| && formals[i] == name {
      BindIndex(formals, args, name);
    }
  }

  /** The same for each argument, when the parameters have different names: nothing that a call
      passes is lost, and all calls pass the same. */
  lemma {:induction false} EveryArgumentAgreesIff(
      calls: seq<NestedCall>, callee: string, formals: seq<string>, initial: Env)
    requires initial.Keys <= (set name | name in formals) && Distinct(formals)
    requires Fitting(calls, callee, |formals|)
    ensures (forall k :: Calls(calls, callee, k) ==>
               AlikeEnvs(After(calls, callee, formals, initial), Bind(formals, calls[k].args))) <==>
            forall j, k, i :: Calls(calls, callee, j) && Calls(calls, callee, k) && 0 <= i < |formals| ==>
              Kept(calls[k].args[i]) && Alike(calls[j].args[i], calls[k].args[i])
  {
    hide Bind, After, StripAll, Distinct;
    EveryCallAgreesIff(calls, callee, formals, initial);
    forall j, k | Calls(calls, callee, j) && Calls(calls, callee, k)
      ensures AlikeEnvs(Bind(formals, StripAll(calls[j].args)), Bind(formals, calls[k].args)) <==>
              forall i :: 0 <= i < |formals| ==> Alike(Strip(calls[j].args[i]), calls[k].args[i])
    {
      AlikeInEveryPlace(formals, StripAll(calls[j].args), calls[k].args);
    }
  }

  /** The values of one call go into the lookup of the concept it names. */
  method WriteCall(lookup: Lookup, conceptArgs: seq<Arg>, stepArgs: seq<Arg>)
    requires |stepArgs| == |conceptArgs| && lookup.Valid() && lookup.formals == Values(conceptArgs)
    modifies lookup
    ensures lookup.Valid()
    ensures lookup.values == old(lookup.values) + Bind(Values(conceptArgs), StripAll(stepArgs))
  {
    hide Bind, StripAll, Values;
    var i := 0;
    ghost var formals, stripped := Values(conceptArgs), StripAll(stepArgs);
    BindNothing(formals);
    while i < |conceptArgs|
      invariant 0 <= i <= |conceptArgs| && lookup.Valid()
      invariant lookup.values == old(lookup.values) + Bind(formals, stripped[..i])
    {
      BindNext(formals, stripped, i);
      lookup.AddArgValue(conceptArgs[i].value, Arg("", stepArgs[i].value, stepArgs[i].argType, None));
      i := i + 1;
    }
    assert stripped[..i] == stripped;
  }

  /** The concepts as they stand when the lookups are filled: each has a lookup of its own, and
      every step that names a concept has an argument for each of its parameters. `inside` has
      the steps of each concept as values. */
  ghost predicate Ready(concepts: map<string, Step>, inside: map<string, seq<NestedCall>>)
    reads concepts.Values, set name | name in concepts :: concepts[name].lookup
    reads set name, s | name in concepts && s in concepts[name].conceptSteps :: s
  {
    && inside.Keys == concepts.Keys
    && (forall name :: name in concepts ==>
          && concepts[name].lookup.Valid() && concepts[name].lookup.formals == Values(concepts[name].args)
          && |inside[name]| == |concepts[name].conceptSteps|)
    && (forall a, b :: a in concepts && b in concepts && a != b ==> concepts[a].lookup != concepts[b].lookup)
    && forall name, k :: name in concepts && 0 <= k < |inside[name]| ==>
         var step := concepts[name].conceptSteps[k];
         && step in concepts[name].conceptSteps && inside[name][k] == NestedCall(step.value, step.args)
         && (step.value in concepts ==> |step.args| == |concepts[step.value].args|)
  }

  lemma {:induction false} OneMoreCall(calls: seq<NestedCall>, call: NestedCall, callee: string, formals: seq<string>,
      initial: Env)
    requires Fitting(calls, callee, |formals|) && (call.callee == callee ==> |call.args| == |formals|)
    ensures Fitting(calls + [call], callee, |formals|)
    ensures After(calls + [call], callee, formals, initial) ==
            if call.callee == callee then After(calls, callee, formals, initial) + Bind(formals, StripAll(call.args))
            else After(calls, callee, formals, initial)
  {
    assert (calls + [call])[..|calls|] == calls;
  }

  /** The lookups are those after the calls `done`. */
  ghost predicate Holds(lookups: map<string, Lookup>, initial: map<string, Env>, done: seq<NestedCall>)
    reads lookups.Values
  {
    && lookups.Keys == initial.Keys
    && forall name :: name in lookups ==>
         && lookups[name].Valid() && Fitting(done, name, |lookups[name].formals|)
         && lookups[name].values == After(done, name, lookups[name].formals, initial[name])
  }

  /** One step inside a concept. */
  method VisitStep(concept: Step, step: Step, concepts: map<string, Step>, ghost lookups: map<string, Lookup>,
                   ghost initial: map<string, Env>, ghost done: seq<NestedCall>)
    requires Holds(lookups, initial, done) && lookups.Keys == concepts.Keys
    requires forall a, b :: a in lookups && b in lookups && a != b ==> lookups[a] != lookups[b]
    requires step.value in concepts ==>
               && lookups[step.value] == concepts[step.value].lookup
               && lookups[step.value].formals == Values(concepts[step.value].args)
               && |step.args| == |concepts[step.value].args|
    modifies step`parent, lookups.Values
    ensures step.parent == concept
    ensures Holds(lookups, initial, done + [NestedCall(step.value, step.args)])
  {
    hide After, Bind, StripAll, Values, Fitting;
    ghost var call := NestedCall(step.value, step.args);
    step.parent := concept;
    forall name | name in lookups && (name == step.value ==> |step.args| == |lookups[name].formals|)
      ensures Fitting(done + [call], name, |lookups[name].formals|)
      ensures After(done + [call], name, lookups[name].formals, initial[name]) ==
              if step.value == name
              then After(done, name, lookups[name].formals, initial[name]) +
                Bind(lookups[name].formals, StripAll(step.args))
              else After(done, name, lookups[name].formals, initial[name])
    {
      OneMoreCall(done, call, name, lookups[name].formals, initial[name]);
    }
    if step.value in concepts {
      var nestedConcept := concepts[step.value];
      assert lookups[step.value] in lookups.Values;
      WriteCall(nestedConcept.lookup, nestedConcept.args, step.args);
    }
  }

  /** All steps inside one concept. */
  method VisitConcept(concept: Step, concepts: map<string, Step>, ghost calls: seq<NestedCall>,
                      ghost lookups: map<string, Lookup>, ghost initial: map<string, Env>, ghost done: seq<NestedCall>)
    requires Holds(lookups, initial, done) && lookups.Keys == concepts.Keys
    requires forall a, b :: a in lookups && b in lookups && a != b ==> lookups[a] != lookups[b]
    requires forall name :: name in concepts ==>
               lookups[name] == concepts[name].lookup && lookups[name].formals == Values(concepts[name].args)
    requires |calls| == |concept.conceptSteps|
    requires forall k :: 0 <= k < |calls| ==>
               && calls[k] == NestedCall(concept.conceptSteps[k].value, concept.conceptSteps[k].args)
               && (calls[k].callee in concepts ==> |calls[k].args| == |concepts[calls[k].callee].args|)
    modifies (set s | s in concept.conceptSteps)`parent, lookups.Values
    ensures forall s :: s in concept.conceptSteps ==> s.parent == concept
    ensures Holds(lookups, initial, done + calls)
  {
    hide Holds, Values;
    assert done + calls[..0] == done;
    for k := 0 to |concept.conceptSteps|
      invariant Holds(lookups, initial, done + calls[..k])
      invariant forall j :: 0 <= j < k ==> concept.conceptSteps[j].parent == concept
    {
      VisitStep(concept, concept.conceptSteps[k], concepts, lookups, initial, done + calls[..k]);
      assert done + calls[..k + 1] == done + calls[..k] + [calls[k]];
    }
    assert calls[..|calls|] == calls;
  }

  lemma {:induction false} NothingHeld(lookups: map<string, Lookup>, initial: map<string, Env>)
    requires lookups.Keys == initial.Keys
    requires forall name :: name in lookups ==> lookups[name].Valid() && lookups[name].values == initial[name]
    ensures Holds(lookups, initial, [])
  {
  }

  lemma {:induction false} NextConcept(inside: map<string, seq<NestedCall>>, order: seq<string>, i: nat)
    requires i < |order| && forall name :: name in order ==> name in inside
    ensures (forall name :: name in order[..i + 1] ==> name in inside) && order[..i + 1][..i] == order[..i]
    ensures CallList(inside, order[..i + 1]) == CallList(inside, order[..i]) + inside[order[i]]
  {
    assert order[..i + 1][..i] == order[..i];
  }

  /** `updateLookupForNestedConcepts`, whatever the order in which the map yields the concepts. */
  method UpdateLookupForNestedConcepts(
      concepts: map<string, Step>, order: seq<string>, ghost inside: map<string, seq<NestedCall>>,
      ghost lookups: map<string, Lookup>, ghost initial: map<string, Env>, ghost steps: set<Step>)
    requires Ready(concepts, inside) && forall name :: name in order ==> name in concepts
    requires lookups.Keys == concepts.Keys == initial.Keys
    requires forall name :: name in concepts ==>
               lookups[name] == concepts[name].lookup && initial[name] == lookups[name].values
    requires forall name, s :: name in concepts && s in concepts[name].conceptSteps ==> s in steps
    modifies steps`parent, lookups.Values
    ensures Holds(lookups, initial, CallList(inside, order))
  {
    hide Holds, Values, CallList;
    NothingHeld(lookups, initial);
    NoneVisited(inside);
    ghost var done := [];
    for i := 0 to |order|
      invariant done == CallList(inside, order[..i]) && Holds(lookups, initial, done)
    {
      NextConcept(inside, order, i);
      assert order[i] in order;
      VisitConcept(concepts[order[i]], concepts, inside[order[i]], lookups, initial, done);
      done := done + inside[order[i]];
    }
    assert order[..|order|] == order;
  }

  lemma {:induction false} NoneVisited(inside: map<string, seq<NestedCall>>)
    ensures CallList(inside, []) == []
  {
  }

  /** Afterwards the lookup that a concept shares with its linked steps binds the arguments of
      each of these steps exactly when what each of them stores is right for all of them. */
  lemma {:induction false} NestedLookupsAgreeIff(
      lookups: map<string, Lookup>, initial: map<string, Env>, done: seq<NestedCall>, callee: string)
    requires Holds(lookups, initial, done) && callee in lookups
    requires initial[callee].Keys <= (set name | name in lookups[callee].formals)
    ensures var formals := lookups[callee].formals;
            (forall k :: Calls(done, callee, k) ==> AlikeEnvs(lookups[callee].values, Bind(formals, done[k].args))) <==>
            (forall j, k :: Calls(done, callee, j) && Calls(done, callee, k) ==>
               AlikeEnvs(Bind(formals, StripAll(done[j].args)), Bind(formals, done[k].args)))
  {
    hide Bind, After, StripAll;
    EveryCallAgreesIff(done, callee, lookups[callee].formals, initial[callee]);
  }
}
