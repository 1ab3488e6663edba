/** Parameter resolution as the program does it: walking parent pointers from the innermost
    concept outwards, with the data table row at the top. */
module Resolution {
  import opened Text
  import opened Substitution
  import opened SentValues
  import opened ConceptSteps
  import opened ParameterMeaning

  /** The parents of a step, from the inside out. */
  ghost predicate ParentChain(s: Step, up: seq<Step>)
    reads s, up
    decreases |up|
  {
    && s.parent == (if up == [] then null else up[0])
    && (up != [] ==> ParentChain(up[0], up[1..]))
  }

  /** `getArg`: a value that is dynamic is looked up again in the parent. None stands for a
      name that the lookup does not have. */
  function GetArg(s: Step, name: string, ghost up: seq<Step>): Option<Arg>
    requires ParentChain(s, up)
    reads s, s.lookup, up, set u | u in up :: u.lookup
    decreases |up|
  {
    if name !in s.lookup.values then None
    else
      var arg := s.lookup.values[name];
      if !arg.argType.DynamicArg? then Some(arg)
      else if s.parent == null then Some(arg)
      else GetArg(s.parent, arg.value, up[1..])
  }

  /** Looking names up from `s` is looking them up in `env`. */
  ghost predicate Binds(s: Step, up: seq<Step>, env: Env)
    requires ParentChain(s, up)
    reads s, s.lookup, up, set u | u in up :: u.lookup
  {
    forall name :: GetArg(s, name, up) == if name in env then Some(env[name]) else None
  }

  /** The environment of the steps directly inside `up[0]`, or of the specification. */
  ghost predicate Surrounds(up: seq<Step>, env: Env, row: Env)
    reads up, set u | u in up :: u.lookup
  {
    if up == [] then env == row
    else ParentChain(up[0], up[1..]) && Binds(up[0], up[1..], env)
  }

  /** `createProtoStepTable` */
  method CreateProtoStepTable(table: RectGrid, row: Env) returns (r: Option<ProtoTable>)
    ensures forall t :: r == Some(t) <==> SendsTable(table, row, t)
    ensures r.None? <==> table.headers == [] || exists i: nat, c: nat :: Unknown(table, row, i, c)
    ensures r == ToProtoTable(table, row)
  {
    hide SendsTable, Unknown;
    TableSentIff(table, row);
    if table.headers == [] {
      return None;
    }
    var tableRows := [];
    var i := 0;
    while i < |table.columns[0]|
      invariant 0 <= i <= table.Height()
      invariant TableTexts(table, row, i) == Some(tableRows)
    {
      var texts := TableRow(table, i, row);
      i := i + 1;
      if texts.None? {
        MissingCell(table, row, i);
        return None;
      }
      tableRows := tableRows + [texts.value];
    }
    r := Some(ProtoTable(table.headers, tableRows));
  }

  lemma {:induction false} MissingCell(table: RectGrid, row: Env, i: nat)
    requires i <= table.Height() && TableTexts(table, row, i) == None
    ensures TableTexts(table, row, table.Height()) == None
    decreases table.Height() - i
  {
    if i < table.Height() {
      MissingCell(table, row, i + 1);
    }
  }

  method TableRow(table: RectGrid, i: nat, row: Env) returns (r: Option<seq<string>>)
    requires i < table.Height()
    ensures r == RowTexts(table, i, row, |table.headers|)
  {
    var texts := [];
    var c := 0;
    while c < |table.headers|
      invariant 0 <= c <= |table.headers| && RowTexts(table, i, row, c) == Some(texts)
    {
      var text := CellText(table.CellAt(i, c), row);
      c := c + 1;
      if text.None? {
        MissingText(table, i, row, c);
        return None;
      }
      texts := texts + [text.value];
    }
    r := Some(texts);
  }

  lemma {:induction false} MissingText(table: RectGrid, i: nat, row: Env, c: nat)
    requires i < table.Height() && c <= |table.headers| && RowTexts(table, i, row, c) == None
    ensures RowTexts(table, i, row, |table.headers|) == None
    decreases |table.headers| - c
  {
    if c < |table.headers| {
      MissingText(table, i, row, c + 1);
    }
  }

  /** One round of `getResolvedParams`; without a parent the names are those of the row. */
  method ResolveParameter(arg: Arg, parent: Step?, row: Env, ghost up: seq<Step>, ghost env: Env)
    returns (r: Option<Parameter>)
    requires Surrounds(up, env, row) && parent == (if up == [] then null else up[0])
    ensures r == ToParameter(arg, env, row)
  {
    match arg.argType
    case StaticArg => r := Some(Parameter(arg.name, PStatic, arg.value, None));
    case SpecialString => r := Some(Parameter(arg.name, PSpecialString, arg.value, None));
    case SpecialTable => r := TableParameterOf(arg.name, PSpecialTable, arg.table, row);
    case TableArg => r := TableParameterOf(arg.name, PTable, arg.table, row);
    case DynamicArg =>
      var resolvedArg;
      if parent != null {
        resolvedArg := GetArg(parent, arg.value, up[1..]);
      } else {
        resolvedArg := if arg.value in row then Some(row[arg.value]) else None;
      }
      if resolvedArg.None? {
        r := None;
      } else if resolvedArg.value.table.Some? {
        r := TableParameterOf(resolvedArg.value.name, PSpecialTable, resolvedArg.value.table, row);
      } else {
        r := Some(Parameter(resolvedArg.value.name, PDynamic, resolvedArg.value.value, None));
      }
  }

  method TableParameterOf(name: string, kind: ParameterType, table: Option<RectGrid>, row: Env)
      returns (r: Option<Parameter>)
    ensures r == TableParameter(name, kind, table, row)
  {
    if table.None? {
      return None;
    }
    var protoTable := CreateProtoStepTable(table.value, row);
    r := if protoTable.None? then None else Some(Parameter(name, kind, "", Some(protoTable.value)));
  }

  /** `getResolvedParams` */
  method GetResolvedParams(args: seq<Arg>, parent: Step?, row: Env, ghost up: seq<Step>, ghost env: Env)
    returns (r: Option<seq<Parameter>>)
    requires Surrounds(up, env, row) && parent == (if up == [] then null else up[0])
    ensures forall ps :: r == Some(ps) <==> SendsParameters(args, env, row, ps)
    ensures r == ToParameters(args, env, row)
  {
    hide ToParameter, Surrounds, SendsParameters;
    ParametersSentIff(args, env, row);
    var parameters := [];
    var i := 0;
    while i < |args|
      invariant 0 <= i <= |args| && ToParameters(args[..i], env, row) == Some(parameters)
    {
      assert args[..i + 1][..i] == args[..i];
      var parameter := ResolveParameter(args[i], parent, row, up, env);
      i := i + 1;
      if parameter.None? {
        MissingParameter(args, env, row, i);
        return None;
      }
      parameters := parameters + [parameter.value];
    }
    assert args[..i] == args;
    r := Some(parameters);
  }

  lemma {:induction false} MissingParameter(args: seq<Arg>, env: Env, row: Env, i: nat)
    requires i <= |args| && ToParameters(args[..i], env, row) == None
    ensures ToParameters(args, env, row) == None
    decreases |args| - i
  {
    if i < |args| {
      assert args[..i + 1][..i] == args[..i];
      MissingParameter(args, env, row, i + 1);
    } else {
      assert args[..i] == args;
    }
  }

  /* ---------- concepts ---------- */

  /** The second half of `populateConceptDynamicParams`: the shown arguments. */
  method ResolveArgs(args: seq<Arg>, parent: Step?, row: Env, ghost up: seq<Step>, ghost env: Env)
    returns (r: Option<seq<Arg>>)
    requires Surrounds(up, env, row) && parent == (if up == [] then null else up[0])
    ensures r == EvalAll(args, env)
  {
    var newArgs := [];
    var i := 0;
    while i < |args|
      invariant 0 <= i <= |args| && EvalAll(args[..i], env) == Some(newArgs)
    {
      assert args[..i + 1][..i] == args[..i];
      var arg := args[i];
      var resolved := Some(arg);
      if arg.argType.DynamicArg? {
        if parent != null {
          resolved := GetArg(parent, arg.value, up[1..]);
        } else {
          resolved := if arg.value in row then Some(row[arg.value]) else None;
        }
      }
      i := i + 1;
      if resolved.None? {
        return None;
      }
      newArgs := newArgs + [resolved.value];
    }
    assert args[..i] == args;
    r := Some(newArgs);
  }

  /** The first half: a copy of the lookup with its dynamic values taken from the row. */
  method ResolveLookup(lookup: Lookup, row: Env) returns (ok: bool, resolved: Lookup)
    requires lookup.Valid()
    ensures fresh(resolved) && resolved.Valid() && resolved.formals == lookup.formals
    ensures ok <==> forall name :: name in lookup.values ==> Eval(lookup.values[name], row).Some?
    ensures ok ==> resolved.values.Keys == lookup.values.Keys
    ensures ok ==>
            forall name :: name in lookup.values ==> Eval(lookup.values[name], row) == Some(resolved.values[name])
  {
    resolved := lookup.GetCopy();
    var rest := resolved.values.Keys;
    while rest != {}
      invariant rest <= lookup.values.Keys == resolved.values.Keys && resolved.Valid()
      invariant resolved.names == lookup.names && resolved.formals == lookup.formals && fresh(resolved)
      invariant forall name :: name in rest ==> resolved.values[name] == lookup.values[name]
      invariant forall name :: name in lookup.values && name !in rest ==>
                  Eval(lookup.values[name], row) == Some(resolved.values[name])
      decreases rest
    {
      var name :| name in rest;
      var arg := resolved.values[name];
      if arg.argType.DynamicArg? {
        if arg.value !in row {
          return false, resolved;
        }
        resolved.AddArgValue(name, row[arg.value]);
      }
      rest := rest - {name};
    }
    ok := true;
  }

  /** `populateConceptDynamicParams` on the copy of a concept. Afterwards the steps inside it
      are surrounded by the environment that its lookup gives. */
  method PopulateConceptDynamicParams(concept: Step, row: Env, ghost up: seq<Step>, ghost env: Env) returns (ok: bool)
    requires ParentChain(concept, up) && concept !in up && Surrounds(up, env, row) && concept.lookup.Valid()
    modifies concept`args, concept`lookup
    ensures ok <==> (up == [] ==> Known(old(concept.lookup.values), env)) && EvalAll(old(concept.args), env).Some?
    ensures ok ==> Some(concept.args) == EvalAll(old(concept.args), env)
    ensures ok ==> Surrounds([concept] + up, Through(old(concept.lookup.values), env), row)
  {
    ghost var values := concept.lookup.values;
    if concept.parent == null {
      var found, lookup := ResolveLookup(concept.lookup, row);
      if !found {
        return false;
      }
      concept.lookup := lookup;
    }
    assert ParentChain(concept, up) && Surrounds(up, env, row);
    var newArgs := ResolveArgs(concept.args, concept.parent, row, up, env);
    if newArgs.None? {
      return false;
    }
    concept.args := newArgs.value;
    assert ParentChain(concept, up) && Surrounds(up, env, row);
    if up == [] {
      TopBinds(concept, values, row);
    } else {
      NestedBinds(concept, up, env, row);
    }
    assert ([concept] + up)[1..] == up;
    ok := true;
  }

  lemma {:induction false} TopBinds(concept: Step, lookup: Env, row: Env)
    requires ParentChain(concept, []) && Known(lookup, row) && concept.lookup.values.Keys == lookup.Keys
    requires forall name :: name in lookup ==> Eval(lookup[name], row) == Some(concept.lookup.values[name])
    ensures Binds(concept, [], Through(lookup, row))
  {
    var inner := Through(lookup, row);
    forall name ensures GetArg(concept, name, []) == if name in inner then Some(inner[name]) else None {
    }
  }

  lemma {:induction false} NestedBinds(concept: Step, up: seq<Step>, env: Env, row: Env)
    requires ParentChain(concept, up) && up != [] && Surrounds(up, env, row)
    ensures Binds(concept, up, Through(concept.lookup.values, env))
  {
    var inner := Through(concept.lookup.values, env);
    forall name ensures GetArg(concept, name, up) == if name in inner then Some(inner[name]) else None {
    }
  }

  /** Every step that some concept of the region contains is in `inside`. */
  ghost predicate Encloses(region: set<Step>, inside: set<Step>)
    reads region
  {
    inside <= region && forall t, c :: t in region && c in t.conceptSteps ==> c in inside
  }

  /** `resolveToProtoConceptItem`: works on a copy of the concept, and hands the copy to the
      concepts inside as their parent. The result is computed from the lookups of the concepts,
      also where it stops; nothing but parent pointers changes. */
  method ResolveConcept(original: Step, row: Env, ghost region: set<Step>, ghost inside: set<Step>, ghost up: seq<Step>,
      ghost env: Env)
    returns (plan: Option<Plan>)
    requires Region(region) && Encloses(region, inside) && original in region && original.isConcept
    requires ParentChain(original, up) && Surrounds(up, env, row) && (forall u :: u in up ==> u !in region)
    modifies inside`parent
    ensures Region(region) && Encloses(region, inside)
    ensures plan == Compute(original.tree, env, row, up == [])
    decreases original.tree, 1
  {
    hide EvalAll, Surrounds, Through, Known;
    var concept := new Step(original.value, original.args, true, original.lookup, original.conceptSteps,
      original.parent);
    assert ParentChain(concept, up) by { SameParent(original, concept, up); }
    var ok := PopulateConceptDynamicParams(concept, row, up, env);
    if !ok {
      return None;
    }
    ghost var inner := Through(original.tree.lookup, env);
    var plans := ResolveSteps(original, concept, row, region, inside, up, inner);
    plan := if plans.None? then None else Some(Group(concept.value, concept.args, plans.value));
  }

  lemma {:induction false} SameParent(s: Step, t: Step, up: seq<Step>)
    requires ParentChain(s, up) && s.parent == t.parent
    ensures ParentChain(t, up)
  {
  }

  method ResolveSteps(original: Step, concept: Step, row: Env, ghost region: set<Step>, ghost inside: set<Step>,
      ghost up: seq<Step>, ghost inner: Env)
    returns (plans: Option<seq<Plan>>)
    requires Region(region) && Encloses(region, inside) && original in region && original.isConcept
    requires concept !in region && (forall u :: u in up ==> u !in region)
    requires Surrounds([concept] + up, inner, row)
    requires concept.conceptSteps == original.conceptSteps
    modifies inside`parent
    ensures Region(region) && Encloses(region, inside)
    ensures plans == ComputeAll(original.tree.steps, |original.tree.steps|, inner, row, false)
    decreases original.tree, 0
  {
    hide Compute, ToParameters;
    ghost var steps := original.tree.steps;
    ghost var around := [concept] + up;
    var done := [];
    var i := 0;
    while i < |concept.conceptSteps|
      invariant 0 <= i <= |concept.conceptSteps| == |steps| && Region(region) && Encloses(region, inside)
      invariant Surrounds(around, inner, row)
      invariant ComputeAll(steps, i, inner, row, false) == Some(done)
    {
      var step := concept.conceptSteps[i];
      assert original.Models() && step.tree == steps[i] && step in region;
      var plan := ResolveInside(step, concept, row, region, inside, around, inner);
      i := i + 1;
      if plan.None? {
        MissingPlan(steps, inner, row, false, i);
        return None;
      }
      done := done + [plan.value];
    }
    plans := Some(done);
  }

  /** One step inside a concept. */
  method ResolveInside(step: Step, concept: Step, row: Env, ghost region: set<Step>, ghost inside: set<Step>,
      ghost around: seq<Step>, ghost inner: Env)
    returns (plan: Option<Plan>)
    requires Region(region) && Encloses(region, inside) && step in region
    requires around != [] && around[0] == concept && (forall u :: u in around ==> u !in region)
    requires Surrounds(around, inner, row) && step in inside
    modifies inside`parent
    ensures Region(region) && Encloses(region, inside)
    ensures Surrounds(around, inner, row)
    ensures plan == Compute(step.tree, inner, row, false)
    decreases step.tree, 2
  {
    hide EvalAll, ToParameters, Through;
    assert step.Models();
    if step.isConcept {
      label before:
      step.parent := concept;
      OnlyParentsChanged@before(region);
      plan := ResolveConcept(step, row, region, inside, around, inner);
    } else {
      var parameters := GetResolvedParams(step.args, concept, row, around, inner);
      plan := if parameters.None? then None else Some(Leaf(step.value, parameters.value));
    }
  }

  lemma {:induction false} MissingPlan(ts: seq<Tree>, env: Env, row: Env, top: bool, i: nat)
    requires i <= |ts| && ComputeAll(ts, i, env, row, top) == None
    ensures ComputeAll(ts, |ts|, env, row, top) == None
    decreases |ts| - i
  {
    if i < |ts| {
      MissingPlan(ts, env, row, top, i + 1);
    }
  }

  /** `resolveItems` for the steps of a specification and one data table row. The result
      depends on the steps and the row only, so it is the same whatever rows and uses of the
      same concepts were resolved before. With lookups that agree it is the substitution, and
      then it is what the steps mean if and, when they mean something, only if the row has the
      right text for all cells that are shown. */
  method ResolveItems(steps: seq<Step>, row: Env, ghost region: set<Step>, ghost inside: set<Step>,
      ghost trees: seq<Tree>)
    returns (plans: Option<seq<Plan>>)
    requires Region(region) && Encloses(region, inside) && |trees| == |steps|
    requires forall i :: 0 <= i < |steps| ==> steps[i] in region && steps[i].tree == trees[i]
    requires forall s :: s in steps ==> s.parent == null && s !in inside
    modifies inside`parent
    ensures Region(region) && Encloses(region, inside) && (forall s :: s in steps ==> s.parent == null)
    ensures forall ps :: plans == Some(ps) <==> AllSend(trees, |trees|, row, row, true, ps)
    ensures plans == ComputeAll(trees, |trees|, row, row, true)
    ensures (forall t :: t in trees ==> Agrees(t)) ==>
              var meaning := MeaningAll(trees, |trees|, Outermost(row));
              && plans == ExpandAll(trees, |trees|, row, row)
              && (AllCells(trees, |trees|, Outermost(row), row) ==> plans == meaning)
              && (meaning.Some? && plans == meaning ==> AllCells(trees, |trees|, Outermost(row), row))
  {
    hide Compute, Expand, ExpandAll, Agrees, MeaningAll, AllCells, Outermost, Region, Encloses, AllSend;
    AllComputedIff(trees, |trees|, row, row, true);
    if forall t :: t in trees ==> Agrees(t) {
      ComputeAllIsExpand(trees, |trees|, row, row, true);
      ExpandAllIff(trees, |trees|, Outermost(row), row);
    }
    var done := [];
    var i := 0;
    while i < |steps|
      invariant 0 <= i <= |steps| && Region(region) && Encloses(region, inside)
      invariant forall s :: s in steps ==> s.parent == null
      invariant ComputeAll(trees, i, row, row, true) == Some(done)
    {
      assert steps[i] in steps;
      var plan := ResolveItem(steps[i], row, region, inside);
      i := i + 1;
      if plan.None? {
        MissingPlan(trees, row, row, true, i);
        return None;
      }
      done := done + [plan.value];
    }
    plans := Some(done);
  }

  /** `resolveToProtoItem` */
  method ResolveItem(step: Step, row: Env, ghost region: set<Step>, ghost inside: set<Step>)
      returns (plan: Option<Plan>)
    requires Region(region) && Encloses(region, inside) && step in region && step.parent == null
    modifies inside`parent
    ensures Region(region) && Encloses(region, inside)
    ensures plan == Compute(step.tree, row, row, true)
  {
    hide EvalAll, ToParameters, Through;
    assert step.Models();
    if step.isConcept {
      plan := ResolveConcept(step, row, region, inside, [], row);
    } else {
      var parameters := GetResolvedParams(step.args, null, row, [], row);
      plan := if parameters.None? then None else Some(Leaf(step.value, parameters.value));
    }
  }
}
