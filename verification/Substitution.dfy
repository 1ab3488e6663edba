/** Parameter resolution without objects: arguments are evaluated in an environment, and a
    concept evaluates its steps in the environment that binds its own parameters. */
module Substitution {
  import opened Text
  import opened Tables

  datatype ArgType = StaticArg | DynamicArg | TableArg | SpecialString | SpecialTable

  type RectGrid = g: Grid | g.Rectangular() witness Grid([], [])

  /** `table` is Some when the table of the argument is initialized. */
  datatype Arg = Arg(name: string, value: string, argType: ArgType, table: Option<RectGrid>)

  /** A table without columns has no first column whose cells could be counted. */
  predicate Convertible(arg: Arg) {
    arg.table.Some? ==> arg.table.value.headers != []
  }

  type Env = map<string, Arg>

  datatype ProtoTable = ProtoTable(headers: seq<string>, rows: seq<seq<string>>)

  datatype ParameterType = PStatic | PDynamic | PSpecialString | PSpecialTable | PTable

  datatype Parameter = Parameter(name: string, parameterType: ParameterType, value: string, table: Option<ProtoTable>)

  /** A step with its arguments. A concept also has the names of its parameters, the lookup
      it carries and the steps inside it. */
  datatype Tree = Tree(value: string, args: seq<Arg>, isConcept: bool, formals: seq<string>, lookup: Env,
      steps: seq<Tree>)

  /** A step or concept with all parameters resolved. */
  datatype Plan =
    | Leaf(value: string, parameters: seq<Parameter>)
    | Group(value: string, args: seq<Arg>, steps: seq<Plan>)

  /** The lookup that binds each formal to the argument in its position. */
  function Bind<V>(formals: seq<string>, args: seq<V>): (env: map<string, V>)
    requires |args| <= |formals|
    ensures forall name :: name in env <==> name in formals[..|args|]
  {
    if args == [] then map[]
    else
      var n := |args| - 1;
      assert formals[..n + 1] == formals[..n] + [formals[n]];
      Bind(formals, args[..n])[formals[n] := args[n]]
  }

  /** An argument in an environment; None when it names nothing there. */
  function Eval(arg: Arg, env: Env): Option<Arg> {
    if !arg.argType.DynamicArg? then Some(arg)
    else if arg.value in env then Some(env[arg.value])
    else None
  }

  function EvalAll(args: seq<Arg>, env: Env): (r: Option<seq<Arg>>)
    ensures r.Some? ==> |r.value| == |args| && forall i :: 0 <= i < |args| ==> Eval(args[i], env) == Some(r.value[i])
    ensures r.None? ==> exists i :: 0 <= i < |args| && Eval(args[i], env) == None
  {
    if args == [] then Some([])
    else
      var n := |args| - 1;
      var front, last := EvalAll(args[..n], env), Eval(args[n], env);
      if front.Some? && last.Some? then Some(front.value + [last.value]) else None
  }

  /** A cell of a table in an environment. */
  function CellText(c: Cell, row: Env): Option<string> {
    if !c.isDynamic then Some(c.value) else if c.value in row then Some(row[c.value].value) else None
  }

  function RowTexts(g: RectGrid, r: nat, row: Env, n: nat): Option<seq<string>>
    requires r < g.Height() && n <= |g.headers|
  {
    if n == 0 then Some([])
    else
      var front, last := RowTexts(g, r, row, n - 1), CellText(g.CellAt(r, n - 1), row);
      if front.Some? && last.Some? then Some(front.value + [last.value]) else None
  }

  function TableTexts(g: RectGrid, row: Env, n: nat): Option<seq<seq<string>>>
    requires n <= g.Height()
  {
    if n == 0 then Some([])
    else
      var front, last := TableTexts(g, row, n - 1), RowTexts(g, n - 1, row, |g.headers|);
      if front.Some? && last.Some? then Some(front.value + [last.value]) else None
  }

  /** `createProtoStepTable`; a table without columns has no first column to count. */
  function ToProtoTable(g: RectGrid, row: Env): Option<ProtoTable> {
    if g.headers == [] then None
    else match TableTexts(g, row, g.Height())
      case None => None
      case Some(rows) => Some(ProtoTable(g.headers, rows))
  }

  function TableParameter(name: string, kind: ParameterType, table: Option<RectGrid>, row: Env): Option<Parameter> {
    if table.None? then None
    else match ToProtoTable(table.value, row)
      case None => None
      case Some(t) => Some(Parameter(name, kind, "", Some(t)))
  }

  /** The parameter sent for an argument whose dynamic value is `env`'s. */
  function ToParameter(arg: Arg, env: Env, row: Env): Option<Parameter> {
    match arg.argType
    case StaticArg => Some(Parameter(arg.name, PStatic, arg.value, None))
    case SpecialString => Some(Parameter(arg.name, PSpecialString, arg.value, None))
    case SpecialTable => TableParameter(arg.name, PSpecialTable, arg.table, row)
    case TableArg => TableParameter(arg.name, PTable, arg.table, row)
    case DynamicArg =>
      if arg.value !in env then None
      else ResolvedParameter(env[arg.value], row)
  }

  /** A dynamic argument takes the name and value it stands for, or the table. */
  function ResolvedParameter(resolved: Arg, row: Env): Option<Parameter> {
    if resolved.table.Some? then TableParameter(resolved.name, PSpecialTable, resolved.table, row)
    else Some(Parameter(resolved.name, PDynamic, resolved.value, None))
  }

  function ToParameters(args: seq<Arg>, env: Env, row: Env): Option<seq<Parameter>> {
    if args == [] then Some([])
    else
      var n := |args| - 1;
      var front, last := ToParameters(args[..n], env, row), ToParameter(args[n], env, row);
      if front.Some? && last.Some? then Some(front.value + [last.value]) else None
  }

  /** A step in an environment. The cells of every table, also of one inside a concept, are
      looked up in the data table row. None stands for a name that is bound nowhere, where the
      program stops. */
  function Expand(t: Tree, env: Env, row: Env): Option<Plan>
    decreases t, 1
  {
    if !t.isConcept then
      match ToParameters(t.args, env, row)
      case None => None
      case Some(ps) => Some(Leaf(t.value, ps))
    else
      match EvalAll(t.args, env)
      case None => None
      case Some(actuals) =>
        if |actuals| > |t.formals| then None
        else match ExpandAll(t.steps, |t.steps|, Bind(t.formals, actuals), row)
          case None => None
          case Some(plans) => Some(Group(t.value, actuals, plans))
  }

  /** The first `n` of some steps in the same environment. */
  function ExpandAll(ts: seq<Tree>, n: nat, env: Env, row: Env): Option<seq<Plan>>
    requires n <= |ts|
    decreases ts, 0, n
  {
    if n == 0 then Some([])
    else
      var front, last := ExpandAll(ts, n - 1, env, row), Expand(ts[n - 1], env, row);
      if front.Some? && last.Some? then Some(front.value + [last.value]) else None
  }

  /** Arguments between which resolution cannot tell: of a dynamic one it reads only the name
      that the value gives. */
  predicate Alike(a: Arg, b: Arg) {
    a == b || (a.argType.DynamicArg? && b.argType.DynamicArg? && a.value == b.value)
  }

  /** Alike are exactly the arguments that evaluate to the same in every environment. */
  lemma {:induction false} AlikeIff(a: Arg, b: Arg)
    ensures Alike(a, b) <==> forall env :: Eval(a, env) == Eval(b, env)
  {
    if forall env :: Eval(a, env) == Eval(b, env) {
      assert Eval(a, map[]) == Eval(b, map[]);
      assert Eval(a, map[a.value := a]) == Eval(b, map[a.value := a]);
    }
  }

  ghost predicate AlikeEnvs(e: Env, f: Env) {
    e.Keys == f.Keys && forall name :: name in e ==> Alike(e[name], f[name])
  }

  /** Every concept in the tree carries a lookup that binds its formals to its arguments, up to
      what resolution does not read. */
  ghost predicate Agrees(t: Tree)
    decreases t
  {
    t.isConcept ==>
      && |t.formals| == |t.args|
      && AlikeEnvs(t.lookup, Bind(t.formals, t.args))
      && forall s :: s in t.steps ==> Agrees(s)
  }

  /* ---------- what the program computes from the lookups that steps carry ---------- */

  /** The values of a lookup, read in the environment around it. */
  function Through(lookup: Env, env: Env): Env {
    map name | name in lookup && Eval(lookup[name], env).Some? :: Eval(lookup[name], env).value
  }

  predicate Known(lookup: Env, env: Env) {
    forall name :: name in lookup ==> Eval(lookup[name], env).Some?
  }

  /** Like `Expand`, but the names inside a concept are those of its lookup, whatever its
      arguments are. The lookup of a concept that the specification uses, at the top, is read as
      a whole; of one inside another concept only the names that are used. */
  function Compute(t: Tree, env: Env, row: Env, top: bool): Option<Plan>
    decreases t, 1
  {
    if !t.isConcept then
      match ToParameters(t.args, env, row)
      case None => None
      case Some(ps) => Some(Leaf(t.value, ps))
    else if top && !Known(t.lookup, env) then None
    else
      match EvalAll(t.args, env)
      case None => None
      case Some(actuals) =>
        match ComputeAll(t.steps, |t.steps|, Through(t.lookup, env), row, false)
          case None => None
          case Some(plans) => Some(Group(t.value, actuals, plans))
  }

  function ComputeAll(ts: seq<Tree>, n: nat, env: Env, row: Env, top: bool): Option<seq<Plan>>
    requires n <= |ts|
    decreases ts, 0, n
  {
    if n == 0 then Some([])
    else
      var front, last := ComputeAll(ts, n - 1, env, row, top), Compute(ts[n - 1], env, row, top);
      if front.Some? && last.Some? then Some(front.value + [last.value]) else None
  }

  /** Evaluating the arguments and binding them is evaluating the bound values. */
  lemma {:induction false} BindEval(formals: seq<string>, args: seq<Arg>, env: Env, name: string)
    requires |args| <= |formals| && EvalAll(args, env).Some? && name in Bind(formals, args)
    ensures var actuals := EvalAll(args, env).value;
            name in Bind(formals, actuals) && Eval(Bind(formals, args)[name], env) == Some(Bind(formals, actuals)[name])
  {
    var n := |args| - 1;
    var actuals := EvalAll(args, env).value;
    assert actuals[..n] == EvalAll(args[..n], env).value;
    if name != formals[n] {
      BindEval(formals, args[..n], env, name);
    }
  }

  lemma {:induction false} ThroughBind(formals: seq<string>, args: seq<Arg>, env: Env)
    requires |args| <= |formals| && EvalAll(args, env).Some?
    ensures Known(Bind(formals, args), env)
    ensures Through(Bind(formals, args), env) == Bind(formals, EvalAll(args, env).value)
  {
    hide Bind, EvalAll;
    var bound, actuals := Bind(formals, args), EvalAll(args, env).value;
    forall name | name in bound
      ensures name in Bind(formals, actuals) && Eval(bound[name], env) == Some(Bind(formals, actuals)[name])
    {
      BindEval(formals, args, env, name);
    }
    assert forall name :: name in Bind(formals, actuals) ==> name in bound;
  }

  lemma {:induction false} ThroughAlike(e: Env, f: Env, env: Env)
    requires AlikeEnvs(e, f)
    ensures Through(e, env) == Through(f, env) && (Known(e, env) <==> Known(f, env))
  {
  }

  /** Two lookups give the steps inside a concept the same environment, whatever surrounds the
      concept, exactly when they are alike. */
  lemma {:induction false} AlikeEnvsIff(e: Env, f: Env)
    ensures AlikeEnvs(e, f) <==> forall env :: Through(e, env) == Through(f, env)
  {
    if AlikeEnvs(e, f) {
      forall env ensures Through(e, env) == Through(f, env) {
        ThroughAlike(e, f, env);
      }
    }
    if forall env :: Through(e, env) == Through(f, env) {
      forall name | name in e ensures name in f && Alike(e[name], f[name]) {
        ReadsAlike(e, f, name);
      }
      forall name | name in f ensures name in e {
        ReadsAlike(f, e, name);
      }
    }
  }

  lemma {:induction false} ReadsAlike(e: Env, f: Env, name: string)
    requires name in e && forall env :: Through(e, env) == Through(f, env)
    ensures name in f && Alike(e[name], f[name])
  {
    var env := map[e[name].value := e[name]];
    assert Through(e, env) == Through(f, env) && Through(e, map[]) == Through(f, map[]);
    assert name in Through(e, env) && Through(e, env)[name] == e[name];
    assert name in Through(e, map[]) <==> !e[name].argType.DynamicArg?;
    assert name in Through(f, env);
    assert name in Through(f, map[]) <==> !f[name].argType.DynamicArg?;
  }

  /** With lookups that agree the program computes the substitution. */
  lemma {:induction false} ComputeIsExpand(t: Tree, env: Env, row: Env, top: bool)
    requires Agrees(t)
    ensures Compute(t, env, row, top) == Expand(t, env, row)
    decreases t, 1
  {
    hide Bind, EvalAll, ToParameters, Through, Known, AlikeEnvs;
    if t.isConcept {
      var actuals := EvalAll(t.args, env);
      if actuals.Some? {
        ThroughBind(t.formals, t.args, env);
        ThroughAlike(t.lookup, Bind(t.formals, t.args), env);
        ComputeAllIsExpand(t.steps, |t.steps|, Bind(t.formals, actuals.value), row, false);
      }
    }
  }

  lemma {:induction false} ComputeAllIsExpand(ts: seq<Tree>, n: nat, env: Env, row: Env, top: bool)
    requires n <= |ts| && forall t :: t in ts ==> Agrees(t)
    ensures ComputeAll(ts, n, env, row, top) == ExpandAll(ts, n, env, row)
    decreases ts, 0, n
  {
    hide Compute, Expand, Agrees;
    if n > 0 {
      ComputeAllIsExpand(ts, n - 1, env, row, top);
      ComputeIsExpand(ts[n - 1], env, row, top);
    }
  }
}
