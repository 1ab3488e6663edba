/** What parameters mean: every name, also one in the cell of a table, is looked up where it is
    written. Against this stands what the program computes, where the cells of every table are
    looked up in the data table row. */
module ParameterMeaning {
  import opened Text
  import opened Tables
  import opened Substitution

  /** A value and the scope in which it was written. */
  datatype Bound = Bound(arg: Arg, home: map<string, Bound>)

  type Scope = map<string, Bound>

  function Plain(scope: Scope): Env {
    map name | name in scope :: scope[name].arg
  }

  /** The scope of the steps of a specification: one row of its data table. */
  function Outermost(row: Env): (scope: Scope)
    ensures Plain(scope) == row
  {
    map name | name in row :: Bound(row[name], map[])
  }

  function Look(arg: Arg, scope: Scope): Option<Bound> {
    if !arg.argType.DynamicArg? then Some(Bound(arg, scope))
    else if arg.value in scope then Some(scope[arg.value])
    else None
  }

  function LookAll(args: seq<Arg>, scope: Scope): (r: Option<seq<Bound>>)
    ensures r.Some? ==> |r.value| == |args|
  {
    if args == [] then Some([])
    else
      var n := |args| - 1;
      var front, last := LookAll(args[..n], scope), Look(args[n], scope);
      if front.Some? && last.Some? then Some(front.value + [last.value]) else None
  }

  function Arguments(bounds: seq<Bound>): (args: seq<Arg>)
    ensures |args| == |bounds|
  {
    seq(|bounds|, i requires 0 <= i < |bounds| => bounds[i].arg)
  }

  function MeantParameter(arg: Arg, scope: Scope): Option<Parameter> {
    match arg.argType
    case StaticArg => Some(Parameter(arg.name, PStatic, arg.value, None))
    case SpecialString => Some(Parameter(arg.name, PSpecialString, arg.value, None))
    case SpecialTable => TableParameter(arg.name, PSpecialTable, arg.table, Plain(scope))
    case TableArg => TableParameter(arg.name, PTable, arg.table, Plain(scope))
    case DynamicArg =>
      if arg.value !in scope then None
      else ResolvedParameter(scope[arg.value].arg, Plain(scope[arg.value].home))
  }

  function MeantParameters(args: seq<Arg>, scope: Scope): Option<seq<Parameter>> {
    if args == [] then Some([])
    else
      var n := |args| - 1;
      var front, last := MeantParameters(args[..n], scope), MeantParameter(args[n], scope);
      if front.Some? && last.Some? then Some(front.value + [last.value]) else None
  }

  /** The reference semantics. None stands for a name that is bound nowhere. */
  function Meaning(t: Tree, scope: Scope): Option<Plan>
    decreases t, 1
  {
    if !t.isConcept then
      match MeantParameters(t.args, scope)
      case None => None
      case Some(ps) => Some(Leaf(t.value, ps))
    else
      match LookAll(t.args, scope)
      case None => None
      case Some(actuals) =>
        if |actuals| > |t.formals| then None
        else match MeaningAll(t.steps, |t.steps|, Bind(t.formals, actuals))
          case None => None
          case Some(plans) => Some(Group(t.value, Arguments(actuals), plans))
  }

  /** The first `n` of some steps in the same scope. */
  function MeaningAll(ts: seq<Tree>, n: nat, scope: Scope): Option<seq<Plan>>
    requires n <= |ts|
    decreases ts, 0, n
  {
    if n == 0 then Some([])
    else
      var front, last := MeaningAll(ts, n - 1, scope), Meaning(ts[n - 1], scope);
      if front.Some? && last.Some? then Some(front.value + [last.value]) else None
  }

  /* ---------- where the data table row stands for the right scope ---------- */

  /** A name has the same text in both, or is in neither. */
  predicate SameText(name: string, home: Env, row: Env) {
    (name in home <==> name in row) && (name in home ==> home[name].value == row[name].value)
  }

  /** The dynamic cells of a table have the same text in its own scope and in the row. */
  ghost predicate SameCells(g: RectGrid, home: Env, row: Env) {
    forall r, c :: 0 <= r < g.Height() && 0 <= c < |g.headers| && g.CellAt(r, c).isDynamic ==>
      SameText(g.CellAt(r, c).value, home, row)
  }

  ghost predicate SameCellsOf(arg: Arg, home: Env, row: Env) {
    arg.table.Some? ==> SameCells(arg.table.value, home, row)
  }

  /** The tables that a parameter of a step shows have such cells. */
  ghost predicate ParameterCells(arg: Arg, scope: Scope, row: Env) {
    match arg.argType
    case StaticArg => true
    case SpecialString => true
    case DynamicArg =>
      arg.value in scope ==> SameCellsOf(scope[arg.value].arg, Plain(scope[arg.value].home), row)
    case _ => SameCellsOf(arg, Plain(scope), row)
  }

  /** All tables shown in a tree have such cells. */
  ghost predicate Cells(t: Tree, scope: Scope, row: Env)
    decreases t, 1
  {
    if !t.isConcept then forall i :: 0 <= i < |t.args| ==> ParameterCells(t.args[i], scope, row)
    else
      var actuals := LookAll(t.args, scope);
      actuals.Some? && |actuals.value| <= |t.formals| ==>
        AllCells(t.steps, |t.steps|, Bind(t.formals, actuals.value), row)
  }

  ghost predicate AllCells(ts: seq<Tree>, n: nat, scope: Scope, row: Env)
    requires n <= |ts|
    decreases ts, 0, n
  {
    n > 0 ==> AllCells(ts, n - 1, scope, row) && Cells(ts[n - 1], scope, row)
  }

  lemma {:induction false} JustOne<T>(x: T)
    ensures [] + [x] == [x] && [x][..0] == []
  {
  }

  lemma {:induction false} LastOf<T>(a: seq<T>, x: T, b: seq<T>, y: T)
    ensures a + [x] == b + [y] <==> a == b && x == y
  {
    if a + [x] == b + [y] {
      assert (a + [x])[..|a|] == a && (b + [y])[..|b|] == b;
      assert (a + [x])[|a|] == x && (b + [y])[|b|] == y;
    }
  }

  /** Lists with one more entry, where each part may be missing. */
  lemma {:induction false} NextOf<T>(a: Option<seq<T>>, x: Option<T>, b: Option<seq<T>>, y: Option<T>)
    ensures a.Some? && x.Some? && b.Some? && y.Some? ==>
              (a.value + [x.value] == b.value + [y.value] <==> a == b && x == y)
  {
    if a.Some? && x.Some? && b.Some? && y.Some? {
      LastOf(a.value, x.value, b.value, y.value);
    }
  }

  lemma {:induction false} RowIff(g: RectGrid, r: nat, home: Env, row: Env, n: nat)
    requires r < g.Height() && n <= |g.headers|
    ensures (forall c :: 0 <= c < n && g.CellAt(r, c).isDynamic ==> SameText(g.CellAt(r, c).value, home, row)) ==>
              RowTexts(g, r, home, n) == RowTexts(g, r, row, n)
    ensures RowTexts(g, r, home, n).Some? && RowTexts(g, r, home, n) == RowTexts(g, r, row, n) ==>
              forall c :: 0 <= c < n && g.CellAt(r, c).isDynamic ==> SameText(g.CellAt(r, c).value, home, row)
  {
    if n > 0 {
      RowIff(g, r, home, row, n - 1);
      var cell := g.CellAt(r, n - 1);
      NextOf(RowTexts(g, r, home, n - 1), CellText(cell, home), RowTexts(g, r, row, n - 1), CellText(cell, row));
    }
  }

  lemma {:induction false} RowsIff(g: RectGrid, home: Env, row: Env, n: nat)
    requires n <= g.Height()
    ensures (forall r, c :: 0 <= r < n && 0 <= c < |g.headers| && g.CellAt(r, c).isDynamic ==>
               SameText(g.CellAt(r, c).value, home, row)) ==>
            TableTexts(g, home, n) == TableTexts(g, row, n)
    ensures TableTexts(g, home, n).Some? && TableTexts(g, home, n) == TableTexts(g, row, n) ==>
              forall r, c :: 0 <= r < n && 0 <= c < |g.headers| && g.CellAt(r, c).isDynamic ==>
                SameText(g.CellAt(r, c).value, home, row)
  {
    hide RowTexts, SameText;
    if n > 0 {
      RowsIff(g, home, row, n - 1);
      RowIff(g, n - 1, home, row, |g.headers|);
      NextOf(TableTexts(g, home, n - 1), RowTexts(g, n - 1, home, |g.headers|),
             TableTexts(g, row, n - 1), RowTexts(g, n - 1, row, |g.headers|));
    }
  }

  lemma {:induction false} TableIff(name: string, kind: ParameterType, arg: Arg, home: Env, row: Env)
    ensures SameCellsOf(arg, home, row) ==>
              TableParameter(name, kind, arg.table, home) == TableParameter(name, kind, arg.table, row)
    ensures TableParameter(name, kind, arg.table, home).Some? &&
            TableParameter(name, kind, arg.table, home) == TableParameter(name, kind, arg.table, row) ==>
              SameCellsOf(arg, home, row)
  {
    hide TableTexts, SameText;
    if arg.table.Some? {
      RowsIff(arg.table.value, home, row, arg.table.value.Height());
    }
  }

  lemma {:induction false} ParameterIff(arg: Arg, scope: Scope, row: Env)
    ensures ParameterCells(arg, scope, row) ==> ToParameter(arg, Plain(scope), row) == MeantParameter(arg, scope)
    ensures MeantParameter(arg, scope).Some? && ToParameter(arg, Plain(scope), row) == MeantParameter(arg, scope) ==>
              ParameterCells(arg, scope, row)
  {
    hide TableParameter, SameCells;
    if arg.argType.DynamicArg? && arg.value in scope {
      var bound := scope[arg.value];
      TableIff(bound.arg.name, PSpecialTable, bound.arg, Plain(bound.home), row);
    }
    TableIff(arg.name, PSpecialTable, arg, Plain(scope), row);
    TableIff(arg.name, PTable, arg, Plain(scope), row);
  }

  lemma {:induction false} ParametersIff(args: seq<Arg>, scope: Scope, row: Env)
    ensures (forall i :: 0 <= i < |args| ==> ParameterCells(args[i], scope, row)) ==>
              ToParameters(args, Plain(scope), row) == MeantParameters(args, scope)
    ensures MeantParameters(args, scope).Some? &&
            ToParameters(args, Plain(scope), row) == MeantParameters(args, scope) ==>
              forall i :: 0 <= i < |args| ==> ParameterCells(args[i], scope, row)
  {
    hide ToParameter, MeantParameter, ParameterCells, Plain;
    if args != [] {
      var n := |args| - 1;
      ParametersIff(args[..n], scope, row);
      ParameterIff(args[n], scope, row);
      NextOf(ToParameters(args[..n], Plain(scope), row), ToParameter(args[n], Plain(scope), row),
             MeantParameters(args[..n], scope), MeantParameter(args[n], scope));
      assert forall i :: 0 <= i < n ==> args[..n][i] == args[i];
    }
  }

  lemma {:induction false} LookAllPlain(args: seq<Arg>, scope: Scope)
    ensures EvalAll(args, Plain(scope)) ==
            (if LookAll(args, scope).Some? then Some(Arguments(LookAll(args, scope).value)) else None)
  {
    if args != [] {
      var n := |args| - 1;
      LookAllPlain(args[..n], scope);
      if LookAll(args, scope).Some? {
        assert Arguments(LookAll(args, scope).value) ==
               Arguments(LookAll(args[..n], scope).value) + [Look(args[n], scope).value.arg];
      }
    }
  }

  lemma {:induction false} BindPlain(formals: seq<string>, bounds: seq<Bound>)
    requires |bounds| <= |formals|
    ensures Plain(Bind(formals, bounds)) == Bind(formals, Arguments(bounds))
  {
    if bounds != [] {
      var n := |bounds| - 1;
      BindPlain(formals, bounds[..n]);
      assert Arguments(bounds)[..n] == Arguments(bounds[..n]);
    }
  }

  /** Concept resolution is substitution exactly when the row gives the cells of all tables that
      are shown the text that they have where they are written. */
  lemma {:induction false} ExpandIff(t: Tree, scope: Scope, row: Env)
    ensures Cells(t, scope, row) ==> Expand(t, Plain(scope), row) == Meaning(t, scope)
    ensures Meaning(t, scope).Some? && Expand(t, Plain(scope), row) == Meaning(t, scope) ==> Cells(t, scope, row)
    decreases t, 1
  {
    hide Bind, LookAll, EvalAll, ToParameters, MeantParameters, ParameterCells, Plain;
    if t.isConcept {
      LookAllPlain(t.args, scope);
      var actuals := LookAll(t.args, scope);
      if actuals.Some? && |actuals.value| <= |t.formals| {
        BindPlain(t.formals, actuals.value);
        ExpandAllIff(t.steps, |t.steps|, Bind(t.formals, actuals.value), row);
      }
    } else {
      ParametersIff(t.args, scope, row);
    }
  }

  lemma {:induction false} ExpandAllIff(ts: seq<Tree>, n: nat, scope: Scope, row: Env)
    requires n <= |ts|
    ensures AllCells(ts, n, scope, row) ==> ExpandAll(ts, n, Plain(scope), row) == MeaningAll(ts, n, scope)
    ensures MeaningAll(ts, n, scope).Some? && ExpandAll(ts, n, Plain(scope), row) == MeaningAll(ts, n, scope) ==>
              AllCells(ts, n, scope, row)
    decreases ts, 0, n
  {
    hide Expand, Meaning, Cells, Plain;
    if n > 0 {
      ExpandAllIff(ts, n - 1, scope, row);
      ExpandIff(ts[n - 1], scope, row);
      NextOf(ExpandAll(ts, n - 1, Plain(scope), row), Expand(ts[n - 1], Plain(scope), row),
             MeaningAll(ts, n - 1, scope), Meaning(ts[n - 1], scope));
    }
  }

  /* ---------- a table inside a concept ---------- */

  /** A table with the column "x" and one row, whose cell is the parameter `a`. */
  const CELL_TABLE: RectGrid := Grid(["x"], [[Cell("a", true)]])

  function Shown(text: string): Parameter {
    Parameter("", PTable, "", Some(ProtoTable(["x"], [[text]])))
  }

  lemma {:induction false} CellTableShows(env: Env)
    ensures TableParameter("", PTable, Some(CELL_TABLE), env) ==
            if "a" in env then Some(Shown(env["a"].value)) else None
  {
    assert CELL_TABLE.CellAt(0, 0) == Cell("a", true);
    assert RowTexts(CELL_TABLE, 0, env, 0) == Some([]) && TableTexts(CELL_TABLE, env, 0) == Some([]);
    if "a" in env {
      JustOne(env["a"].value);
      JustOne([env["a"].value]);
    }
    assert RowTexts(CELL_TABLE, 0, env, 1) == if "a" in env then Some([] + [env["a"].value]) else None;
    assert TableTexts(CELL_TABLE, env, 1) == if "a" in env then Some([] + [[env["a"].value]]) else None;
  }

  /** A step with that table. */
  predicate HasTable(step: Tree) {
    !step.isConcept && step.args == [Arg("", "", TableArg, Some(CELL_TABLE))]
  }

  /** A concept with the parameter `a` and one step, used with an argument. */
  function ConceptWith(step: Tree, arg: Arg): Tree {
    Tree("c {}", [arg], true, ["a"], map["a" := arg], [step])
  }

  lemma {:induction false} TableStepShows(step: Tree, scope: Scope, row: Env)
    requires HasTable(step)
    ensures Meaning(step, scope) ==
            if "a" in scope then Some(Leaf(step.value, [Shown(scope["a"].arg.value)])) else None
    ensures Expand(step, Plain(scope), row) ==
            if "a" in row then Some(Leaf(step.value, [Shown(row["a"].value)])) else None
  {
    hide TableParameter, Shown;
    CellTableShows(Plain(scope));
    CellTableShows(row);
    var arg := Arg("", "", TableArg, Some(CELL_TABLE));
    OneParameter(arg, scope, row);
    assert "a" in scope ==> Plain(scope)["a"] == scope["a"].arg;
  }

  lemma {:induction false} OneParameter(arg: Arg, scope: Scope, row: Env)
    ensures MeantParameters([arg], scope) ==
            (if MeantParameter(arg, scope).Some? then Some([MeantParameter(arg, scope).value]) else None)
    ensures ToParameters([arg], Plain(scope), row) ==
            if ToParameter(arg, Plain(scope), row).Some? then Some([ToParameter(arg, Plain(scope), row).value])
              else None
  {
    hide MeantParameter, ToParameter;
    JustOne(arg);
    if MeantParameter(arg, scope).Some? {
      JustOne(MeantParameter(arg, scope).value);
    }
    if ToParameter(arg, Plain(scope), row).Some? {
      JustOne(ToParameter(arg, Plain(scope), row).value);
    }
    assert MeantParameters([], scope) == Some([]) && ToParameters([], Plain(scope), row) == Some([]);
  }

  /** The cell stands for the argument of the concept. Without a data table the program stops
      instead, and with one that has a column "a" it sends the text of that column. */
  lemma {:induction false} TableInConceptGoesWrong(step: Tree, text: string, scope: Scope)
    requires HasTable(step)
    ensures var t, row := ConceptWith(step, Arg("", text, StaticArg, None)), Plain(scope);
            && Agrees(t)
            && Meaning(t, scope) == Some(Group("c {}", t.args, [Leaf(step.value, [Shown(text)])]))
            && Expand(t, row, row) ==
               if "a" in row then Some(Group("c {}", t.args, [Leaf(step.value, [Shown(row["a"].value)])])) else None
  {
    hide Meaning, Expand, Shown, HasTable;
    var arg := Arg("", text, StaticArg, None);
    PlainStepAgrees(step);
    UseOf(step, arg, scope, Plain(scope));
    TableStepShows(step, Bind(["a"], [Bound(arg, scope)]), Plain(scope));
  }

  lemma {:induction false} PlainStepAgrees(step: Tree)
    requires HasTable(step)
    ensures Agrees(step)
  {
  }

  /** Using the concept is resolving its one step in the scope of the argument. */
  lemma {:induction false} UseOf(step: Tree, arg: Arg, scope: Scope, row: Env)
    requires !arg.argType.DynamicArg? && Agrees(step)
    ensures var inner := Bind(["a"], [Bound(arg, scope)]);
            && inner == map["a" := Bound(arg, scope)] && Agrees(ConceptWith(step, arg))
            && Meaning(ConceptWith(step, arg), scope) ==
               (if Meaning(step, inner).None? then None
                else Some(Group("c {}", [arg], [Meaning(step, inner).value])))
            && Expand(ConceptWith(step, arg), Plain(scope), row) ==
               (if Expand(step, Plain(inner), row).None? then None
                else Some(Group("c {}", [arg], [Expand(step, Plain(inner), row).value])))
  {
    hide Meaning, Expand;
    var t := ConceptWith(step, arg);
    var inner := Bind(["a"], [Bound(arg, scope)]);
    OneActual(arg, scope);
    assert Plain(inner) == Bind(["a"], [arg]);
    OneStep(t.steps, inner, row);
    MeaningOfUse(t, scope, row);
  }

  lemma {:induction false} OneActual(arg: Arg, scope: Scope)
    requires !arg.argType.DynamicArg?
    ensures LookAll([arg], scope) == Some([Bound(arg, scope)]) && EvalAll([arg], Plain(scope)) == Some([arg])
    ensures Arguments([Bound(arg, scope)]) == [arg]
    ensures Bind(["a"], [arg]) == map["a" := arg] && Bind(["a"], [Bound(arg, scope)]) == map["a" := Bound(arg, scope)]
  {
    JustOne(arg);
    JustOne(Bound(arg, scope));
    assert LookAll([], scope) == Some([]) && EvalAll([], Plain(scope)) == Some([]);
  }

  lemma {:induction false} OneStep(ts: seq<Tree>, scope: Scope, row: Env)
    requires |ts| == 1
    ensures MeaningAll(ts, 1, scope) ==
            (if Meaning(ts[0], scope).Some? then Some([Meaning(ts[0], scope).value]) else None)
    ensures ExpandAll(ts, 1, Plain(scope), row) ==
            if Expand(ts[0], Plain(scope), row).Some? then Some([Expand(ts[0], Plain(scope), row).value]) else None
  {
    hide Meaning, Expand;
    assert MeaningAll(ts, 0, scope) == Some([]) && ExpandAll(ts, 0, Plain(scope), row) == Some([]);
    if Meaning(ts[0], scope).Some? {
      JustOne(Meaning(ts[0], scope).value);
    }
    if Expand(ts[0], Plain(scope), row).Some? {
      JustOne(Expand(ts[0], Plain(scope), row).value);
    }
  }

  lemma {:induction false} MeaningOfUse(t: Tree, scope: Scope, row: Env)
    requires t.isConcept && LookAll(t.args, scope).Some? && EvalAll(t.args, Plain(scope)).Some?
    requires |t.formals| == |t.args|
    ensures var actuals := LookAll(t.args, scope).value;
            var plans := MeaningAll(t.steps, |t.steps|, Bind(t.formals, actuals));
            Meaning(t, scope) == if plans.None? then None else Some(Group(t.value, Arguments(actuals), plans.value))
    ensures var actuals := EvalAll(t.args, Plain(scope)).value;
            var plans := ExpandAll(t.steps, |t.steps|, Bind(t.formals, actuals), row);
            Expand(t, Plain(scope), row) == if plans.None? then None else Some(Group(t.value, actuals, plans.value))
  {
    hide LookAll, EvalAll, MeaningAll, ExpandAll, Bind;
  }
}
