/** What is sent for a step, said about every value by itself: which text each cell and each
    parameter has, at any depth inside concepts. */
module SentValues {
  import opened Text
  import opened Tables
  import opened Substitution

  /** A static cell is sent as it is, a dynamic one with the value it names in the row. */
  predicate SendsCell(c: Cell, row: Env, text: string) {
    if c.isDynamic then c.value in row && text == row[c.value].value else text == c.value
  }

  /** The table sent has the headers of the grid and, cell by cell, its columns as they are shown. */
  ghost predicate SendsTable(g: RectGrid, row: Env, t: ProtoTable) {
    && g.headers != [] && t.headers == g.headers && |t.rows| == g.Height()
    && forall r :: 0 <= r < |t.rows| ==>
         && |t.rows[r]| == |g.headers|
         && forall c :: 0 <= c < |g.headers| ==>
              SendsCell(g.columns[LastIndex(g.headers, g.headers[c])][r], row, t.rows[r][c])
  }

  /** A cell that names no column. */
  ghost predicate Unknown(g: RectGrid, row: Env, r: nat, c: nat) {
    && r < g.Height() && c < |g.headers|
    && var cell := g.columns[LastIndex(g.headers, g.headers[c])][r]; cell.isDynamic && cell.value !in row
  }

  lemma {:induction false} RowSent(g: RectGrid, r: nat, row: Env, n: nat)
    requires r < g.Height() && n <= |g.headers|
    ensures var texts := RowTexts(g, r, row, n);
            && (texts.Some? ==>
                  && |texts.value| == n
                  && forall c :: 0 <= c < n ==>
                       SendsCell(g.columns[LastIndex(g.headers, g.headers[c])][r], row, texts.value[c]))
            && (texts.None? ==> exists c: nat :: c < n && Unknown(g, row, r, c))
  {
    hide LastIndex;
    if n > 0 {
      RowSent(g, r, row, n - 1);
      if RowTexts(g, r, row, n - 1).Some? && RowTexts(g, r, row, n).None? {
        assert Unknown(g, row, r, n - 1);
      }
    }
  }

  lemma {:induction false} RowsSent(g: RectGrid, row: Env, n: nat)
    requires n <= g.Height()
    ensures var rows := TableTexts(g, row, n);
            && (rows.Some? ==>
                  && |rows.value| == n
                  && forall r :: 0 <= r < n ==>
                       && |rows.value[r]| == |g.headers|
                       && forall c :: 0 <= c < |g.headers| ==>
                            SendsCell(g.columns[LastIndex(g.headers, g.headers[c])][r], row, rows.value[r][c]))
            && (rows.None? ==> exists r: nat, c: nat :: Unknown(g, row, r, c))
  {
    hide LastIndex, SendsCell, RowTexts, Unknown;
    if n > 0 {
      RowsSent(g, row, n - 1);
      RowSent(g, n - 1, row, |g.headers|);
    }
  }

  /** There is one such table, unless the grid has no columns or a cell names nothing. */
  lemma {:induction false} TableSentIff(g: RectGrid, row: Env)
    ensures forall t :: ToProtoTable(g, row) == Some(t) <==> SendsTable(g, row, t)
    ensures ToProtoTable(g, row).None? <==> g.headers == [] || exists r: nat, c: nat :: Unknown(g, row, r, c)
  {
    hide LastIndex, TableTexts;
    RowsSent(g, row, g.Height());
    var sent := ToProtoTable(g, row);
    if sent.Some? {
      AllKnown(g, row, sent.value);
    }
    forall t | SendsTable(g, row, t)
      ensures sent == Some(t)
    {
      AllKnown(g, row, t);
      OneTable(g, row, t, sent.value);
    }
  }

  lemma {:induction false} AllKnown(g: RectGrid, row: Env, t: ProtoTable)
    requires SendsTable(g, row, t)
    ensures forall r: nat, c: nat :: !Unknown(g, row, r, c)
  {
    hide LastIndex;
    forall r: nat, c: nat ensures !Unknown(g, row, r, c) {
      if r < g.Height() && c < |g.headers| {
        assert SendsCell(g.columns[LastIndex(g.headers, g.headers[c])][r], row, t.rows[r][c]);
      }
    }
  }

  lemma {:induction false} OneTable(g: RectGrid, row: Env, s: ProtoTable, t: ProtoTable)
    requires SendsTable(g, row, s) && SendsTable(g, row, t)
    ensures s == t
  {
    hide LastIndex;
    forall r | 0 <= r < |t.rows| ensures s.rows[r] == t.rows[r] {
      assert forall c :: 0 <= c < |g.headers| ==>
          SendsCell(g.columns[LastIndex(g.headers, g.headers[c])][r], row, t.rows[r][c])
          && SendsCell(g.columns[LastIndex(g.headers, g.headers[c])][r], row, s.rows[r][c]);
    }
    assert s.rows == t.rows;
  }

  ghost predicate SendsTableOf(arg: Arg, kind: ParameterType, row: Env, p: Parameter) {
    && arg.table.Some? && p.table.Some? && SendsTable(arg.table.value, row, p.table.value)
    && p == Parameter(arg.name, kind, "", p.table)
  }

  /** The parameter sent for an argument: a dynamic one has the name and the value, or the table,
      of what it names. */
  ghost predicate SendsParameter(arg: Arg, env: Env, row: Env, p: Parameter) {
    match arg.argType
    case StaticArg => p == Parameter(arg.name, PStatic, arg.value, None)
    case SpecialString => p == Parameter(arg.name, PSpecialString, arg.value, None)
    case SpecialTable => SendsTableOf(arg, PSpecialTable, row, p)
    case TableArg => SendsTableOf(arg, PTable, row, p)
    case DynamicArg =>
      && arg.value in env
      && var a := env[arg.value];
      if a.table.Some? then SendsTableOf(a, PSpecialTable, row, p)
      else p == Parameter(a.name, PDynamic, a.value, None)
  }

  lemma {:induction false} ParameterSentIff(arg: Arg, env: Env, row: Env)
    ensures forall p :: ToParameter(arg, env, row) == Some(p) <==> SendsParameter(arg, env, row, p)
  {
    hide ToProtoTable, SendsTable;
    if arg.table.Some? {
      TableSentIff(arg.table.value, row);
    }
    if arg.value in env && env[arg.value].table.Some? {
      TableSentIff(env[arg.value].table.value, row);
    }
  }

  ghost predicate SendsParameters(args: seq<Arg>, env: Env, row: Env, ps: seq<Parameter>) {
    |ps| == |args| && forall i :: 0 <= i < |args| ==> SendsParameter(args[i], env, row, ps[i])
  }

  lemma {:induction false} ParametersSentIff(args: seq<Arg>, env: Env, row: Env)
    ensures forall ps :: ToParameters(args, env, row) == Some(ps) <==> SendsParameters(args, env, row, ps)
  {
    hide ToParameter, SendsParameter;
    if args != [] {
      var n := |args| - 1;
      ParametersSentIff(args[..n], env, row);
      ParameterSentIff(args[n], env, row);
      forall ps ensures ToParameters(args, env, row) == Some(ps) <==> SendsParameters(args, env, row, ps) {
        if ps != [] && |ps| == |args| {
          assert ps == ps[..n] + [ps[n]];
          assert SendsParameters(args, env, row, ps) <==>
              SendsParameters(args[..n], env, row, ps[..n]) && SendsParameter(args[n], env, row, ps[n]);
        }
      }
    }
  }

  /** The arguments that a concept shows. */
  ghost predicate ShowsArgs(args: seq<Arg>, env: Env, shown: seq<Arg>) {
    && |shown| == |args|
    && forall i :: 0 <= i < |args| ==>
         if args[i].argType.DynamicArg? then args[i].value in env && shown[i] == env[args[i].value]
         else shown[i] == args[i]
  }

  lemma {:induction false} ArgsShownIff(args: seq<Arg>, env: Env)
    ensures forall shown :: EvalAll(args, env) == Some(shown) <==> ShowsArgs(args, env, shown)
  {
    hide EvalAll;
    forall shown | ShowsArgs(args, env, shown)
      ensures EvalAll(args, env) == Some(shown)
    {
      assert forall i :: 0 <= i < |args| ==> Eval(args[i], env) == Some(shown[i]);
      assert EvalAll(args, env).value == shown;
    }
  }

  /** The plan has, step by step, what is sent for the tree: the steps inside a concept read the
      names of its lookup. A concept at the top stops when a value of its lookup names nothing. */
  ghost predicate Sends(t: Tree, env: Env, row: Env, top: bool, plan: Plan)
    decreases t
  {
    if !t.isConcept then plan.Leaf? && plan.value == t.value && SendsParameters(t.args, env, row, plan.parameters)
    else
      && (top ==> Known(t.lookup, env))
      && plan.Group? && plan.value == t.value && ShowsArgs(t.args, env, plan.args) && |plan.steps| == |t.steps|
      && forall i :: 0 <= i < |t.steps| ==> Sends(t.steps[i], Through(t.lookup, env), row, false, plan.steps[i])
  }

  ghost predicate AllSend(ts: seq<Tree>, n: nat, env: Env, row: Env, top: bool, plans: seq<Plan>)
    requires n <= |ts|
  {
    |plans| == n && forall i :: 0 <= i < n ==> Sends(ts[i], env, row, top, plans[i])
  }

  /** What is computed is the one plan that sends these values, if there is one. */
  lemma {:induction false} ComputedIsSentIff(t: Tree, env: Env, row: Env, top: bool)
    ensures forall plan :: Compute(t, env, row, top) == Some(plan) <==> Sends(t, env, row, top, plan)
    decreases t, 1
  {
    hide ToParameters, EvalAll, SendsParameters, ShowsArgs, Through, Known;
    if t.isConcept {
      ArgsShownIff(t.args, env);
      AllComputedIff(t.steps, |t.steps|, Through(t.lookup, env), row, false);
      forall plan: Plan | plan.Group?
        ensures AllSend(t.steps, |t.steps|, Through(t.lookup, env), row, false, plan.steps) <==>
                |plan.steps| == |t.steps| && forall i :: 0 <= i < |t.steps| ==>
                  Sends(t.steps[i], Through(t.lookup, env), row, false, plan.steps[i])
      {
      }
    } else {
      ParametersSentIff(t.args, env, row);
    }
  }

  lemma {:induction false} AllComputedIff(ts: seq<Tree>, n: nat, env: Env, row: Env, top: bool)
    requires n <= |ts|
    ensures forall plans :: ComputeAll(ts, n, env, row, top) == Some(plans) <==> AllSend(ts, n, env, row, top, plans)
    decreases ts, 0, n
  {
    hide Compute, Sends;
    if n > 0 {
      AllComputedIff(ts, n - 1, env, row, top);
      ComputedIsSentIff(ts[n - 1], env, row, top);
      forall plans
        ensures ComputeAll(ts, n, env, row, top) == Some(plans) <==> AllSend(ts, n, env, row, top, plans)
      {
        if |plans| == n {
          assert plans == plans[..n - 1] + [plans[n - 1]];
          assert AllSend(ts, n, env, row, top, plans) <==>
              AllSend(ts, n - 1, env, row, top, plans[..n - 1]) && Sends(ts[n - 1], env, row, top, plans[n - 1]);
        }
      }
    }
  }
}
