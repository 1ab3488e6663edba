/** Adding scenario results to the result of a specification, also for many data table rows. */
module SpecResults {
  import opened Text
  import opened Protocol
  import opened ProtoItems
  import opened ScenarioExecution

  /** Scenario results that show the outcome of these runs. */
  ghost predicate Shows(results: seq<ScenarioResult>, runs: seq<ScenarioRun>)
    reads results
  {
    && |results| == |runs|
    && forall i :: 0 <= i < |results| ==>
         results[i].failed == runs[i].Failed() && results[i].executionTime == runs[i].Time()
  }

  function CountFailed(runs: seq<ScenarioRun>): nat {
    if runs == [] then 0
    else CountFailed(runs[..|runs| - 1]) + if runs[|runs| - 1].Failed() then 1 else 0
  }

  predicate SomeFailed(runs: seq<ScenarioRun>) {
    exists i :: 0 <= i < |runs| && runs[i].Failed()
  }

  /* ---------- one run of every scenario for every row ---------- */

  predicate Grid<T>(rows: seq<seq<T>>, width: nat) {
    forall r :: 0 <= r < |rows| ==> |rows[r]| == width
  }

  /** Scenario `k` fails in one of the first `rows` rows. */
  ghost predicate Fails(runs: seq<seq<ScenarioRun>>, width: nat, k: nat, rows: nat)
    requires Grid(runs, width) && k < width && rows <= |runs|
  {
    exists r :: 0 <= r < rows && runs[r][k].Failed()
  }

  /** How many of the first `n` scenarios fail in at least one row. */
  ghost function CountFailing(runs: seq<seq<ScenarioRun>>, width: nat, n: nat): (count: nat)
    requires Grid(runs, width) && n <= width
    ensures count <= n
    ensures count > 0 <==> exists k :: 0 <= k < n && Fails(runs, width, k, |runs|)
  {
    if n == 0 then 0
    else CountFailing(runs, width, n - 1) + if Fails(runs, width, n - 1, |runs|) then 1 else 0
  }

  /** The offsets of the rows in which scenario `k` fails. */
  ghost function FailedRows(runs: seq<seq<ScenarioRun>>, width: nat, k: nat, rows: nat): (offsets: seq<nat>)
    requires Grid(runs, width) && k < width && rows <= |runs|
    ensures forall r: nat :: r in offsets <==> r < rows && runs[r][k].Failed()
  {
    if rows == 0 then []
    else FailedRows(runs, width, k, rows - 1) + if runs[rows - 1][k].Failed() then [rows - 1] else []
  }

  ghost function AllFailedRows(runs: seq<seq<ScenarioRun>>, width: nat, n: nat): seq<nat>
    requires Grid(runs, width) && n <= width
  {
    if n == 0 then [] else AllFailedRows(runs, width, n - 1) + FailedRows(runs, width, n - 1, |runs|)
  }

  /** The rows of the data table in which scenario `k` fails, when row `start` was executed first. */
  ghost function FailedTableRows(runs: seq<seq<ScenarioRun>>, width: nat, k: nat, rows: nat, start: nat): seq<nat>
    requires Grid(runs, width) && k < width && rows <= |runs|
  {
    if rows == 0 then []
    else
      FailedTableRows(runs, width, k, rows - 1, start) + if runs[rows - 1][k].Failed() then [start + rows - 1] else []
  }

  ghost function AllFailedTableRows(runs: seq<seq<ScenarioRun>>, width: nat, n: nat, start: nat): seq<nat>
    requires Grid(runs, width) && n <= width
  {
    if n == 0 then []
    else AllFailedTableRows(runs, width, n - 1, start) + FailedTableRows(runs, width, n - 1, |runs|, start)
  }

  lemma {:induction false} OffsetsOfRows(runs: seq<seq<ScenarioRun>>, width: nat, k: nat, rows: nat, start: nat)
    requires Grid(runs, width) && k < width && rows <= |runs|
    ensures var offsets, numbers := FailedRows(runs, width, k, rows), FailedTableRows(runs, width, k, rows, start);
            && |offsets| == |numbers| && (forall i :: 0 <= i < |offsets| ==> numbers[i] == start + offsets[i])
            && (offsets == [] <==> !Fails(runs, width, k, rows))
  {
    hide ScenarioRun.Failed;
    if rows > 0 {
      OffsetsOfRows(runs, width, k, rows - 1, start);
    }
  }

  lemma {:induction false} AllOffsets(runs: seq<seq<ScenarioRun>>, width: nat, n: nat, start: nat)
    requires Grid(runs, width) && n <= width
    ensures var offsets, numbers := AllFailedRows(runs, width, n), AllFailedTableRows(runs, width, n, start);
            && |offsets| == |numbers| && (forall i :: 0 <= i < |offsets| ==> numbers[i] == start + offsets[i])
            && (offsets == [] <==> forall k :: 0 <= k < n ==> !Fails(runs, width, k, |runs|))
  {
    hide FailedRows, FailedTableRows, Fails;
    if n > 0 {
      AllOffsets(runs, width, n - 1, start);
      OffsetsOfRows(runs, width, n - 1, |runs|, start);
    }
  }

  /** What is recorded as the failed rows of the data table are these rows exactly when the first
      row was executed or nothing failed. */
  lemma {:induction false} OffsetsAreRowsIff(runs: seq<seq<ScenarioRun>>, width: nat, start: nat)
    requires Grid(runs, width)
    ensures AllFailedRows(runs, width, width) == AllFailedTableRows(runs, width, width, start) <==>
            start == 0 || !SomeFailed(InOrder(runs, |runs|))
  {
    hide Fails, SomeFailed, InOrder, AllFailedRows, AllFailedTableRows;
    AllOffsets(runs, width, width, start);
    TransposeFailures(runs, width, |runs|);
    var offsets, numbers := AllFailedRows(runs, width, width), AllFailedTableRows(runs, width, width, start);
    if start > 0 && offsets != [] {
      assert numbers[0] == start + offsets[0];
    }
  }

  const REFUSED := Event(ScenarioDataStoreInit, Answer(true, None))

  /** A scenario that fails in the second row of the table, the only one executed, is recorded as one
      that fails in the first. */
  lemma {:induction false} SecondRowIsRecordedAsFirst()
    ensures var runs := [[ScenarioRun(REFUSED, REFUSED, [], REFUSED)]];
            AllFailedRows(runs, 1, 1) == [0] && AllFailedTableRows(runs, 1, 1, 1) == [1]
  {
    var runs: seq<seq<ScenarioRun>> := [[ScenarioRun(REFUSED, REFUSED, [], REFUSED)]];
    assert runs[0][0].Failed();
    assert FailedRows(runs, 1, 0, 0) == [] && FailedTableRows(runs, 1, 0, 0, 1) == [];
    assert FailedRows(runs, 1, 0, 1) == [0] && FailedTableRows(runs, 1, 0, 1, 1) == [1];
    assert AllFailedRows(runs, 1, 0) == [] && AllFailedTableRows(runs, 1, 0, 1) == [];
  }

  ghost function ColumnTime(runs: seq<seq<ScenarioRun>>, width: nat, k: nat, rows: nat): int
    requires Grid(runs, width) && k < width && rows <= |runs|
  {
    if rows == 0 then 0 else ColumnTime(runs, width, k, rows - 1) + runs[rows - 1][k].Time()
  }

  ghost function ColumnsTime(runs: seq<seq<ScenarioRun>>, width: nat, n: nat, rows: nat): int
    requires Grid(runs, width) && n <= width && rows <= |runs|
  {
    if n == 0 then 0 else ColumnsTime(runs, width, n - 1, rows) + ColumnTime(runs, width, n - 1, rows)
  }

  /** The runs row after row, as they happened. */
  function InOrder(runs: seq<seq<ScenarioRun>>, rows: nat): seq<ScenarioRun>
    requires rows <= |runs|
  {
    if rows == 0 then [] else InOrder(runs, rows - 1) + runs[rows - 1]
  }

  lemma {:induction false} ScenarioTimeAppend(a: seq<ScenarioRun>, b: seq<ScenarioRun>)
    ensures ScenarioTime(a + b) == ScenarioTime(a) + ScenarioTime(b)
    ensures ScenarioEvents(a + b) == ScenarioEvents(a) + ScenarioEvents(b)
  {
    hide ScenarioRun.Time, ScenarioRun.Events;
    if b == [] {
      assert a + b == a;
    } else {
      assert (a + b)[..|a + b| - 1] == a + b[..|b| - 1];
      ScenarioTimeAppend(a, b[..|b| - 1]);
    }
  }

  lemma {:induction false} OneMoreRow(runs: seq<seq<ScenarioRun>>, width: nat, n: nat, rows: nat)
    requires Grid(runs, width) && n <= width && rows < |runs|
    ensures ColumnsTime(runs, width, n, rows + 1) == ColumnsTime(runs, width, n, rows) + ScenarioTime(runs[rows][..n])
  {
    hide ScenarioRun.Time;
    if n > 0 {
      OneMoreRow(runs, width, n - 1, rows);
      assert runs[rows][..n][..n - 1] == runs[rows][..n - 1];
    }
  }

  lemma {:induction false} NoRows(runs: seq<seq<ScenarioRun>>, width: nat, n: nat)
    requires Grid(runs, width) && n <= width
    ensures ColumnsTime(runs, width, n, 0) == 0
  {
    if n > 0 {
      NoRows(runs, width, n - 1);
    }
  }

  /** Adding the times scenario by scenario or row by row gives the same. */
  lemma {:induction false} TransposeTimes(runs: seq<seq<ScenarioRun>>, width: nat, rows: nat)
    requires Grid(runs, width) && rows <= |runs|
    ensures ColumnsTime(runs, width, width, rows) == ScenarioTime(InOrder(runs, rows))
  {
    hide ColumnsTime, ScenarioTime;
    if rows == 0 {
      NoRows(runs, width, width);
      NoScenarios();
    } else {
      TransposeTimes(runs, width, rows - 1);
      OneMoreRow(runs, width, width, rows - 1);
      ScenarioTimeAppend(InOrder(runs, rows - 1), runs[rows - 1]);
      assert runs[rows - 1][..width] == runs[rows - 1];
    }
  }

  lemma {:induction false} NoScenarios()
    ensures ScenarioTime([]) == 0 && ScenarioEvents([]) == []
  {
  }

  /** Some scenario fails in some row exactly when one of all the runs failed. */
  lemma {:induction false} TransposeFailures(runs: seq<seq<ScenarioRun>>, width: nat, rows: nat)
    requires Grid(runs, width) && rows <= |runs|
    ensures SomeFailed(InOrder(runs, rows)) <==> exists k :: 0 <= k < width && Fails(runs, width, k, rows)
  {
    hide ScenarioRun.Failed;
    if rows > 0 {
      var before: seq<ScenarioRun>, row: seq<ScenarioRun> := InOrder(runs, rows - 1), runs[rows - 1];
      TransposeFailures(runs, width, rows - 1);
      if SomeFailed(before + row) {
        var i :| 0 <= i < |before + row| && (before + row)[i].Failed();
        if i < |before| {
          assert before[i].Failed();
          var k :| 0 <= k < width && Fails(runs, width, k, rows - 1);
          assert Fails(runs, width, k, rows);
        } else {
          assert row[i - |before|].Failed();
          assert Fails(runs, width, i - |before|, rows);
        }
      }
      if k :| 0 <= k < width && Fails(runs, width, k, rows) {
        if Fails(runs, width, k, rows - 1) {
          var i :| 0 <= i < |before| && before[i].Failed();
          assert (before + row)[i].Failed();
        } else {
          assert (before + row)[|before| + k].Failed();
        }
      }
    }
  }

  /* ---------- the result of a specification ---------- */

  datatype ResultItem = OneScenario(scenario: ScenarioResult) | TableDriven(scenarios: seq<ScenarioResult>)

  class SpecResult {
    var items: seq<ResultItem>
    var scenarioFailedCount: nat
    var scenarioCount: nat
    var isFailed: bool
    var failedDataTableRows: seq<nat>
    var executionTime: int
    var preHookFailed: bool
    var postHookFailed: bool

    constructor ()
      ensures items == [] && scenarioFailedCount == 0 && scenarioCount == 0 && executionTime == 0
      ensures failedDataTableRows == [] && !isFailed && !preHookFailed && !postHookFailed
    {
      items, scenarioFailedCount, scenarioCount, executionTime := [], 0, 0, 0;
      failedDataTableRows, isFailed, preHookFailed, postHookFailed := [], false, false, false;
    }

    method AddExecTime(time: int)
      modifies `executionTime
      ensures executionTime == old(executionTime) + time
    {
      executionTime := executionTime + time;
    }

    method AddPreHook(result: ExecutionResult)
      modifies `preHookFailed, `isFailed
      ensures preHookFailed == (old(preHookFailed) || result.failed) && isFailed == (old(isFailed) || result.failed)
    {
      if result.failed {
        preHookFailed := true;
        isFailed := true;
      }
    }

    method AddPostHook(result: ExecutionResult)
      modifies `postHookFailed, `isFailed
      ensures postHookFailed == (old(postHookFailed) || result.failed) && isFailed == (old(isFailed) || result.failed)
    {
      if result.failed {
        postHookFailed := true;
        isFailed := true;
      }
    }

    /** The results of the scenarios of a specification without a data table. */
    method AddScenarioResults(results: seq<ScenarioResult>, ghost runs: seq<ScenarioRun>)
      requires Shows(results, runs)
      modifies `items, `scenarioFailedCount, `isFailed, `executionTime, `scenarioCount
      ensures scenarioCount == old(scenarioCount) + |results|
      ensures scenarioFailedCount == old(scenarioFailedCount) + CountFailed(runs)
      ensures isFailed == (old(isFailed) || SomeFailed(runs))
      ensures executionTime == old(executionTime) + ScenarioTime(runs)
      ensures items == old(items) + seq(|results|, i requires 0 <= i < |results| => OneScenario(results[i]))
    {
      hide ScenarioRun.Failed, ScenarioRun.Time, ScenarioTime, CountFailed;
      NoScenarios();
      NoneFailed();
      assert runs[..0] == [];
      for i := 0 to |results|
        invariant unchanged(`scenarioCount)
        invariant scenarioFailedCount == old(scenarioFailedCount) + CountFailed(runs[..i])
        invariant isFailed == (old(isFailed) || exists k :: 0 <= k < i && runs[k].Failed())
        invariant executionTime == old(executionTime) + ScenarioTime(runs[..i])
        invariant items == old(items) + seq(i, k requires 0 <= k < i => OneScenario(results[k]))
      {
        NextScenario(runs, i);
        if results[i].failed {
          isFailed := true;
          scenarioFailedCount := scenarioFailedCount + 1;
        }
        AddExecTime(results[i].executionTime);
        items := items + [OneScenario(results[i])];
      }
      assert runs[..|runs|] == runs;
      scenarioCount := scenarioCount + |results|;
    }

    /** One scenario of a data table driven specification, for all rows executed. */
    method AddGroup(results: seq<seq<ScenarioResult>>, k: nat, ghost runs: seq<seq<ScenarioRun>>, ghost width: nat)
      requires Grid(runs, width) && k < width && |results| == |runs|
      requires forall r :: 0 <= r < |results| ==> Shows(results[r], runs[r])
      modifies `executionTime, `failedDataTableRows, `scenarioFailedCount, `isFailed, `items
      ensures executionTime == old(executionTime) + ColumnTime(runs, width, k, |runs|)
      ensures failedDataTableRows == old(failedDataTableRows) + FailedRows(runs, width, k, |runs|)
      ensures scenarioFailedCount == old(scenarioFailedCount) + if Fails(runs, width, k, |runs|) then 1 else 0
      ensures isFailed == (old(isFailed) || Fails(runs, width, k, |runs|))
      ensures Grid(results, width) && items == old(items) + [TableDriven(Column(results, width, k))]
    {
      hide ScenarioRun.Failed, ScenarioRun.Time, Fails, ColumnTime, FailedRows;
      var scenarios, scenarioFailed := [], false;
      NoRow(runs, width, k);
      for r := 0 to |results|
        invariant unchanged(`items) && unchanged(`scenarioFailedCount) && unchanged(`isFailed)
        invariant scenarios == Column(results[..r], width, k)
        invariant scenarioFailed == Fails(runs, width, k, r)
        invariant executionTime == old(executionTime) + ColumnTime(runs, width, k, r)
        invariant failedDataTableRows == old(failedDataTableRows) + FailedRows(runs, width, k, r)
      {
        NextRow(runs, width, k, r);
        var scenario := results[r][k];
        scenarios := scenarios + [scenario];
        AddExecTime(scenario.executionTime);
        if scenario.failed {
          scenarioFailed := true;
          failedDataTableRows := failedDataTableRows + [r];
        }
      }
      if scenarioFailed {
        scenarioFailedCount := scenarioFailedCount + 1;
        isFailed := true;
      }
      assert results[..|results|] == results;
      items := items + [TableDriven(scenarios)];
    }

    /** The results of all scenarios for all rows that were executed, row by row. */
    method AddTableDrivenScenarioResult(results: seq<seq<ScenarioResult>>, ghost runs: seq<seq<ScenarioRun>>,
        ghost width: nat)
      requires Grid(runs, width) && |results| == |runs| > 0
      requires forall r :: 0 <= r < |results| ==> Shows(results[r], runs[r])
      modifies `executionTime, `failedDataTableRows, `scenarioFailedCount, `isFailed, `items, `scenarioCount
      ensures scenarioCount == old(scenarioCount) + width
      ensures scenarioFailedCount == old(scenarioFailedCount) + CountFailing(runs, width, width)
      ensures isFailed == (old(isFailed) || SomeFailed(InOrder(runs, |runs|)))
      ensures executionTime == old(executionTime) + ScenarioTime(InOrder(runs, |runs|))
      ensures failedDataTableRows == old(failedDataTableRows) + AllFailedRows(runs, width, width)
      ensures Grid(results, width) && items == old(items) + Groups(results, width, width)
    {
      hide Shows, ScenarioTime, InOrder, SomeFailed, Fails, ColumnTime, FailedRows, ScenarioRun.Failed, Column;
      ShowsGrid(results, runs, width);
      TransposeTimes(runs, width, |runs|);
      TransposeFailures(runs, width, |runs|);
      var numberOfScenarios := |results[0]|;
      for k := 0 to numberOfScenarios
        invariant executionTime == old(executionTime) + ColumnsTime(runs, width, k, |runs|)
        invariant failedDataTableRows == old(failedDataTableRows) + AllFailedRows(runs, width, k)
        invariant scenarioFailedCount == old(scenarioFailedCount) + CountFailing(runs, width, k)
        invariant isFailed == (old(isFailed) || exists j :: 0 <= j < k && Fails(runs, width, j, |runs|))
        invariant items == old(items) + Groups(results, width, k)
        invariant unchanged(`scenarioCount)
      {
        AddGroup(results, k, runs, width);
      }
      scenarioCount := scenarioCount + numberOfScenarios;
    }
  }

  lemma {:induction false} NoRow(runs: seq<seq<ScenarioRun>>, width: nat, k: nat)
    requires Grid(runs, width) && k < width
    ensures !Fails(runs, width, k, 0) && ColumnTime(runs, width, k, 0) == 0 && FailedRows(runs, width, k, 0) == []
  {
  }

  lemma {:induction false} NextRow(runs: seq<seq<ScenarioRun>>, width: nat, k: nat, r: nat)
    requires Grid(runs, width) && k < width && r < |runs|
    ensures Fails(runs, width, k, r + 1) <==> Fails(runs, width, k, r) || runs[r][k].Failed()
    ensures ColumnTime(runs, width, k, r + 1) == ColumnTime(runs, width, k, r) + runs[r][k].Time()
    ensures FailedRows(runs, width, k, r + 1) ==
            FailedRows(runs, width, k, r) + if runs[r][k].Failed() then [r] else []
  {
    hide ScenarioRun.Failed, ScenarioRun.Time;
  }

  /** The group of each of the first `n` scenarios. */
  ghost function Groups(results: seq<seq<ScenarioResult>>, width: nat, n: nat): (groups: seq<ResultItem>)
    requires Grid(results, width) && n <= width
    ensures |groups| == n && forall k :: 0 <= k < n ==> groups[k] == TableDriven(Column(results, width, k))
  {
    if n == 0 then [] else Groups(results, width, n - 1) + [TableDriven(Column(results, width, n - 1))]
  }

  lemma {:induction false} ShowsGrid(results: seq<seq<ScenarioResult>>, runs: seq<seq<ScenarioRun>>, width: nat)
    requires Grid(runs, width) && |results| == |runs|
    requires forall r :: 0 <= r < |results| ==> Shows(results[r], runs[r])
    ensures Grid(results, width)
  {
  }

  /** The results of scenario `k` in row order. */
  ghost function Column(results: seq<seq<ScenarioResult>>, width: nat, k: nat): seq<ScenarioResult>
    requires Grid(results, width) && k < width
  {
    seq(|results|, r requires 0 <= r < |results| => results[r][k])
  }

  function ResultsIn(item: ResultItem): seq<ScenarioResult> {
    if item.OneScenario? then [item.scenario] else item.scenarios
  }

  ghost function Shown(items: seq<ResultItem>): set<ScenarioResult> {
    set k, s | 0 <= k < |items| && s in ResultsIn(items[k]) :: s
  }

  /** Item `k` has the results of scenario `k` for all rows, in row order. */
  ghost predicate Presents(items: seq<ResultItem>, runs: seq<seq<ScenarioRun>>, width: nat)
    requires Grid(runs, width)
    reads Shown(items)
  {
    && |items| == width
    && forall k :: 0 <= k < width ==>
         assert forall s :: s in ResultsIn(items[k]) ==> s in Shown(items);
         ShowsColumn(ResultsIn(items[k]), runs, width, k)
  }

  ghost predicate ShowsColumn(results: seq<ScenarioResult>, runs: seq<seq<ScenarioRun>>, width: nat, k: nat)
    requires Grid(runs, width) && k < width
    reads results
  {
    && |results| == |runs|
    && forall r :: 0 <= r < |runs| ==>
         results[r].failed == runs[r][k].Failed() && results[r].executionTime == runs[r][k].Time()
  }

  lemma {:induction false} PlainPresents(results: seq<ScenarioResult>, runs: seq<ScenarioRun>)
    requires Shows(results, runs)
    ensures var items := seq(|results|, i requires 0 <= i < |results| => OneScenario(results[i]));
            Grid([runs], |runs|) && Presents(items, [runs], |runs|)
  {
    hide ScenarioRun.Failed, ScenarioRun.Time;
  }

  lemma {:induction false} GroupsPresent(results: seq<seq<ScenarioResult>>, runs: seq<seq<ScenarioRun>>, width: nat)
    requires Grid(runs, width) && Grid(results, width) && |results| == |runs|
    requires forall r :: 0 <= r < |results| ==> Shows(results[r], runs[r])
    ensures Presents(Groups(results, width, width), runs, width)
  {
    hide ScenarioRun.Failed, ScenarioRun.Time;
    var items := Groups(results, width, width);
    forall k | 0 <= k < width ensures ShowsColumn(ResultsIn(items[k]), runs, width, k) {
      assert items[k] == TableDriven(Column(results, width, k));
    }
  }

  /** One row counts every scenario once. */
  lemma {:induction false} OneRowCount(runs: seq<ScenarioRun>, n: nat)
    requires n <= |runs|
    ensures Grid([runs], |runs|) && CountFailing([runs], |runs|, n) == CountFailed(runs[..n])
    ensures InOrder([runs], 1) == runs
  {
    hide ScenarioRun.Failed;
    if n == 0 {
      NoneFailed();
      assert runs[..0] == [];
    } else {
      OneRowCount(runs, n - 1);
      assert runs[..n][..n - 1] == runs[..n - 1];
      assert [runs][0][n - 1].Failed() <==> Fails([runs], |runs|, n - 1, 1);
    }
  }

  lemma {:induction false} NoneFailed()
    ensures CountFailed([]) == 0
  {
  }

  lemma {:induction false} NextScenario(runs: seq<ScenarioRun>, i: nat)
    requires i < |runs|
    ensures CountFailed(runs[..i + 1]) == CountFailed(runs[..i]) + if runs[i].Failed() then 1 else 0
    ensures ScenarioTime(runs[..i + 1]) == ScenarioTime(runs[..i]) + runs[i].Time()
  {
    hide ScenarioRun.Failed, ScenarioRun.Time;
    assert runs[..i + 1][..i] == runs[..i];
  }
}
