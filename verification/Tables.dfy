/** The column store behind inline tables and data tables, presented as rows. */
module Tables {
  import opened Text

  datatype Cell = Cell(value: string, isDynamic: bool) {
    /** A dynamic cell is shown in angle brackets. */
    function GetValue(): (shown: string)
      ensures !isDynamic ==> shown == value
      ensures isDynamic ==>
                && |shown| == |value| + 2 && shown[0] == '<' && shown[|shown| - 1] == '>'
                && shown[1..|shown| - 1] == value
    {
      if isDynamic then "<" + value + ">" else value
    }
  }

  const DEFAULT_CELL := Cell("", false)

  /** `toHeaderSizeRow`: a row cut or filled up to `n` cells. */
  function Sized(row: seq<Cell>, n: nat): (r: seq<Cell>)
    ensures |r| == n
    ensures forall i :: 0 <= i < n ==> r[i] == if i < |row| then row[i] else DEFAULT_CELL
  {
    seq(n, i requires 0 <= i => if i < |row| then row[i] else DEFAULT_CELL)
  }

  function TrimAll(names: seq<string>): (r: seq<string>)
    ensures |r| == |names| && forall i :: 0 <= i < |names| ==> r[i] == TrimSpace(names[i])
  {
    seq(|names|, i requires 0 <= i < |names| => TrimSpace(names[i]))
  }

  ghost predicate Distinct(names: seq<string>) {
    forall i, j :: 0 <= i < j < |names| ==> names[i] != names[j]
  }

  /** The position a header lookup finds: that of the last column of the name. */
  function LastIndex(names: seq<string>, name: string): (i: nat)
    requires name in names
    ensures i < |names| && names[i] == name && forall j :: i < j < |names| ==> names[j] != name
  {
    var last := |names| - 1;
    if names[last] == name then last else LastIndex(names[..last], name)
  }

  /** The contents of a table. */
  datatype Grid = Grid(headers: seq<string>, columns: seq<seq<Cell>>) {
    predicate Rectangular() {
      && |columns| == |headers|
      && forall c :: 0 <= c < |columns| ==> |columns[c]| == Height()
    }

    function Height(): nat { if columns == [] then 0 else |columns[0]| }

    /** The cell shown in column `c` of row `r`: the lookup goes by the name of the header. */
    function CellAt(r: nat, c: nat): Cell
      requires Rectangular() && r < Height() && c < |headers|
    {
      columns[LastIndex(headers, headers[c])][r]
    }

    function Row(r: nat): (row: seq<string>)
      requires Rectangular() && r < Height()
      ensures |row| == |headers|
      ensures forall c :: 0 <= c < |headers| ==> row[c] == CellAt(r, c).GetValue()
    {
      seq(|headers|, c requires 0 <= c < |headers| => CellAt(r, c).GetValue())
    }

    function Rows(n: nat): (rows: seq<seq<string>>)
      requires Rectangular() && n <= Height()
      ensures |rows| == n && forall r :: 0 <= r < n ==> rows[r] == Row(r)
    {
      if n == 0 then [] else Rows(n - 1) + [Row(n - 1)]
    }
  }

  /** A table with headers and no rows. */
  function Headed(names: seq<string>): (g: Grid)
    ensures g.Rectangular() && g.Height() == 0 && g.headers == TrimAll(names)
  {
    Grid(TrimAll(names), seq(|names|, i => []))
  }

  /** One more row, cut or filled up to the number of headers. */
  function WithRow(g: Grid, row: seq<Cell>): (r: Grid)
    requires g.Rectangular()
    ensures r.Rectangular() && r.headers == g.headers
    ensures r.Height() == if g.headers == [] then 0 else g.Height() + 1
  {
    Grid(g.headers, seq(|g.columns|, c requires 0 <= c < |g.columns| => g.columns[c] + [Sized(row, |g.headers|)[c]]))
  }

  /** Every column shows its own cells exactly when the headers are distinct. */
  lemma ShowsOwnCells(g: Grid)
    requires g.Rectangular() && g.Height() > 0
    ensures (forall c :: 0 <= c < |g.headers| ==> LastIndex(g.headers, g.headers[c]) == c) <==> Distinct(g.headers)
  {
  }

  class Table {
    var headerIndexMap: Option<map<string, nat>>
    var columns: seq<seq<Cell>>
    var headers: seq<string>

    constructor ()
      ensures Valid() && !IsInitialized() && Value() == Grid([], [])
    {
      headerIndexMap, columns, headers := None, [], [];
    }

    predicate IsInitialized()
      reads this
    {
      headerIndexMap.Some?
    }

    function Value(): Grid
      reads this
    {
      Grid(headers, columns)
    }

    ghost predicate Valid()
      reads this
    {
      && Value().Rectangular()
      && (headerIndexMap.None? ==> headers == [])
      && (headerIndexMap.Some? ==> forall h :: h in headers ==>
            h in headerIndexMap.value && headerIndexMap.value[h] == LastIndex(headers, h))
    }

    method AddHeaders(columnNames: seq<string>)
      modifies this
      ensures Valid() && IsInitialized()
      ensures Value() == Headed(columnNames)
    {
      var indexes: map<string, nat> := map[];
      headers, columns := [], [];
      var i := 0;
      while i < |columnNames|
        invariant 0 <= i <= |columnNames| && headers == TrimAll(columnNames)[..i]
        invariant |columns| == i && forall c :: 0 <= c < i ==> columns[c] == []
        invariant forall h :: h in headers ==> h in indexes && indexes[h] == LastIndex(headers, h)
      {
        var trimmedHeader := TrimSpace(columnNames[i]);
        ghost var before := headers;
        headers := headers + [trimmedHeader];
        assert headers[..i] == before;
        indexes := indexes[trimmedHeader := i];
        columns := columns + [[]];
        i := i + 1;
      }
      headerIndexMap := Some(indexes);
    }

    /** Appends one row, cut or filled up to the number of headers. */
    method AddRows(row: seq<Cell>)
      requires Valid()
      modifies this`columns
      ensures Valid() && Value() == WithRow(old(Value()), row)
    {
      var cells := Sized(row, |headers|);
      var i := 0;
      while i < |cells|
        invariant 0 <= i <= |cells| == |columns|
        invariant forall c :: 0 <= c < i ==> columns[c] == old(columns)[c] + [cells[c]]
        invariant forall c :: i <= c < |columns| ==> columns[c] == old(columns)[c]
      {
        columns := columns[i := columns[i] + [cells[i]]];
        i := i + 1;
      }
      assert columns == WithRow(old(Value()), row).columns;
    }

    method AddRowValues(rowValues: seq<string>)
      requires Valid()
      modifies this`columns
      ensures Valid() && Value() == WithRow(old(Value()), StaticCells(rowValues))
    {
      AddRows(StaticCells(rowValues));
    }

    /** None where the program stops: a table with headers set but none among them has no first
        column to count. */
    method GetRows() returns (result: Option<seq<seq<string>>>)
      requires Valid()
      ensures result == if IsInitialized() && headers == [] then None else Some(Value().Rows(Value().Height()))
    {
      if headerIndexMap.None? {
        return Some([]);
      }
      if headers == [] {
        return None;
      }
      var rows := [];
      var i := 0;
      while i < |columns[0]|
        invariant 0 <= i <= Value().Height() && rows == Value().Rows(i)
      {
        var row := [];
        var c := 0;
        while c < |headers|
          invariant 0 <= c <= |headers| && row == Value().Row(i)[..c]
        {
          assert headers[c] in headers;
          row := row + [columns[headerIndexMap.value[headers[c]]][i].GetValue()];
          c := c + 1;
        }
        assert row == Value().Row(i);
        rows := rows + [row];
        i := i + 1;
      }
      result := Some(rows);
    }
  }

  /** `createTableCells` */
  function StaticCells(values: seq<string>): (cells: seq<Cell>)
    ensures |cells| == |values|
    ensures forall i :: 0 <= i < |values| ==> cells[i] == Cell(TrimSpace(values[i]), false)
  {
    seq(|values|, i requires 0 <= i < |values| => Cell(TrimSpace(values[i]), false))
  }
}
