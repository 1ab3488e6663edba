/** The table printer and its round trip through the line parser and the column store. */
module TableFormat {
  import opened Text
  import opened Tables

  const TABLE_LEFT_SPACING := 5

  /* ---------- the printer ---------- */

  /** Bytes of a character in UTF-8. */
  function CharWidth(c: char): nat {
    if c < '\U{80}' then 1 else if c < '\U{800}' then 2 else if c < '\U{10000}' then 3 else 4
  }

  /** `len` of a Go string. */
  function Width(s: string): nat {
    if s == "" then 0 else CharWidth(s[0]) + Width(s[1..])
  }

  function Repeat(c: char, n: int): (s: string)
    ensures |s| == (if n < 0 then 0 else n) && forall i :: 0 <= i < |s| ==> s[i] == c
  {
    if n <= 0 then "" else [c] + Repeat(c, n - 1)
  }

  /** In UTF-8 a character has as many bytes as it has groups of bits to hold: seven in one byte,
      and otherwise six in each further byte with five, four or three in the first one. */
  lemma {:induction false} WidthHoldsChar(c: char)
    ensures var w := CharWidth(c);
            && (w == 1 <==> c as int < 128)
            && (w == 2 <==> 128 <= c as int < 32 * 64)
            && (w == 3 <==> 32 * 64 <= c as int < 16 * 64 * 64)
            && (w == 4 <==> 16 * 64 * 64 <= c as int < 8 * 64 * 64 * 64)
  {
  }

  /** `addPaddingToCell`: the cell comes first, and blanks fill it up. */
  function Pad(cell: string, width: nat): (padded: string)
    ensures |padded| == |cell| + if Width(cell) < width then width - Width(cell) else 0
    ensures cell <= padded && forall i :: |cell| <= i < |padded| ==> padded[i] == ' '
  {
    cell + Repeat(' ', width - Width(cell))
  }

  function Longest(cells: seq<Cell>, least: nat): (w: nat)
    ensures w >= least
  {
    if cells == [] then least
    else
      var w := Longest(cells[..|cells| - 1], least);
      var last := Width(cells[|cells| - 1].GetValue());
      if last > w then last else w
  }

  lemma {:induction false} LongestFits(cells: seq<Cell>, least: nat, i: nat)
    requires i < |cells|
    ensures Width(cells[i].GetValue()) <= Longest(cells, least)
    ensures Longest(cells, least) == least
            || exists k :: 0 <= k < |cells| && Longest(cells, least) == Width(cells[k].GetValue())
  {
    var n := |cells| - 1;
    assert cells[n] in cells;
    if n > 0 {
      LongestFits(cells[..n], least, if i < n then i else 0);
      assert forall k :: 0 <= k < n ==> cells[..n][k] == cells[k];
    }
  }

  /** `findLongestCellWidth` */
  method FindLongestCellWidth(columnCells: seq<Cell>, minValue: nat) returns (longestLength: nat)
    ensures longestLength == Longest(columnCells, minValue)
  {
    longestLength := minValue;
    var i := 0;
    while i < |columnCells|
      invariant 0 <= i <= |columnCells| && longestLength == Longest(columnCells[..i], minValue)
    {
      assert columnCells[..i + 1][..i] == columnCells[..i];
      var cellValueLen := Width(columnCells[i].GetValue());
      if cellValueLen > longestLength {
        longestLength := cellValueLen;
      }
      i := i + 1;
    }
    assert columnCells[..i] == columnCells;
  }

  /** The widths of the columns as they are shown. */
  function Widths(g: Grid): (w: seq<nat>)
    requires g.Rectangular()
    ensures |w| == |g.headers|
  {
    seq(|g.headers|, c requires 0 <= c < |g.headers| =>
      Longest(g.columns[LastIndex(g.headers, g.headers[c])], Width(g.headers[c])))
  }

  function PaddedCells(cells: seq<string>, widths: seq<nat>): string
    requires |cells| <= |widths|
  {
    if cells == [] then ""
    else PaddedCells(cells[..|cells| - 1], widths) + Pad(cells[|cells| - 1], widths[|cells| - 1]) + "|"
  }

  function Line(cells: seq<string>, widths: seq<nat>): string
    requires |cells| <= |widths|
  {
    Repeat(' ', TABLE_LEFT_SPACING) + "|" + PaddedCells(cells, widths)
  }

  function Dashes(widths: seq<nat>): (cells: seq<string>)
    ensures |cells| == |widths|
  {
    seq(|widths|, i requires 0 <= i < |widths| => Repeat('-', widths[i]))
  }

  /** The lines of a printed table: header, separator, rows. */
  function Lines(g: Grid, n: nat): (lines: seq<string>)
    requires g.Rectangular() && n <= g.Height()
    ensures |lines| == n + 2
  {
    if n == 0 then [Line(g.headers, Widths(g)), Line(Dashes(Widths(g)), Widths(g))]
    else Lines(g, n - 1) + [Line(g.Row(n - 1), Widths(g))]
  }

  function Unlines(lines: seq<string>): string {
    if lines == [] then "" else Unlines(lines[..|lines| - 1]) + lines[|lines| - 1] + "\n"
  }

  method FormatLine(cells: seq<string>, widths: seq<nat>) returns (line: string)
    requires |cells| <= |widths|
    ensures line == Line(cells, widths)
  {
    line := Repeat(' ', TABLE_LEFT_SPACING) + "|";
    var i := 0;
    while i < |cells|
      invariant 0 <= i <= |cells|
      invariant line == Repeat(' ', TABLE_LEFT_SPACING) + "|" + PaddedCells(cells[..i], widths)
    {
      assert cells[..i + 1][..i] == cells[..i];
      line := line + (Pad(cells[i], widths[i]) + "|");
      i := i + 1;
    }
    assert cells[..i] == cells;
  }

  method ColumnWidths(table: Table) returns (widths: seq<nat>)
    requires table.Valid()
    ensures widths == Widths(table.Value())
  {
    widths := [];
    var i := 0;
    while i < |table.headers|
      invariant 0 <= i <= |table.headers| && widths == Widths(table.Value())[..i]
    {
      assert table.headers[i] in table.headers;
      var cells := table.columns[table.headerIndexMap.value[table.headers[i]]];
      var width := FindLongestCellWidth(cells, Width(table.headers[i]));
      widths := widths + [width];
      i := i + 1;
    }
  }

  /** A table that was never filled is printed as two bare lines; None where the program stops. */
  method FormatTable(table: Table) returns (result: Option<string>)
    requires table.Valid()
    ensures result == if table.IsInitialized() && table.headers == [] then None
                      else Some(Unlines(Lines(table.Value(), table.Value().Height())))
  {
    hide Line, Widths, Unlines, Dashes;
    ghost var g := table.Value();
    var columnToWidth := ColumnWidths(table);
    var headerLine := FormatLine(table.headers, columnToWidth);
    var separatorLine := FormatLine(Dashes(columnToWidth), columnToWidth);
    var text := headerLine + "\n" + separatorLine + "\n";
    UnlinesOfTwo(headerLine, separatorLine);
    var tableRows := table.GetRows();
    if tableRows.None? {
      return None;
    }
    var rows := tableRows.value;
    var i := 0;
    while i < |rows|
      invariant 0 <= i <= |rows| && text == Unlines(Lines(g, i))
    {
      var line := FormatLine(rows[i], columnToWidth);
      UnlinesAppend(Lines(g, i), line);
      text := text + line + "\n";
      i := i + 1;
    }
    result := Some(text);
  }

  lemma {:induction false} UnlinesOfTwo(a: string, b: string)
    ensures Unlines([a, b]) == a + "\n" + b + "\n"
  {
    UnlinesAppend([], a);
    UnlinesAppend([a], b);
    assert [a, b] == [a] + [b] && [] + [a] == [a];
    assert "" + a == a;
  }

  lemma {:induction false} UnlinesAppend(lines: seq<string>, line: string)
    ensures Unlines(lines + [line]) == Unlines(lines) + line + "\n"
  {
    assert (lines + [line])[..|lines|] == lines;
  }
}
