/** Reading the lines of a table, and what printing followed by reading keeps. */
module TableText {
  import opened Text
  import opened Tables
  import opened TableFormat

  /* ---------- lines ---------- */

  function DropReturn(line: string): string {
    if line != "" && line[|line| - 1] == '\r' then line[..|line| - 1] else line
  }

  /** `bufio.ScanLines`; `line` is the part of the current line already seen. */
  function SplitLines(text: string, line: string): seq<string>
    decreases |text|
  {
    if text == "" then (if line == "" then [] else [DropReturn(line)])
    else if text[0] == '\n' then [DropReturn(line)] + SplitLines(text[1..], "")
    else SplitLines(text[1..], line + [text[0]])
  }

  predicate IsTableRow(line: string) {
    line != "" && line[0] == '|' && line[|line| - 1] == '|'
  }

  /* ---------- cells of a line ---------- */

  datatype Row = Cells(args: seq<string>) | BlankHeader | RepeatedHeader

  /** The characters after the first one: `buffer` holds the cell begun, `args` those ended. */
  function Scan(text: string, buffer: string, escape: bool, args: seq<string>, header: bool): Row
    decreases |text|
  {
    if text == "" then Cells(args)
    else if escape then Scan(text[1..], buffer + [text[0]], false, args, header)
    else if text[0] == '\\' then Scan(text[1..], buffer, true, args, header)
    else if text[0] == '|' then
      var value := TrimSpace(buffer);
      if header && value == "" then BlankHeader
      else if header && value in args then RepeatedHeader
      else Scan(text[1..], "", false, args + [value], header)
    else Scan(text[1..], buffer + [text[0]], false, args, header)
  }

  function RowOf(line: string, header: bool): Row {
    Scan(if line == "" then "" else line[1..], "", false, [], header)
  }

  method ProcessTable(value: string, header: bool) returns (r: Row)
    ensures r == RowOf(value, header)
  {
    var buffer, shouldEscape, args := "", false, [];
    var i := 0;
    while i < |value|
      invariant 0 <= i <= |value|
      invariant i == 0 ==> buffer == "" && !shouldEscape && args == []
      invariant i > 0 ==> Scan(value[i..], buffer, shouldEscape, args, header) == RowOf(value, header)
    {
      var element := value[i];
      i := i + 1;
      if i == 1 {
        continue;
      }
      assert value[i - 1..][1..] == value[i..];
      if shouldEscape {
        buffer := buffer + [element];
        shouldEscape := false;
      } else if element == '\\' {
        shouldEscape := true;
      } else if element == '|' {
        var trimmedValue := TrimSpace(buffer);
        if header {
          if trimmedValue == "" {
            return BlankHeader;
          }
          if trimmedValue in args {
            return RepeatedHeader;
          }
        }
        args := args + [trimmedValue];
        buffer := "";
      } else {
        buffer := buffer + [element];
      }
    }
    r := Cells(args);
  }

  /** A line of nothing but dashes and blanks is a separator. */
  predicate AreUnderlined(values: seq<string>) {
    values != [] && forall i, j :: 0 <= i < |values| && 0 <= j < |values[i]| ==> values[i][j] == '-'
  }

  /** Each cell by itself decides, and a cell does when it is a run of dashes. */
  lemma {:induction false} UnderlinedByCell(a: seq<string>, b: seq<string>, cell: string)
    ensures AreUnderlined([cell]) <==> cell == Repeat('-', |cell|)
    ensures a != [] && b != [] ==> (AreUnderlined(a + b) <==> AreUnderlined(a) && AreUnderlined(b))
    ensures !AreUnderlined([])
  {
    if AreUnderlined([cell]) {
      assert forall j :: 0 <= j < |[cell][0]| ==> [cell][0][j] == '-';
      assert cell == Repeat('-', |cell|);
    }
    if AreUnderlined(a + b) {
      assert forall i :: 0 <= i < |a| ==> (a + b)[i] == a[i];
      assert forall i :: 0 <= i < |b| ==> (a + b)[|a| + i] == b[i];
    }
  }

  /* ---------- a whole table ---------- */

  /** The rows of the lines that are not separators. */
  function DataRows(lines: seq<string>): seq<seq<string>> {
    if lines == [] then []
    else
      var front := DataRows(lines[..|lines| - 1]);
      var row := RowOf(TrimSpace(lines[|lines| - 1]), false);
      if row.Cells? && !AreUnderlined(row.args) then front + [row.args] else front
  }

  function SizedRow(row: seq<string>, n: nat): (r: seq<string>)
    ensures |r| == n
  {
    seq(n, i requires 0 <= i => if i < |row| then TrimSpace(row[i]) else "")
  }

  /** The columns hold the rows, cut or filled up to `n` cells, as static cells. */
  ghost predicate Stores(columns: seq<seq<Cell>>, rows: seq<seq<string>>, n: nat) {
    && |columns| == n
    && forall c :: 0 <= c < n ==>
         && |columns[c]| == |rows|
         && forall r :: 0 <= r < |rows| ==> columns[c][r] == Cell(SizedRow(rows[r], n)[c], false)
  }

  lemma {:induction false} StoresMore(columns: seq<seq<Cell>>, columns': seq<seq<Cell>>,
                                      rows: seq<seq<string>>, row: seq<string>, n: nat)
    requires Stores(columns, rows, n) && |columns'| == n
    requires forall c :: 0 <= c < n ==> columns'[c] == columns[c] + [Sized(StaticCells(row), n)[c]]
    ensures Stores(columns', rows + [row], n)
  {
  }

  /** One table line for each of `lines`, the first one being the header. */
  method ReadTable(lines: seq<string>) returns (header: Row, table: Table)
    requires lines != []
    ensures header == RowOf(TrimSpace(lines[0]), true)
    ensures header.Cells? ==>
              && table.Valid() && table.headers == TrimAll(header.args)
              && Stores(table.columns, DataRows(lines[1..]), |table.headers|)
  {
    hide AreUnderlined, RowOf, TrimSpace;
    table := new Table();
    header := ProcessTable(TrimSpace(lines[0]), true);
    if !header.Cells? {
      return;
    }
    table.AddHeaders(header.args);
    ghost var n := |table.headers|;
    ghost var body := lines[1..];
    var i := 1;
    assert body[..0] == [];
    while i < |lines|
      invariant 1 <= i <= |lines| && table.Valid() && fresh(table)
      invariant table.headers == TrimAll(header.args) && n == |table.headers|
      invariant Stores(table.columns, DataRows(body[..i - 1]), n)
    {
      assert body[..i][..i - 1] == body[..i - 1];
      var row := ProcessTable(TrimSpace(lines[i]), false);
      if row.Cells? && !AreUnderlined(row.args) {
        ghost var before := table.columns;
        table.AddRowValues(row.args);
        StoresMore(before, table.columns, DataRows(body[..i - 1]), row.args, n);
      }
      i := i + 1;
    }
    assert body[..i - 1] == body;
  }

  /* ---------- reading one printed line ---------- */

  /** A cell that the printer can write without escapes. */
  ghost predicate Writable(cell: string) {
    NoneOf(cell, "|\\\n") && Trimmed(cell)
  }

  lemma {:induction false} ScanText(t: string, rest: string, buffer: string, args: seq<string>, header: bool)
    requires NoneOf(t, "|\\")
    ensures Scan(t + rest, buffer, false, args, header) == Scan(rest, buffer + t, false, args, header)
    decreases |t|
  {
    if t == "" {
      assert t + rest == rest && buffer + t == buffer;
    } else {
      assert t[0] !in "|\\";
      assert (t + rest)[1..] == t[1..] + rest && buffer + [t[0]] + t[1..] == buffer + t;
      ScanText(t[1..], rest, buffer + [t[0]], args, header);
    }
  }

  lemma {:induction false} TrimSpaces(n: nat)
    ensures TrimLeft(Repeat(' ', n)) == ""
  {
    if n > 0 {
      assert Repeat(' ', n)[1..] == Repeat(' ', n - 1);
      TrimSpaces(n - 1);
    }
  }

  lemma {:induction false} TrimTrailing(s: string, n: nat)
    requires s != "" && !IsSpace(s[|s| - 1])
    ensures TrimRight(s + Repeat(' ', n)) == s
  {
    var t := s + Repeat(' ', n);
    if n == 0 {
      assert t == s;
    } else {
      assert t[..|t| - 1] == s + Repeat(' ', n - 1);
      TrimTrailing(s, n - 1);
    }
  }

  lemma {:induction false} TrimLeading(s: string, n: nat)
    requires s != "" && !IsSpace(s[0])
    ensures TrimLeft(Repeat(' ', n) + s) == s
  {
    var t := Repeat(' ', n) + s;
    if n == 0 {
      assert t == s;
    } else {
      assert t[1..] == Repeat(' ', n - 1) + s;
      TrimLeading(s, n - 1);
    }
  }

  lemma {:induction false} TrimPadded(cell: string, width: nat)
    requires Trimmed(cell)
    ensures TrimSpace(Pad(cell, width)) == cell
  {
    var n := width - Width(cell);
    if cell == "" {
      assert Pad(cell, width) == Repeat(' ', n);
      TrimSpaces(|Repeat(' ', n)|);
    } else {
      var p := Pad(cell, width);
      assert p[0] == cell[0] && TrimLeft(p) == p;
      TrimTrailing(cell, |Repeat(' ', n)|);
    }
  }

  /** Cells that a header token may hold. */
  ghost predicate HeaderCells(cells: seq<string>) {
    Distinct(cells) && "" !in cells
  }

  lemma {:induction false} ScanCell(cell: string, width: nat, rest: string, args: seq<string>, header: bool)
    requires Writable(cell) && (header ==> cell != "" && cell !in args)
    ensures Scan(Pad(cell, width) + ("|" + rest), "", false, args, header) ==
            Scan(rest, "", false, args + [cell], header)
  {
    var p := Pad(cell, width);
    ScanText(p, "|" + rest, "", args, header);
    assert "" + p == p && ("|" + rest)[1..] == rest;
    TrimPadded(cell, width);
  }

  lemma {:induction false} FrontCells(cells: seq<string>, n: nat)
    requires n < |cells|
    ensures HeaderCells(cells) ==> HeaderCells(cells[..n]) && cells[n] != "" && cells[n] !in cells[..n]
  {
  }

  lemma {:induction false} ScanCells(cells: seq<string>, widths: seq<nat>, rest: string, header: bool)
    requires |cells| <= |widths| && (forall i :: 0 <= i < |cells| ==> Writable(cells[i]))
    requires header ==> HeaderCells(cells)
    ensures Scan(PaddedCells(cells, widths) + rest, "", false, [], header) == Scan(rest, "", false, cells, header)
  {
    hide Scan, Pad, Writable, HeaderCells;
    if cells == [] {
      assert PaddedCells(cells, widths) + rest == rest;
    } else {
      var n := |cells| - 1;
      var front, p := cells[..n], Pad(cells[n], widths[n]);
      FrontCells(cells, n);
      ScanCells(front, widths, p + ("|" + rest), header);
      assert PaddedCells(cells, widths) + rest == PaddedCells(front, widths) + (p + ("|" + rest));
      ScanCell(cells[n], widths[n], rest, front, header);
      assert front + [cells[n]] == cells;
    }
  }

  /** A printed line, trimmed, is a table line and gives its cells back. */
  lemma {:induction false} LineRoundTrip(cells: seq<string>, widths: seq<nat>, header: bool)
    requires |cells| <= |widths| && (forall i :: 0 <= i < |cells| ==> Writable(cells[i]))
    requires header ==> HeaderCells(cells)
    ensures var line := TrimSpace(Line(cells, widths));
            IsTableRow(line) && RowOf(line, header) == Cells(cells)
  {
    var padded := PaddedCells(cells, widths);
    var line := "|" + padded;
    assert Line(cells, widths) == Repeat(' ', TABLE_LEFT_SPACING) + line;
    assert line[|line| - 1] == '|' && line[0] == '|';
    TrimLeading(line, TABLE_LEFT_SPACING);
    ScanCells(cells, widths, "", header);
    assert padded + "" == padded && line[1..] == padded;
  }

  /* ---------- the whole table ---------- */

  /** Everything the table shows can be written, and its headers can head a table. */
  ghost predicate Printable(g: Grid) {
    && g.Rectangular() && g.headers != [] && HeaderCells(g.headers)
    && (forall c :: 0 <= c < |g.headers| ==> Writable(g.headers[c]))
    && (forall r, c :: 0 <= r < g.Height() && 0 <= c < |g.headers| ==> Writable(g.Row(r)[c]))
  }

  /** The shown rows that are not made of dashes and blanks only. */
  function KeptRows(g: Grid, n: nat): seq<seq<string>>
    requires g.Rectangular() && n <= g.Height()
  {
    if n == 0 then []
    else if AreUnderlined(g.Row(n - 1)) then KeptRows(g, n - 1)
    else KeptRows(g, n - 1) + [g.Row(n - 1)]
  }

  lemma {:induction false} DashesAreSeparator(g: Grid)
    requires Printable(g)
    ensures forall i :: 0 <= i < |Dashes(Widths(g))| ==> Writable(Dashes(Widths(g))[i])
    ensures AreUnderlined(Dashes(Widths(g)))
  {
  }

  lemma {:induction false} PrintableCells(g: Grid)
    requires Printable(g)
    ensures g.Rectangular() && HeaderCells(g.headers) && (forall h :: h in g.headers ==> Writable(h))
    ensures forall r :: 0 <= r < g.Height() ==>
              |g.Row(r)| == |g.headers| && forall c :: 0 <= c < |g.Row(r)| ==> Writable(g.Row(r)[c])
  {
    hide Writable;
  }

  lemma {:induction false} RowsRoundTrip(g: Grid, n: nat)
    requires Printable(g) && n <= g.Height()
    ensures DataRows(Lines(g, n)[1..]) == KeptRows(g, n)
    ensures forall i :: 0 <= i < n + 2 ==> IsTableRow(TrimSpace(Lines(g, n)[i]))
    ensures RowOf(TrimSpace(Lines(g, n)[0]), true) == Cells(g.headers)
  {
    hide IsTableRow, RowOf, TrimSpace, Line, Widths, Dashes, AreUnderlined, Writable, Printable, Grid.Row;
    PrintableCells(g);
    var widths := Widths(g);
    if n == 0 {
      DashesAreSeparator(g);
      LineRoundTrip(g.headers, widths, true);
      LineRoundTrip(Dashes(widths), widths, false);
      var lines := Lines(g, 0)[1..];
      assert lines == [Line(Dashes(widths), widths)] && lines[..0] == [];
    } else {
      RowsRoundTrip(g, n - 1);
      var line := Line(g.Row(n - 1), widths);
      LineRoundTrip(g.Row(n - 1), widths, false);
      var lines := Lines(g, n)[1..];
      assert lines == Lines(g, n - 1)[1..] + [line] && lines[..n] == Lines(g, n - 1)[1..];
    }
  }

  lemma {:induction false} KeptRowsAreAllRows(g: Grid, n: nat)
    requires g.Rectangular() && n <= g.Height()
    ensures |KeptRows(g, n)| <= n
    ensures KeptRows(g, n) == g.Rows(n) <==> forall r :: 0 <= r < n ==> !AreUnderlined(g.Row(r))
  {
    hide AreUnderlined;
    if n > 0 {
      KeptRowsAreAllRows(g, n - 1);
      if !AreUnderlined(g.Row(n - 1)) {
        assert KeptRows(g, n)[..|KeptRows(g, n)| - 1] == KeptRows(g, n - 1);
        assert g.Rows(n)[..n - 1] == g.Rows(n - 1);
      }
    }
  }

  /* ---------- text and lines ---------- */

  lemma {:induction false} SplitOneLine(t: string, rest: string, line: string)
    requires '\n' !in t
    ensures SplitLines(t + ("\n" + rest), line) == [DropReturn(line + t)] + SplitLines(rest, "")
    decreases |t|
  {
    var s := t + ("\n" + rest);
    if t == "" {
      assert s == "\n" + rest && s[1..] == rest && line + t == line;
    } else {
      assert s[0] == t[0] && t[0] in t && s[1..] == t[1..] + ("\n" + rest);
      SplitOneLine(t[1..], rest, line + [t[0]]);
      assert line + [t[0]] + t[1..] == line + t;
    }
  }

  ghost predicate PlainLine(line: string) {
    '\n' !in line && line != "" && line[|line| - 1] == '|'
  }

  lemma {:induction false} SplitUnlines(lines: seq<string>, rest: string)
    requires forall line :: line in lines ==> PlainLine(line)
    ensures SplitLines(Unlines(lines) + rest, "") == lines + SplitLines(rest, "")
    decreases |lines|
  {
    if lines == [] {
      assert Unlines(lines) + rest == rest;
    } else {
      var n := |lines| - 1;
      var front, last := lines[..n], lines[n];
      assert last in lines && forall line :: line in front ==> line in lines;
      SplitUnlines(front, last + ("\n" + rest));
      SplitOneLine(last, rest, "");
      assert Unlines(lines) + rest == Unlines(front) + (last + ("\n" + rest));
      assert "" + last == last && DropReturn(last) == last && front + [last] == lines;
      assert front + ([last] + SplitLines(rest, "")) == lines + SplitLines(rest, "");
    }
  }

  lemma {:induction false} PaddedIsPlain(cells: seq<string>, widths: seq<nat>)
    requires |cells| <= |widths| && (forall i :: 0 <= i < |cells| ==> Writable(cells[i]))
    ensures '\n' !in PaddedCells(cells, widths)
    ensures cells != [] ==> PlainLine(Line(cells, widths))
  {
    if cells != [] {
      var n := |cells| - 1;
      PaddedIsPlain(cells[..n], widths);
      assert '\n' !in Pad(cells[n], widths[n]);
    }
  }

  lemma {:induction false} LinesArePlain(g: Grid, n: nat)
    requires Printable(g) && n <= g.Height()
    ensures forall line :: line in Lines(g, n) ==> PlainLine(line)
  {
    hide Line, PlainLine, Widths, Dashes, Printable, Grid.Row, Writable;
    PrintableCells(g);
    if n == 0 {
      DashesAreSeparator(g);
      PaddedIsPlain(g.headers, Widths(g));
      PaddedIsPlain(Dashes(Widths(g)), Widths(g));
    } else {
      LinesArePlain(g, n - 1);
      PaddedIsPlain(g.Row(n - 1), Widths(g));
    }
  }

  /** Printing a table and reading its lines gives back the headers, and all shown rows
      except those that look like the separator. */
  lemma {:induction false} TableRoundTrip(g: Grid)
    requires Printable(g)
    ensures var lines := SplitLines(Unlines(Lines(g, g.Height())), "");
            && |lines| == g.Height() + 2
            && (forall i :: 0 <= i < |lines| ==> IsTableRow(TrimSpace(lines[i])))
            && RowOf(TrimSpace(lines[0]), true) == Cells(g.headers)
            && DataRows(lines[1..]) == KeptRows(g, g.Height())
            && (DataRows(lines[1..]) == g.Rows(g.Height()) <==>
                forall r :: 0 <= r < g.Height() ==> !AreUnderlined(g.Row(r)))
  {
    hide TrimSpace, IsTableRow, RowOf, AreUnderlined, PlainLine, Lines, Unlines, DataRows, KeptRows;
    var h := g.Height();
    LinesArePlain(g, h);
    SplitUnlines(Lines(g, h), "");
    assert Unlines(Lines(g, h)) + "" == Unlines(Lines(g, h)) && SplitLines("", "") == [];
    assert Lines(g, h) + [] == Lines(g, h);
    RowsRoundTrip(g, h);
    KeptRowsAreAllRows(g, h);
  }

  /** A table with one row of dashes. */
  const DASHES_TABLE := Grid(["id"], [[Cell("--", false)]])

  /** Its row is lost: the line printed for it looks like the separator. */
  lemma {:induction false} RowOfDashesIsLost()
    ensures var g := DASHES_TABLE;
            var lines := SplitLines(Unlines(Lines(g, g.Height())), "");
            Printable(g) && g.Rows(g.Height()) == [["--"]] && |lines| == 3 && DataRows(lines[1..]) == []
  {
    hide DataRows, Lines, Unlines, SplitLines, TrimSpace, IsTableRow, RowOf, Printable;
    DashesTable();
    TableRoundTrip(DASHES_TABLE);
  }

  lemma {:induction false} DashesTable()
    ensures var g := DASHES_TABLE;
            && Printable(g) && g.Height() == 1 && g.Rows(1) == [["--"]] && AreUnderlined(g.Row(0))
            && KeptRows(g, 1) == []
  {
    var g := DASHES_TABLE;
    assert g.Row(0) == ["--"] && g.Rows(0) == [];
    assert AreUnderlined(g.Row(0)) && KeptRows(g, 0) == [];
  }

  /** Printing a table, and storing the headers and rows read from the lines as `ReadTable`
      does, gives a table that shows exactly the kept rows under the same headers. */
  lemma {:induction false} StoredTableShowsKeptRows(g: Grid, t: Grid)
    requires Printable(g) && t.Rectangular() && t.headers == TrimAll(g.headers)
    requires Stores(t.columns, KeptRows(g, g.Height()), |t.headers|)
    ensures t.headers == g.headers && t.Height() == |KeptRows(g, g.Height())|
    ensures t.Rows(t.Height()) == KeptRows(g, g.Height())
  {
    var kept := KeptRows(g, g.Height());
    forall c | 0 <= c < |g.headers| ensures TrimSpace(g.headers[c]) == g.headers[c] {
      TrimSpaceIsIdentity(g.headers[c]);
    }
    KeptRowsAreTrimmed(g, g.Height());
    assert t.headers == g.headers;
    forall r, c | 0 <= r < t.Height() && 0 <= c < |t.headers| ensures t.Row(r)[c] == kept[r][c] {
      ShowsOwnCells(t);
      TrimSpaceIsIdentity(kept[r][c]);
    }
    forall r | 0 <= r < t.Height() ensures t.Rows(t.Height())[r] == kept[r] {
      assert t.Row(r) == kept[r];
    }
  }

  lemma {:induction false} KeptRowsAreTrimmed(g: Grid, n: nat)
    requires Printable(g) && n <= g.Height()
    ensures forall r :: 0 <= r < |KeptRows(g, n)| ==>
              && |KeptRows(g, n)[r]| == |g.headers|
              && forall c :: 0 <= c < |g.headers| ==> Trimmed(KeptRows(g, n)[r][c])
  {
    if n > 0 {
      KeptRowsAreTrimmed(g, n - 1);
    }
  }

  /* ---------- alignment ---------- */

  lemma {:induction false} WidthAppend(a: string, b: string)
    ensures Width(a + b) == Width(a) + Width(b)
  {
    if a == "" {
      assert a + b == b;
    } else {
      assert (a + b)[1..] == a[1..] + b;
      WidthAppend(a[1..], b);
    }
  }

  lemma {:induction false} WidthOfSpaces(n: nat)
    ensures Width(Repeat(' ', n)) == n
  {
    if n > 0 {
      assert Repeat(' ', n)[1..] == Repeat(' ', n - 1);
      WidthOfSpaces(n - 1);
    }
  }

  function Total(widths: seq<nat>, n: nat): nat
    requires n <= |widths|
  {
    if n == 0 then 0 else Total(widths, n - 1) + widths[n - 1] + 1
  }

  lemma {:induction false} PaddedWidth(cells: seq<string>, widths: seq<nat>)
    requires |cells| <= |widths| && forall i :: 0 <= i < |cells| ==> Width(cells[i]) <= widths[i]
    ensures Width(PaddedCells(cells, widths)) == Total(widths, |cells|)
  {
    if cells != [] {
      var n := |cells| - 1;
      var front := PaddedCells(cells[..n], widths);
      PaddedWidth(cells[..n], widths);
      WidthAppend(cells[n], Repeat(' ', widths[n] - Width(cells[n])));
      WidthOfSpaces(widths[n] - Width(cells[n]));
      WidthAppend(front, Pad(cells[n], widths[n]));
      WidthAppend(front + Pad(cells[n], widths[n]), "|");
      assert Width("|") == 1 by { assert "|"[1..] == ""; }
    }
  }

  lemma {:induction false} LineWidth(cells: seq<string>, widths: seq<nat>)
    requires |cells| == |widths| && forall i :: 0 <= i < |cells| ==> Width(cells[i]) <= widths[i]
    ensures Width(Line(cells, widths)) == TABLE_LEFT_SPACING + 1 + Total(widths, |widths|)
  {
    PaddedWidth(cells, widths);
    WidthOfSpaces(TABLE_LEFT_SPACING);
    WidthAppend(Repeat(' ', TABLE_LEFT_SPACING), "|");
    WidthAppend(Repeat(' ', TABLE_LEFT_SPACING) + "|", PaddedCells(cells, widths));
    assert Width("|") == 1 by { assert "|"[1..] == ""; }
  }

  /** No cell is wider than its column. */
  lemma {:induction false} CellsFit(g: Grid, r: nat)
    requires g.Rectangular()
    ensures forall c :: 0 <= c < |g.headers| ==> Width(g.headers[c]) <= Widths(g)[c]
    ensures r < g.Height() ==> forall c :: 0 <= c < |g.headers| ==> Width(g.Row(r)[c]) <= Widths(g)[c]
  {
    if r < g.Height() {
      forall c | 0 <= c < |g.headers| ensures Width(g.Row(r)[c]) <= Widths(g)[c] {
        LongestFits(g.columns[LastIndex(g.headers, g.headers[c])], Width(g.headers[c]), r);
      }
    }
  }

  lemma {:induction false} DashesFit(widths: seq<nat>)
    ensures forall c :: 0 <= c < |widths| ==> Width(Dashes(widths)[c]) <= widths[c]
  {
    forall c | 0 <= c < |widths| ensures Width(Dashes(widths)[c]) <= widths[c] {
      WidthOfDashes(widths[c]);
    }
  }

  lemma {:induction false} WidthOfDashes(n: nat)
    ensures Width(Repeat('-', n)) == n
  {
    if n > 0 {
      assert Repeat('-', n)[1..] == Repeat('-', n - 1);
      WidthOfDashes(n - 1);
    }
  }

  /** All lines of a printed table have the same length in bytes. */
  lemma {:induction false} LinesAlign(g: Grid, n: nat)
    requires g.Rectangular() && n <= g.Height()
    ensures forall line :: line in Lines(g, n) ==>
              Width(line) == TABLE_LEFT_SPACING + 1 + Total(Widths(g), |g.headers|)
  {
    hide Line, Widths, Dashes, Width, Total;
    if n == 0 {
      CellsFit(g, 0);
      LineWidth(g.headers, Widths(g));
      DashesFit(Widths(g));
      LineWidth(Dashes(Widths(g)), Widths(g));
    } else {
      LinesAlign(g, n - 1);
      CellsFit(g, n - 1);
      LineWidth(g.Row(n - 1), Widths(g));
    }
  }
}
