/** The line of a table read cell by cell, with a scan ahead for the bar that ends each cell. */
module RowReading {
  import opened Text
  import opened StepText
  import opened StepReading
  import opened TableText

  /** A backslash stands for the next character, at the end for nothing. */
  function Plain(s: string): string
    decreases |s|
  {
    if s == "" || s == "\\" then ""
    else if s[0] == '\\' then [s[1]] + Plain(s[2..])
    else [s[0]] + Plain(s[1..])
  }

  /** The trimmed texts in front of the bars that have no backslash in front. */
  function CellTexts(s: string): seq<string>
    decreases |s|
  {
    var i := FirstUnescaped('|', s);
    if i < 0 then [] else [TrimSpace(Plain(s[..i]))] + CellTexts(s[i + 1..])
  }

  /** What is made of a cell at its bar. */
  function AtBar(text: string, rest: string, args: seq<string>, header: bool): Row {
    var value := TrimSpace(text);
    if header && value == "" then BlankHeader
    else if header && value in args then RepeatedHeader
    else Scan(rest, "", false, args + [value], header)
  }

  lemma {:induction false} ScanToBar(s: string, buffer: string, args: seq<string>, header: bool)
    requires HasUnescaped('|', s)
    ensures var i := FirstUnescaped('|', s);
            Scan(s, buffer, false, args, header) == AtBar(buffer + Plain(s[..i]), s[i + 1..], args, header)
    decreases |s|
  {
    hide TrimSpace;
    var i := FirstUnescaped('|', s);
    if s[0] == '\\' {
      assert s[1..][1..] == s[2..] && s[..i][2..] == s[2..][..i - 2] && s[..i] != "\\";
      ScanToBar(s[2..], buffer + [s[1]], args, header);
      assert buffer + Plain(s[..i]) == buffer + [s[1]] + Plain(s[2..][..i - 2]);
    } else if s[0] == '|' {
      assert buffer + "" == buffer;
    } else {
      assert s[..i][1..] == s[1..][..i - 1] && s[..i] != "\\";
      ScanToBar(s[1..], buffer + [s[0]], args, header);
      assert buffer + Plain(s[..i]) == buffer + [s[0]] + Plain(s[1..][..i - 1]);
    }
  }

  lemma {:induction false} ScanWithoutBar(s: string, buffer: string, args: seq<string>, header: bool)
    requires !HasUnescaped('|', s)
    ensures Scan(s, buffer, false, args, header) == Cells(args)
    decreases |s|
  {
    hide TrimSpace;
    if s == "" {
    } else if s[0] == '\\' {
      if |s| > 1 {
        assert s[1..][1..] == s[2..];
        ScanWithoutBar(s[2..], buffer + [s[1]], args, header);
      } else {
        assert s[1..] == "";
      }
    } else {
      ScanWithoutBar(s[1..], buffer + [s[0]], args, header);
    }
  }

  /** The first cell that is blank or repeated decides about a header. */
  function Judge(args: seq<string>, cells: seq<string>): Row
    decreases |cells|
  {
    if cells == [] then Cells(args)
    else if cells[0] == "" then BlankHeader
    else if cells[0] in args then RepeatedHeader
    else Judge(args + [cells[0]], cells[1..])
  }

  lemma {:induction false} CellsOf(s: string)
    ensures var i := FirstUnescaped('|', s);
            CellTexts(s) == if i < 0 then [] else [TrimSpace(Plain(s[..i]))] + CellTexts(s[i + 1..])
  {
    hide TrimSpace, Plain, FirstUnescaped;
  }

  lemma {:induction false} JudgeNext(args: seq<string>, value: string, cells: seq<string>)
    ensures Judge(args, []) == Cells(args)
    ensures Judge(args, [value] + cells) ==
            if value == "" then BlankHeader else if value in args then RepeatedHeader
            else Judge(args + [value], cells)
  {
    assert ([value] + cells)[1..] == cells;
  }

  lemma {:induction false} ScanReads(s: string, args: seq<string>, header: bool)
    ensures Scan(s, "", false, args, header) ==
            if header then Judge(args, CellTexts(s)) else Cells(args + CellTexts(s))
    decreases |s|
  {
    hide TrimSpace, Plain, Scan, HasUnescaped, FirstUnescaped, CellTexts, Judge;
    var i := FirstUnescaped('|', s);
    CellsOf(s);
    if i < 0 {
      ScanWithoutBar(s, "", args, header);
      JudgeNext(args, "", []);
      assert args + [] == args;
    } else {
      ScanToBar(s, "", args, header);
      var text, rest := Plain(s[..i]), s[i + 1..];
      var value := TrimSpace(text);
      assert "" + text == text;
      ScanReads(rest, args + [value], header);
      JudgeNext(args, value, CellTexts(rest));
      assert args + [value] + CellTexts(rest) == args + ([value] + CellTexts(rest));
    }
  }

  /** Cell `k` is the first one that is blank or stood before. */
  ghost predicate FirstBad(cells: seq<string>, k: nat) {
    && k < |cells| && (cells[k] == "" || cells[k] in cells[..k])
    && forall j :: 0 <= j < k ==> cells[j] != "" && cells[j] !in cells[..j]
  }

  lemma {:induction false} Judged(cells: seq<string>, n: nat)
    requires n <= |cells| && forall j :: 0 <= j < n ==> cells[j] != "" && cells[j] !in cells[..j]
    ensures var r := Judge(cells[..n], cells[n..]);
            && (r.Cells? ==> r == Cells(cells) && forall k: nat :: !FirstBad(cells, k))
            && (r.BlankHeader? ==> exists k: nat :: FirstBad(cells, k) && cells[k] == "")
            && (r.RepeatedHeader? ==> exists k: nat :: FirstBad(cells, k) && cells[k] != "")
    decreases |cells| - n
  {
    if n == |cells| {
      assert cells[..n] == cells;
    } else if cells[n] == "" || cells[n] in cells[..n] {
      assert FirstBad(cells, n);
    } else {
      assert cells[..n + 1] == cells[..n] + [cells[n]] && cells[n..][1..] == cells[n + 1..];
      Judged(cells, n + 1);
    }
  }

  /** A row of a table has the texts between the bars. A header does too when they are distinct and
      not blank; otherwise the first one that is blank or stood before says which error it is. */
  lemma {:induction false} RowIsRead(line: string)
    requires line != ""
    ensures RowOf(line, false) == Cells(CellTexts(line[1..]))
    ensures var cells, r := CellTexts(line[1..]), RowOf(line, true);
            && (r == Cells(cells) <==> forall k: nat :: !FirstBad(cells, k))
            && (r.Cells? ==> r == Cells(cells))
            && (r == BlankHeader <==> exists k: nat :: FirstBad(cells, k) && cells[k] == "")
            && (r == RepeatedHeader <==> exists k: nat :: FirstBad(cells, k) && cells[k] != "")
  {
    hide CellTexts, Scan, FirstBad, Judge;
    var cells := CellTexts(line[1..]);
    ScanReads(line[1..], [], false);
    ScanReads(line[1..], [], true);
    assert [] + cells == cells && cells[..0] == [] && cells[0..] == cells;
    Judged(cells, 0);
    OneFirst(cells);
  }

  lemma {:induction false} OneFirst(cells: seq<string>)
    ensures forall j: nat, k: nat :: FirstBad(cells, j) && FirstBad(cells, k) ==> j == k
  {
  }
}
