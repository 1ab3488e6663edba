/** Printing whole steps, also those with an inline table, and reading them back line by line. */
module StepPrinting {
  import opened Text
  import opened StepText
  import opened StepFormat
  import opened Tables
  import opened TableFormat
  import TableText

  datatype PrintArg = Inline(arg: StepArg) | InTable(table: Table)

  /** The text in the place of an argument; None where the printer of tables stops. */
  function ArgText(arg: PrintArg, printable: char -> bool): Option<string>
    requires arg.InTable? ==> arg.table.Valid()
    reads if arg.InTable? then {arg.table} else {}
  {
    match arg
    case Inline(a) => Some(FormatArg(a, printable))
    case InTable(table) =>
      if table.IsInitialized() && table.headers == [] then None
      else Some("\n" + Unlines(Lines(table.Value(), table.Value().Height())))
  }

  ghost function TablesOf(args: seq<PrintArg>): set<Table> {
    set a | a in args && a.InTable? :: a.table
  }

  ghost predicate ValidTables(args: seq<PrintArg>)
    reads TablesOf(args)
  {
    forall a :: a in args && a.InTable? ==> a.table.Valid()
  }

  /** All arguments can be printed, as `texts`. */
  ghost predicate Print(args: seq<PrintArg>, texts: seq<string>, printable: char -> bool)
    requires ValidTables(args)
    reads TablesOf(args)
  {
    |texts| == |args| && forall i :: 0 <= i < |args| ==> ArgText(args[i], printable) == Some(texts[i])
  }

  /** A line of its own for the step, unless it ends with the lines of a table. */
  function StepLineOf(text: string): (line: string)
    ensures "* " + text <= line && line[|line| - 1] == '\n'
    ensures |line| == |text| + if text != "" && text[|text| - 1] == '\n' then 2 else 3
  {
    "* " + text + (if text != "" && text[|text| - 1] == '\n' then "" else "\n")
  }

  lemma {:induction false} FillNext(s: string, fills: seq<string>, fill: string)
    ensures Fill(s, fills + [fill]) == ReplaceHole(Fill(s, fills), fill)
    decreases |fills|
  {
    hide ReplaceHole;
    if fills == [] {
      assert fills + [fill] == [fill] && [fill][1..] == [];
    } else {
      assert (fills + [fill])[1..] == fills[1..] + [fill];
      FillNext(ReplaceHole(s, fills[0]), fills[1..], fill);
    }
  }

  lemma {:induction false} FillNothing(s: string)
    ensures Fill(s, []) == s
  {
  }

  /** `formatStep`: every placeholder is replaced in turn, looking again from the front. The
      program stops exactly when an argument is missing or a table has no columns. */
  method FormatStep(value: string, args: seq<PrintArg>, printable: char -> bool)
      returns (line: Option<string>, ghost texts: seq<string>)
    requires ValidTables(args)
    ensures line.Some? <==>
            && CountHoles(value) <= |args|
            && forall i :: 0 <= i < CountHoles(value) ==> ArgText(args[i], printable).Some?
    ensures line.Some? ==>
            && CountHoles(value) <= |args| && Print(args[..CountHoles(value)], texts, printable)
            && line == Some(StepLineOf(Fill(value, texts)))
  {
    hide CountHoles, ReplaceHole, Unlines, Lines, Fill, ArgText;
    FillNothing(value);
    var text := value;
    var paramCount := CountHoles(text);
    texts := [];
    var i := 0;
    while i < paramCount
      invariant 0 <= i <= paramCount && i <= |args|
      invariant |texts| == i && forall k :: 0 <= k < i ==> ArgText(args[k], printable) == Some(texts[k])
      invariant text == Fill(value, texts)
    {
      if i >= |args| {
        return None, texts;
      }
      var formattedArg := Argument(args[i], printable);
      if formattedArg.None? {
        return None, texts;
      }
      FillNext(value, texts, formattedArg.value);
      text := ReplaceHole(text, formattedArg.value);
      texts := texts + [formattedArg.value];
      i := i + 1;
    }
    assert "* " + text + "" == "* " + text;
    line := Some(if text != "" && text[|text| - 1] == '\n' then "* " + text else "* " + text + "\n");
  }

  method Argument(arg: PrintArg, printable: char -> bool) returns (text: Option<string>)
    requires arg.InTable? ==> arg.table.Valid()
    ensures text == ArgText(arg, printable)
  {
    match arg
    case Inline(a) => text := Some(FormatArg(a, printable));
    case InTable(table) =>
      var formattedTable := FormatTable(table);
      text := if formattedTable.None? then None else Some("\n" + formattedTable.value);
  }

  /* ---------- a step that ends with a table ---------- */

  function TableLines(g: Grid): string
    requires g.Rectangular()
  {
    Unlines(Lines(g, g.Height()))
  }

  lemma {:induction false} LiteralIsClean(s: string)
    requires Literal(s) || s == " "
    ensures Clean(s)
  {
  }

  lemma {:induction false} FirstHole(texts: seq<string>, n: nat, rest: string)
    requires |texts| == n + 2
    ensures Weave(texts, Holes(n + 1)) + rest == texts[0] + ("{}" + (Weave(texts[1..], Holes(n)) + rest))
  {
    assert Holes(n + 1)[1..] == Holes(n);
  }

  lemma {:induction false} FillFirstHole(p: string, rest: string, fill: string, fills: seq<string>)
    requires Clean(p)
    ensures Fill(p + ("{}" + rest), [fill] + fills) == Fill((p + fill) + rest, fills)
  {
    hide ReplaceHole;
    ReplaceFirstHole(p, rest, fill);
    assert ([fill] + fills)[1..] == fills && p + (fill + rest) == (p + fill) + rest;
  }

  /** The last placeholder may take anything, since nothing is replaced after it. */
  lemma {:induction false} FillInFront(p: string, texts: seq<string>, fills: seq<string>, last: string)
    requires |texts| == |fills| + 1 && Clean(p)
    requires forall t :: t in texts ==> Literal(t)
    requires forall f :: f in fills ==> Clean(f)
    ensures Fill(p + (Weave(texts, Holes(|fills|)) + " {}"), fills + [last]) == p + (Weave(texts, fills) + (" " + last))
    decreases |fills|
  {
    hide Clean, Literal, Fill, Weave;
    assert texts[0] in texts;
    LiteralIsClean(texts[0]);
    CleanAppend(p, texts[0]);
    if fills == [] {
      NoFills(texts);
      var front := (p + texts[0]) + " ";
      LiteralIsClean(" ");
      CleanAppend(p + texts[0], " ");
      FillFirstHole(front, "", last, []);
      FillNothing((front + last) + "");
      assert p + (texts[0] + " {}") == front + ("{}" + "") && fills + [last] == [last] + [];
      assert (front + last) + "" == p + (texts[0] + (" " + last));
    } else {
      var n, q := |fills| - 1, (p + texts[0]) + fills[0];
      assert fills[0] in fills;
      CleanAppend(p + texts[0], fills[0]);
      var rest := Weave(texts[1..], Holes(n)) + " {}";
      FirstHole(texts, n, " {}");
      assert p + (texts[0] + ("{}" + rest)) == (p + texts[0]) + ("{}" + rest);
      FillFirstHole(p + texts[0], rest, fills[0], fills[1..] + [last]);
      assert [fills[0]] + (fills[1..] + [last]) == fills + [last];
      FillInFront(q, texts[1..], fills[1..], last);
      FirstFill(texts, fills);
      var woven := Weave(texts[1..], fills[1..]);
      assert q + (woven + (" " + last)) == p + ((texts[0] + (fills[0] + woven)) + (" " + last));
    }
  }

  lemma {:induction false} NoFills(texts: seq<string>)
    requires |texts| == 1
    ensures Weave(texts, []) == texts[0] && Weave(texts, Holes(0)) == texts[0]
  {
    assert Holes(0) == [];
  }

  lemma {:induction false} FirstFill(texts: seq<string>, fills: seq<string>)
    requires |texts| == |fills| + 1 && fills != []
    ensures Weave(texts, fills) == texts[0] + (fills[0] + Weave(texts[1..], fills[1..]))
  {
  }

  lemma {:induction false} QuoteOnOneLine(s: string, printable: char -> bool)
    ensures '\n' !in Quote(s, printable)
  {
    if s != "" {
      QuotedOnOneLine(s[0], printable);
      QuoteOnOneLine(s[1..], printable);
    }
  }

  lemma {:induction false} QuotedOnOneLine(c: char, printable: char -> bool)
    ensures '\n' !in QuoteChar(c, printable)
  {
    HexOnOneLine(c as int, 2);
    HexOnOneLine(c as int, 4);
    HexOnOneLine(c as int, 8);
  }

  lemma {:induction false} HexOnOneLine(n: nat, count: nat)
    ensures '\n' !in HexDigits(n, count)
  {
    if count > 0 {
      HexOnOneLine(n / 16, count - 1);
      assert forall i :: 0 <= i < 16 ==> "0123456789abcdef"[i] != '\n';
    }
  }

  lemma {:induction false} WeaveOnOneLine(texts: seq<string>, fills: seq<string>)
    requires |texts| == |fills| + 1
    requires (forall t :: t in texts ==> '\n' !in t) && forall f :: f in fills ==> '\n' !in f
    ensures '\n' !in Weave(texts, fills)
    decreases |fills|
  {
    assert texts[0] in texts;
    if fills != [] {
      assert fills[0] in fills;
      WeaveOnOneLine(texts[1..], fills[1..]);
    }
  }

  lemma {:induction false} FormatsOnOneLine(args: seq<StepArg>, printable: char -> bool)
    ensures forall f :: f in Formats(args, printable) ==> '\n' !in f
  {
    hide Quote;
    forall i | 0 <= i < |args| ensures '\n' !in FormatArg(args[i], printable) {
      QuoteOnOneLine(args[i].value, printable);
      QuoteOnOneLine(args[i].name, printable);
    }
  }

  /** The first line of a step with a table ends with a blank. */
  lemma {:induction false} FirstLine(text: string)
    requires Trimmed(text)
    ensures StepTextOfLine("* " + text + " ") == Some(text)
  {
    var line, front := "* " + text + " ", "* " + text;
    assert TrimLeft(line) == line by { assert line[0] == '*'; }
    assert line[..|line| - 1] == front && line[|line| - 1] == ' ';
    assert TrimSpace(line) == TrimRight(front);
    if text == "" {
      assert front[..1] == "*" && TrimRight("*") == "*";
      assert TrimSpace(line) == "*" && "*"[1..] == "";
    } else {
      assert front[|front| - 1] == text[|text| - 1];
      assert TrimSpace(line) == front;
      assert front[1..] == " " + text && (" " + text)[1..] == text;
      TrimSpaceIsIdentity(text);
    }
  }

  lemma {:induction false} PrintedWithTable(
      texts: seq<string>, args: seq<StepArg>, rows: string, printable: char -> bool)
    requires |texts| == |args| + 1
    requires forall t :: t in texts ==> Literal(t)
    requires forall a :: a in args ==> Writable(a)
    requires rows != "" && rows[|rows| - 1] == '\n'
    ensures StepLineOf(Fill(Weave(texts, Holes(|args|)) + " {}", Formats(args, printable) + ["\n" + rows])) ==
            ("* " + Weave(texts, Formats(args, printable)) + " ") + ("\n" + rows)
  {
    var value, formats := Weave(texts, Holes(|args|)), Formats(args, printable);
    var text := Weave(texts, formats);
    FormatsAreClean(args, printable);
    hide Weave, Holes, Fill, Literal, Writable, Clean, SolidEnds, Formats, StepLineOf;
    CleanEmpty();
    FillInFront("", texts, formats, "\n" + rows);
    assert "" + (value + " {}") == value + " {}";
    EndsWithRows(text, rows);
  }

  lemma {:induction false} EndsWithRows(text: string, rows: string)
    requires rows != "" && rows[|rows| - 1] == '\n'
    ensures StepLineOf("" + (text + (" " + ("\n" + rows)))) == ("* " + text + " ") + ("\n" + rows)
  {
    var s := "" + (text + (" " + ("\n" + rows)));
    assert s[|s| - 1] == '\n';
    assert "* " + s + "" == ("* " + text + " ") + ("\n" + rows);
  }

  /** A line that ends with a blank is cut off in front of the lines of a table. */
  lemma {:induction false} CutFirstLine(text: string, rows: string)
    requires '\n' !in text
    ensures TableText.SplitLines((text + " ") + ("\n" + rows), "") == [text + " "] + TableText.SplitLines(rows, "")
  {
    hide TableText.SplitLines;
    TableText.SplitOneLine(text + " ", rows, "");
    assert "" + (text + " ") == text + " ";
    assert TableText.DropReturn(text + " ") == text + " ";
  }

  lemma {:induction false} LinesOfRows(g: Grid)
    requires TableText.Printable(g)
    ensures g.Rectangular() && |TableText.SplitLines(TableLines(g), "")| == g.Height() + 2
  {
    hide TableText.IsTableRow, TableText.RowOf, TableText.DataRows, TableText.KeptRows, TableText.AreUnderlined, Lines,
      Unlines, TableText.SplitLines, TrimSpace;
    TableText.TableRoundTrip(g);
  }

  lemma {:induction false} StepReadsBack(texts: seq<string>, args: seq<StepArg>, printable: char -> bool)
    requires |texts| == |args| + 1
    requires forall t :: t in texts ==> Literal(t)
    requires forall a :: a in args ==> Writable(a)
    requires Trimmed(Weave(texts, Holes(|args|)))
    ensures var text := Weave(texts, Formats(args, printable));
            && Trimmed(text)
            && var r := Parse(text);
               && r.Ok? && r.args == ReadBacks(args, printable)
               && Extract(r.value) == (Weave(texts, Holes(|args|)), KindsOf(args)) && AcceptsMarkers(r)
  {
    hide Weave, Holes, Fill, Literal, Writable, Parse, Extract, AcceptsMarkers, ReadBacks, KindsOf, Formats,
      CountHoles, Trimmed;
    StepRoundTrip(texts, args, printable);
    PrintedStep(texts, args, printable);
  }

  /** A step with a table is printed as its own line and the lines of the table. The line reads
      back as a step with the same value, kinds and arguments but for the placeholder of the table,
      which the lines after it put back. */
  lemma {:induction false} StepWithTableRoundTrip(
      texts: seq<string>, args: seq<StepArg>, g: Grid, printable: char -> bool)
    requires |texts| == |args| + 1
    requires forall t :: t in texts ==> Literal(t) && '\n' !in t
    requires forall a :: a in args ==> Writable(a)
    requires Trimmed(Weave(texts, Holes(|args|))) && TableText.Printable(g)
    ensures var value := Weave(texts, Holes(|args|));
            var printed := StepLineOf(Fill(value + " {}", Formats(args, printable) + ["\n" + TableLines(g)]));
            var lines := TableText.SplitLines(printed, "");
            && |lines| == g.Height() + 3
            && lines[1..] == TableText.SplitLines(TableLines(g), "")
            && StepTextOfLine(lines[0]).Some?
            && var r := Parse(StepTextOfLine(lines[0]).value);
               && r.Ok? && r.args == ReadBacks(args, printable)
               && Extract(r.value) == (value, KindsOf(args)) && AcceptsMarkers(r)
  {
    var value, formats := Weave(texts, Holes(|args|)), Formats(args, printable);
    var text, rows := Weave(texts, formats), TableLines(g);
    hide Weave, Holes, Fill, Literal, Writable, Parse, Extract, AcceptsMarkers, ReadBacks, KindsOf, Formats,
      CountHoles, Trimmed, TableText.Printable, TableLines, TableText.SplitLines, StepTextOfLine, StepLineOf;
    StepReadsBack(texts, args, printable);
    LinesOfRows(g);
    LinesEnd(g);
    PrintedWithTable(texts, args, rows, printable);
    FormatsOnOneLine(args, printable);
    WeaveOnOneLine(texts, formats);
    CutFirstLine("* " + text, rows);
    FirstLine(text);
  }

  lemma {:induction false} LinesEnd(g: Grid)
    requires g.Rectangular()
    ensures TableLines(g) != "" && TableLines(g)[|TableLines(g)| - 1] == '\n'
  {
    hide Lines;
  }
}
