/** What the outline of a specification says about single steps: which arguments a step has, what
    the tables after it add, and that nothing else touches it. */
module OutlinedSteps {
  import opened Text
  import opened StepText
  import opened StepFormat
  import opened Tables
  import TableText
  import opened Substitution
  import opened SpecScopes
  import opened SpecOutline

  /** The line of a step with an argument for every marker of its text. */
  ghost predicate IsStepOf(step: Entry, token: Token, resolve: string -> Resolution) {
    && step.StepEntry? && step.lineText == TrimSpace(token.lineText)
    && var (value, kinds) := Extract(token.value);
    && step.value == value && |step.args| == |kinds| && (kinds != [] ==> |kinds| == |token.args|)
    && forall i :: 0 <= i < |kinds| ==> StandsFor(step.args[i], kinds[i], token.args[i], resolve)
  }

  lemma {:induction false} LastAdded(entries: seq<Entry>, step: Entry)
    requires step.StepEntry?
    ensures LastStep(entries + [step]) == Some(step)
    ensures ReplaceLast(entries + [step], step) == entries + [step]
  {
    assert (entries + [step])[..|entries|] == entries;
  }

  lemma {:induction false} LastReplaced(entries: seq<Entry>, step: Entry)
    requires step.StepEntry? && LastStep(entries).Some?
    ensures LastStep(ReplaceLast(entries, step)) == Some(step)
  {
    var n := |entries| - 1;
    if entries[n].StepEntry? {
      LastAdded(entries[..n], step);
    } else {
      LastReplaced(entries[..n], step);
      assert (ReplaceLast(entries[..n], step) + [entries[n]])[..n] == ReplaceLast(entries[..n], step);
    }
  }

  lemma {:induction false} NewEntryIsStep(token: Token, resolve: string -> Resolution, names: seq<string>)
    requires StepObjection(resolve, token, names).None?
    ensures NewEntry(resolve, token, names).StepEntry?
    ensures IsStepOf(NewEntry(resolve, token, names), token, resolve)
  {
    hide StepObjection, NewArgs, StandsFor, Extract, TrimSpace;
    ArgumentsIff(resolve, token, names);
  }

  /** After an accepted step the latest step of the outline is the one that the token says. */
  lemma {:induction false} StepIsRead(o: Outline, token: Token, resolve: string -> Resolution, lower: string -> string)
    requires Consistent(o) && token.kind.StepKind? && o.heading.Some? && Passes(o, token, resolve, lower)
    ensures var next := Advance(o, token, resolve);
            && LatestEntry(next).Some? && IsStepOf(LatestEntry(next).value, token, resolve)
            && next.scopes.spec && !next.scopes.table && next.scopes.step != next.scopes.context
            && next.table == o.table
  {
    hide NewShape, Stops, StepObjection, NewEntry, IsStepOf, LastStep, Advance;
    var step := NewEntry(resolve, token, Columns(o.table));
    NewEntryIsStep(token, resolve, Columns(o.table));
    StepToken(o, token, resolve);
    if o.scopes.scenario {
      LastAdded(o.bodies[|o.bodies| - 1].entries, step);
    } else {
      LastAdded(o.top, step);
    }
  }

  lemma {:induction false} Retouched(o: Outline, step: Entry)
    requires LatestEntry(o).Some? && step.StepEntry?
    ensures LatestEntry(Retouch(o, step)) == Some(step)
  {
    hide LastStep, ReplaceLast;
    if o.scopes.step {
      LastReplaced(o.bodies[|o.bodies| - 1].entries, step);
    } else {
      LastReplaced(o.top, step);
    }
  }

  /** A table after a step adds a placeholder and an empty table with the trimmed headers. */
  lemma {:induction false} TableIsRead(o: Outline, token: Token, resolve: string -> Resolution)
    requires Consistent(o) && token.kind.TableHeader? && (o.scopes.step || o.scopes.context) && LatestEntry(o).Some?
    ensures var next, step := Advance(o, token, resolve), LatestEntry(o).value;
            && next.scopes == o.scopes.(table := true) && next.table == o.table
            && LatestEntry(next).Some?
            && var s := LatestEntry(next).value;
            && s.lineText == step.lineText && s.value == step.value + " {}"
            && |s.args| == |step.args| + 1 && s.args[..|step.args|] == step.args
            && var arg := s.args[|step.args|];
               arg.argType.TableArg? && arg.table.Some? && HoldsRows(arg.table.value, token.args, [], [])
  {
    hide ReplaceLast, LastStep;
    var step := Tabled(LatestEntry(o).value, token.args);
    HeaderToken(o, token, resolve);
    Retouched(o, step);
  }

  /** A cell in angle brackets with the name of a column is dynamic, any other one is the text. */
  predicate CellStandsFor(cell: Cell, text: string, names: seq<string>) {
    if exists name :: name in names && text == "<" + name + ">"
    then cell.isDynamic && cell.value in names && text == "<" + cell.value + ">"
    else !cell.isDynamic && cell.value == text
  }

  lemma {:induction false} CellIsRead(text: string, names: seq<string>)
    ensures CellStandsFor(RowCell(text, names), text, names)
  {
    if NamesParameter(text) {
      assert text == "<" + text[1..|text| - 1] + ">";
    }
    forall name | name in names && text == "<" + name + ">"
      ensures NamesParameter(text) && text[1..|text| - 1] == name
    {
    }
  }

  /** The table has these headers, trimmed, and these rows: missing cells are empty, surplus ones
      are dropped. */
  ghost predicate HoldsRows(g: RectGrid, headers: seq<string>, rows: seq<seq<string>>, names: seq<string>) {
    && g.headers == TrimAll(headers) && |g.columns| == |headers| && (headers != [] ==> g.Height() == |rows|)
    && forall c, r :: 0 <= c < |headers| && 0 <= r < |rows| ==>
         if c < |rows[r]| then CellStandsFor(g.columns[c][r], rows[r][c], names)
         else g.columns[c][r] == Cell("", false)
  }

  lemma {:induction false} OneMoreRow(g: RectGrid, headers: seq<string>, rows: seq<seq<string>>, names: seq<string>,
      row: seq<string>)
    requires HoldsRows(g, headers, rows, names)
    ensures HoldsRows(WithRow(g, RowCells(row, names)), headers, rows + [row], names)
  {
    hide CellStandsFor, RowCell;
    var next: RectGrid, all := WithRow(g, RowCells(row, names)), rows + [row];
    forall c, r | 0 <= c < |headers| && 0 <= r < |all|
      ensures if c < |all[r]| then CellStandsFor(next.columns[c][r], all[r][c], names)
              else next.columns[c][r] == Cell("", false)
    {
      assert next.columns[c] == g.columns[c] + [Sized(RowCells(row, names), |headers|)[c]];
      if r == |rows| && c < |row| {
        CellIsRead(row[c], names);
      }
    }
  }

  /** The rows among some tokens; separators are no rows. */
  function KeptTokens(tokens: seq<Token>, i: nat, n: nat): seq<seq<string>>
    requires i <= n <= |tokens|
    decreases n
  {
    if i == n then []
    else KeptTokens(tokens, i, n - 1) + if TableText.AreUnderlined(tokens[n - 1].args) then [] else [tokens[n - 1].args]
  }

  /** The step that tokens `i` to `n` make: a step, the first line of a table, and its rows. */
  ghost predicate IsStepWithTable(step: Entry, tokens: seq<Token>, i: nat, n: nat, resolve: string -> Resolution,
      names: seq<string>)
    requires i + 2 <= n <= |tokens|
  {
    && step.StepEntry? && |step.args| > 0
    && var k := |step.args| - 1;
    && (exists plain :: IsStepOf(plain, tokens[i], resolve) && step.lineText == plain.lineText
          && step.value == plain.value + " {}" && step.args[..k] == plain.args)
    && step.args[k].argType.TableArg? && step.args[k].table.Some?
    && HoldsRows(step.args[k].table.value, tokens[i + 1].args, KeptTokens(tokens, i + 2, n), names)
  }

  /** A row after a table of a step goes to the table, a separator nowhere. */
  lemma {:induction false} RowIsRead(o: Outline, tokens: seq<Token>, i: nat, n: nat, resolve: string -> Resolution)
    requires i + 2 <= n < |tokens| && tokens[n].kind.TableRow?
    requires o.scopes.table && (o.scopes.step || o.scopes.context) && LatestEntry(o).Some?
    requires IsStepWithTable(LatestEntry(o).value, tokens, i, n, resolve, Columns(o.table))
    ensures var next := Advance(o, tokens[n], resolve);
            && next.scopes == o.scopes && next.table == o.table && LatestEntry(next).Some?
            && IsStepWithTable(LatestEntry(next).value, tokens, i, n + 1, resolve, Columns(o.table))
  {
    hide ReplaceLast, LastStep, TableText.AreUnderlined, WithRow, RowCells, HoldsRows, IsStepOf;
    var step, names := LatestEntry(o).value, Columns(o.table);
    RowToken(o, tokens[n], resolve);
    assert KeptTokens(tokens, i + 2, n + 1) ==
           KeptTokens(tokens, i + 2, n) + if TableText.AreUnderlined(tokens[n].args) then [] else [tokens[n].args];
    if TableText.AreUnderlined(tokens[n].args) {
      assert KeptTokens(tokens, i + 2, n + 1) == KeptTokens(tokens, i + 2, n);
    } else {
      var k := |step.args| - 1;
      var changed := step.(args := WithCells(step.args, RowCells(tokens[n].args, names)));
      Retouched(o, changed);
      OneMoreRow(step.args[k].table.value, tokens[i + 1].args, KeptTokens(tokens, i + 2, n), names, tokens[n].args);
      assert changed.args[..k] == step.args[..k];
    }
  }

  /** A step and the first line of its table. */
  lemma {:induction false} BlockStarts(o: Outline, tokens: seq<Token>, i: nat, resolve: string -> Resolution,
      names: seq<string>)
    requires i + 2 <= |tokens| && tokens[i + 1].kind.TableHeader?
    requires Consistent(o) && (o.scopes.step || o.scopes.context) && LatestEntry(o).Some?
    requires IsStepOf(LatestEntry(o).value, tokens[i], resolve)
    ensures var next := Advance(o, tokens[i + 1], resolve);
            && next.scopes == o.scopes.(table := true) && next.table == o.table && LatestEntry(next).Some?
            && IsStepWithTable(LatestEntry(next).value, tokens, i, i + 2, resolve, names)
  {
    hide Advance, Consistent, LatestEntry, IsStepOf, TableText.AreUnderlined;
    TableIsRead(o, tokens[i + 1], resolve);
    assert KeptTokens(tokens, i + 2, i + 2) == [];
  }

  lemma {:induction false} AcceptedAt(tokens: seq<Token>, i: nat, n: nat, resolve: string -> Resolution,
      lower: string -> string)
    requires i < n <= |tokens| && Accepted(tokens, n, resolve, lower)
    ensures Passes(Read(tokens, i, resolve), tokens[i], resolve, lower)
    ensures Read(tokens, i + 1, resolve) == Advance(Read(tokens, i, resolve), tokens[i], resolve)
    ensures Consistent(Read(tokens, i, resolve)) && Consistent(Read(tokens, i + 1, resolve))
    ensures Accepted(tokens, n - 1, resolve, lower)
  {
    hide Advance, Consistent, Passes;
    ReadConsistent(tokens, i, resolve, lower);
    ReadConsistent(tokens, i + 1, resolve, lower);
  }

  /** A step followed by a table has the arguments of its own text and, as the last one, the table
      with the rows that follow. */
  lemma {:induction false} StepWithTableIsRead(tokens: seq<Token>, i: nat, n: nat, resolve: string -> Resolution,
      lower: string -> string)
    requires i + 2 <= n <= |tokens| && Accepted(tokens, n, resolve, lower)
    requires tokens[i].kind.StepKind? && tokens[i + 1].kind.TableHeader? && Read(tokens, i, resolve).heading.Some?
    requires forall j :: i + 2 <= j < n ==> tokens[j].kind.TableRow?
    ensures var o := Read(tokens, n, resolve);
            && o.scopes.table && (o.scopes.step || o.scopes.context) && o.table == Read(tokens, i, resolve).table
            && LatestEntry(o).Some?
            && IsStepWithTable(LatestEntry(o).value, tokens, i, n, resolve, Columns(o.table))
    decreases n
  {
    hide Advance, Consistent, Passes, LatestEntry, IsStepOf, IsStepWithTable, Read, Accepted;
    AcceptedAt(tokens, n - 1, n, resolve, lower);
    if n == i + 2 {
      AcceptedAt(tokens, i, n, resolve, lower);
      StepIsRead(Read(tokens, i, resolve), tokens[i], resolve, lower);
      BlockStarts(Read(tokens, i + 1, resolve), tokens, i, resolve, Columns(Read(tokens, i, resolve).table));
    } else {
      StepWithTableIsRead(tokens, i, n - 1, resolve, lower);
      RowIsRead(Read(tokens, n - 1, resolve), tokens, i, n - 1, resolve);
    }
  }

  /** A table before the steps becomes the data table, with the rows that follow, trimmed. */
  lemma {:induction false} DataTableIsRead(tokens: seq<Token>, i: nat, n: nat, resolve: string -> Resolution)
    requires i < n <= |tokens| && tokens[i].kind.TableHeader?
    requires forall j :: i < j < n ==> tokens[j].kind.TableRow?
    requires var o := Read(tokens, i, resolve);
             o.scopes == Scopes(true, false, false, false, false) && o.table.None?
    ensures var o := Read(tokens, n, resolve);
            && o.scopes == Scopes(true, false, true, false, false)
            && o.top == Read(tokens, i, resolve).top + [TableEntry] && o.bodies == Read(tokens, i, resolve).bodies
            && o.table.Some?
            && HoldsRows(o.table.value, tokens[i].args, TrimRows(KeptTokens(tokens, i + 1, n)), [])
    decreases n
  {
    hide Advance, TableText.AreUnderlined, HoldsRows, WithRow, Headed;
    var before := Read(tokens, n - 1, resolve);
    assert Read(tokens, n, resolve) == Advance(before, tokens[n - 1], resolve);
    if n == i + 1 {
      HeaderToken(before, tokens[i], resolve);
      HeadedHoldsNothing(tokens[i].args, []);
      assert TrimRows(KeptTokens(tokens, i + 1, n)) == [];
    } else {
      DataTableIsRead(tokens, i, n - 1, resolve);
      RowToken(before, tokens[n - 1], resolve);
      var rows, row := KeptTokens(tokens, i + 1, n - 1), tokens[n - 1].args;
      if TableText.AreUnderlined(row) {
        assert KeptTokens(tokens, i + 1, n) == rows;
      } else {
        OneMoreRow(before.table.value, tokens[i].args, TrimRows(rows), [], TrimAll(row));
        assert TrimRows(rows + [row]) == TrimRows(rows) + [TrimAll(row)];
        StaticRow(row);
      }
    }
  }

  function TrimRows(rows: seq<seq<string>>): seq<seq<string>> {
    seq(|rows|, r requires 0 <= r < |rows| => TrimAll(rows[r]))
  }

  lemma {:induction false} StaticRow(row: seq<string>)
    ensures StaticCells(row) == RowCells(TrimAll(row), [])
  {
    hide TrimSpace;
    forall c | 0 <= c < |row| ensures StaticCells(row)[c] == RowCells(TrimAll(row), [])[c] {
      assert RowCells(TrimAll(row), [])[c] == RowCell(TrimAll(row)[c], []);
    }
  }

  lemma {:induction false} HeadedHoldsNothing(headers: seq<string>, names: seq<string>)
    ensures HoldsRows(Headed(headers), headers, [], names)
  {
  }

  /* ---------- nothing else touches a step ---------- */

  /** Entries are added at the end and nowhere else. */
  lemma {:induction false} OtherTokensAppend(o: Outline, token: Token, resolve: string -> Resolution)
    requires !token.kind.TableHeader? && !token.kind.TableRow?
    ensures var next := Advance(o, token, resolve);
            && o.top <= next.top && |o.bodies| <= |next.bodies|
            && forall k :: 0 <= k < |o.bodies| ==>
                 o.bodies[k].heading == next.bodies[k].heading && o.bodies[k].entries <= next.bodies[k].entries
  {
    hide NextScopes, NextTable, NextLatest, TopEntries, BodyEntries;
    OnlyTables(o, token);
  }

  /** Entry `k` is the last step, and nothing else differs; its line stays. */
  ghost predicate DiffersAt(before: seq<Entry>, after: seq<Entry>, k: nat) {
    && k < |before| == |after| && before[k].StepEntry? && after[k].StepEntry?
    && before[k].lineText == after[k].lineText
    && (forall j :: k < j < |before| ==> !before[j].StepEntry?)
    && forall j :: 0 <= j < |before| && j != k ==> before[j] == after[j]
  }

  ghost predicate LastDiffers(before: seq<Entry>, after: seq<Entry>) {
    exists k: nat :: DiffersAt(before, after, k)
  }

  lemma {:induction false} DiffersBefore(before: seq<Entry>, after: seq<Entry>, k: nat, last: Entry)
    requires DiffersAt(before, after, k) && !last.StepEntry?
    ensures DiffersAt(before + [last], after + [last], k)
  {
  }

  lemma {:induction false} ReplacingDiffers(entries: seq<Entry>, step: Entry)
    requires step.StepEntry? && LastStep(entries).Some? && LastStep(entries).value.lineText == step.lineText
    ensures LastDiffers(entries, ReplaceLast(entries, step))
  {
    hide DiffersAt;
    var n := |entries| - 1;
    if entries[n].StepEntry? {
      LastOneDiffers(entries, step);
    } else {
      ReplacingDiffers(entries[..n], step);
      var k: nat :| DiffersAt(entries[..n], ReplaceLast(entries[..n], step), k);
      DiffersBefore(entries[..n], ReplaceLast(entries[..n], step), k, entries[n]);
      assert entries == entries[..n] + [entries[n]];
    }
  }

  lemma {:induction false} LastOneDiffers(entries: seq<Entry>, step: Entry)
    requires entries != [] && entries[|entries| - 1].StepEntry? && step.StepEntry?
    requires entries[|entries| - 1].lineText == step.lineText
    ensures DiffersAt(entries, entries[..|entries| - 1] + [step], |entries| - 1)
  {
  }

  /** A table or a row changes at most one step, the latest one; its line stays. */
  lemma {:induction false} TablesTouchTheLatest(o: Outline, token: Token, resolve: string -> Resolution)
    requires token.kind.TableHeader? || token.kind.TableRow?
    ensures var next := Advance(o, token, resolve);
            if Touched(o, token).None? then
              && o.top <= next.top && |o.bodies| == |next.bodies|
              && forall k :: 0 <= k < |o.bodies| ==>
                   o.bodies[k].heading == next.bodies[k].heading && o.bodies[k].entries <= next.bodies[k].entries
            else if o.scopes.step then
              && o.top == next.top && 0 < |o.bodies| == |next.bodies|
              && o.bodies[..|o.bodies| - 1] == next.bodies[..|o.bodies| - 1]
              && LastDiffers(o.bodies[|o.bodies| - 1].entries, next.bodies[|o.bodies| - 1].entries)
            else o.bodies == next.bodies && LastDiffers(o.top, next.top)
  {
    hide NextScopes, NextTable, NextLatest, TopEntries, BodyEntries, ReplaceLast, LastStep, WithCells, LastDiffers,
      TableOfStep, RowOfStep;
    if Touched(o, token).Some? {
      var step := Touched(o, token).value;
      NothingBeside(o, token, resolve);
      assert step.lineText == LatestEntry(o).value.lineText;
      ReplacingDiffers(if o.scopes.step then o.bodies[|o.bodies| - 1].entries else o.top, step);
    }
  }

  /* ---------- from a printed step to its arguments ---------- */

  /** A step that is printed, read and created again has its value back, and for every argument of
      the original one of its kind with the text as it reads back; it is refused only when one of
      them names nothing. */
  lemma {:induction false} PrintedStepComesBack(texts: seq<string>, args: seq<StepArg>, printable: char -> bool,
      line: string, table: RectGrid, names: seq<string>, resolve: string -> Resolution)
    requires |texts| == |args| + 1
    requires forall t :: t in texts ==> Literal(t)
    requires forall a :: a in args ==> Writable(a)
    requires Trimmed(Weave(texts, Holes(|args|)))
    ensures var value := Weave(texts, Holes(|args|));
            var r := Parse(Fill(value, Formats(args, printable)));
            && r.Ok?
            && var token := Token(StepKind, line, r.value, r.args, table);
               var step := NewEntry(resolve, token, names);
            && (StepObjection(resolve, token, names).Some? <==>
                  exists i :: 0 <= i < |args|
                    && NamesNothing(args[i].kind, ReadBack(args[i].Text(), printable), names, resolve))
            && step.value == value && CountHoles(value) == |args|
            && (StepObjection(resolve, token, names).None? ==>
                  && |step.args| == |args|
                  && forall i :: 0 <= i < |args| ==>
                       StandsFor(step.args[i], args[i].kind, ReadBack(args[i].Text(), printable), resolve))
  {
    hide Weave, Formats, Fill, Parse, Extract, CountHoles, ReadBack, NamesNothing, StandsFor, StepArgument, Literal,
      Writable;
    StepRoundTrip(texts, args, printable);
    var r := Parse(Fill(Weave(texts, Holes(|args|)), Formats(args, printable)));
    var token := Token(StepKind, line, r.value, r.args, table);
    ArgumentsIff(resolve, token, names);
    assert Kinds(r.value) == KindsOf(args);
    if exists i :: 0 <= i < |args| && NamesNothing(args[i].kind, ReadBack(args[i].Text(), printable), names, resolve) {
      var i :| 0 <= i < |args| && NamesNothing(args[i].kind, ReadBack(args[i].Text(), printable), names, resolve);
      assert NamesNothing(KindsOf(args)[i], token.args[i], names, resolve);
    }
  }

  /** Static arguments of characters that survive quoting come back as they were. */
  lemma {:induction false} StaticArgumentsComeBack(texts: seq<string>, args: seq<StepArg>, printable: char -> bool,
      line: string, table: RectGrid, names: seq<string>, resolve: string -> Resolution)
    requires |texts| == |args| + 1
    requires forall t :: t in texts ==> Literal(t)
    requires forall a :: a in args ==> Writable(a) && a.kind.Static?
    requires Trimmed(Weave(texts, Holes(|args|)))
    requires forall a, i :: a in args && 0 <= i < |a.value| ==> Quotable(a.value[i], printable)
    ensures var value := Weave(texts, Holes(|args|));
            var r := Parse(Fill(value, Formats(args, printable)));
            && r.Ok?
            && var token := Token(StepKind, line, r.value, r.args, table);
            && StepObjection(resolve, token, names).None?
            && NewEntry(resolve, token, names).value == value
            && NewEntry(resolve, token, names).args ==
               seq(|args|, i requires 0 <= i < |args| => Arg("", args[i].value, StaticArg, None))
  {
    hide Weave, Formats, Fill, Parse, Extract, CountHoles, ReadBack, StepObjection, StepArgument, Literal, Writable,
      Quotable, NewArgs;
    PrintedStepComesBack(texts, args, printable, line, table, names, resolve);
    ArgumentsComeBack(args, printable);
    forall i | 0 <= i < |args| ensures ReadBack(args[i].Text(), printable) == args[i].value {
      assert args[i] in args && ReadBacks(args, printable)[i] == args[i].Text();
    }
  }
}
