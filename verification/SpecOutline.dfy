/** What a list of tokens says, without objects: the outline of a specification and how each
    token extends it. */
module SpecOutline {
  import opened Text
  import opened StepText
  import opened StepFormat
  import opened Fragments
  import opened Tables
  import opened TableText
  import opened Substitution
  import opened SpecScopes

  datatype TokenKind =
    SpecKind | TagKind | ScenarioKind | CommentKind | StepKind | TableHeader | TableRow | DataTableKind

  /** `table` is what a `table:` keyword was resolved to. */
  datatype Token = Token(kind: TokenKind, lineText: string, value: string, args: seq<string>, table: RectGrid)

  /** What a special parameter resolves to. */
  datatype Resolution = Resolved(arg: Arg) | InvalidSpecial | Unresolvable

  datatype BuildError =
    | MultipleSpecHeadings | ScenarioBeforeSpec | DuplicateScenario | MarkerInText | UnresolvedParameter
    | NoElements | NoSpecHeading | NoDataRows

  /** One line of an outline; a step also has its text with placeholders and its arguments. */
  datatype Entry =
    | StepEntry(lineText: string, value: string, args: seq<Arg>)
    | ScenarioEntry(heading: string)
    | CommentEntry(text: string)
    | TagsEntry(values: seq<string>)
    | TableEntry
    | ExternalTableEntry(value: string)

  /** A scenario and what is in it. */
  datatype Body = Body(heading: string, entries: seq<Entry>)

  /** `latest` is the step that a table would go to. */
  datatype Outline = Outline(
    scopes: Scopes, heading: Option<string>, top: seq<Entry>, bodies: seq<Body>, table: Option<RectGrid>,
      latest: Option<Shape>)

  const NOTHING: Outline := Outline(Scopes(false, false, false, false, false), None, [], [], None, None)

  function Columns(table: Option<RectGrid>): seq<string> {
    if table.Some? then table.value.headers else []
  }

  /** The argument of a parameter; None when it names nothing. */
  function StepArgument(resolve: string -> Resolution, text: string, kind: Kind, names: seq<string>): Option<Arg> {
    var asDynamic := if text in names then Some(Arg(text, text, DynamicArg, None)) else None;
    match kind
    case Static => Some(Arg("", text, StaticArg, None))
    case Dynamic => asDynamic
    case Special =>
      match resolve(text)
      case Resolved(arg) => Some(arg)
      case InvalidSpecial => asDynamic
      case Unresolvable => None
  }

  /** A dynamic argument is known by its text. */
  predicate IsDynamic(arg: Arg, text: string) {
    arg.argType.DynamicArg? && arg.name == text && arg.value == text && arg.table.None?
  }

  /** What the argument of a marker has to be: the text of a static one, the name of a dynamic one,
      and what a special one resolves to; without a resolution it is dynamic. */
  predicate StandsFor(arg: Arg, kind: Kind, text: string, resolve: string -> Resolution) {
    match kind
    case Static => arg.argType.StaticArg? && arg.name == "" && arg.value == text && arg.table.None?
    case Dynamic => IsDynamic(arg, text)
    case Special => if resolve(text).Resolved? then arg == resolve(text).arg else IsDynamic(arg, text)
  }

  /** A parameter that is not static, not resolved and not a name. */
  predicate NamesNothing(kind: Kind, text: string, names: seq<string>, resolve: string -> Resolution) {
    !kind.Static? && !(kind.Special? && resolve(text).Resolved?)
    && (text !in names || (kind.Special? && resolve(text).Unresolvable?))
  }

  lemma {:induction false} ArgumentIff(resolve: string -> Resolution, text: string, kind: Kind, names: seq<string>)
    ensures StepArgument(resolve, text, kind, names).None? <==> NamesNothing(kind, text, names, resolve)
    ensures forall arg :: StepArgument(resolve, text, kind, names) == Some(arg) <==>
              !NamesNothing(kind, text, names, resolve) && StandsFor(arg, kind, text, resolve)
  {
  }

  /** Why a step is refused. */
  function StepObjection(resolve: string -> Resolution, token: Token, names: seq<string>): Option<BuildError> {
    var kinds := Kinds(token.value);
    if kinds == [] then None
    else if |kinds| != |token.args| then Some(MarkerInText)
    else if exists i :: 0 <= i < |kinds| && StepArgument(resolve, token.args[i], kinds[i], names).None?
    then Some(UnresolvedParameter) else None
  }

  /** The arguments of a new step, one for every marker of its text. */
  function NewArgs(resolve: string -> Resolution, token: Token, names: seq<string>): seq<Arg> {
    var kinds := Kinds(token.value);
    if StepObjection(resolve, token, names).Some? then []
    else seq(|kinds|, i requires 0 <= i < |kinds| => StepArgument(resolve, token.args[i], kinds[i], names).value)
  }

  /** A step is refused for its arguments exactly when one of them names nothing; otherwise each
      argument is what its marker stands for. */
  lemma {:induction false} ArgumentsIff(resolve: string -> Resolution, token: Token, names: seq<string>)
    ensures var kinds, args := Kinds(token.value), NewArgs(resolve, token, names);
            && (StepObjection(resolve, token, names) == Some(UnresolvedParameter) <==>
                  kinds != [] && |kinds| == |token.args|
                  && exists i :: 0 <= i < |kinds| && NamesNothing(kinds[i], token.args[i], names, resolve))
            && (StepObjection(resolve, token, names).None? ==>
                  && (kinds != [] ==> |kinds| == |token.args|) && |args| == |kinds|
                  && forall i :: 0 <= i < |kinds| ==> StandsFor(args[i], kinds[i], token.args[i], resolve))
  {
    hide StepArgument, NamesNothing, StandsFor, Extract;
    var kinds := Kinds(token.value);
    if |kinds| == |token.args| {
      forall i | 0 <= i < |kinds|
        ensures StepArgument(resolve, token.args[i], kinds[i], names).None? <==>
                NamesNothing(kinds[i], token.args[i], names, resolve)
        ensures var arg := StepArgument(resolve, token.args[i], kinds[i], names);
                arg.Some? ==> StandsFor(arg.value, kinds[i], token.args[i], resolve)
      {
        ArgumentIff(resolve, token.args[i], kinds[i], names);
      }
    }
  }

  /** The line of a new step. */
  function NewEntry(resolve: string -> Resolution, token: Token, names: seq<string>): Entry {
    StepEntry(TrimSpace(token.lineText), Extract(token.value).0, NewArgs(resolve, token, names))
  }

  /** The shape of a new step. */
  function NewShape(resolve: string -> Resolution, token: Token, names: seq<string>): Shape {
    var (value, kinds) := Extract(token.value);
    Shape(CountHoles(value),
          if kinds != [] && |kinds| == |token.args|
          then seq(|kinds|, i requires 0 <= i < |kinds| =>
                 var arg := StepArgument(resolve, token.args[i], kinds[i], names); arg.Some? && Convertible(arg.value))
          else [])
  }

  /** A table is one more placeholder and one more argument. */
  function WithTable(shape: Shape, token: Token): Shape {
    Shape(shape.holes + 1, shape.shown + [token.args != []])
  }

  /** Why a token is refused. */
  function Objection(o: Outline, token: Token, resolve: string -> Resolution,
      lower: string -> string): Option<BuildError> {
    match token.kind
    case SpecKind => if o.heading.Some? then Some(MultipleSpecHeadings) else None
    case ScenarioKind =>
      if o.heading.None? then Some(ScenarioBeforeSpec)
      else if exists k :: 0 <= k < |o.bodies| && lower(o.bodies[k].heading) == lower(token.value)
      then Some(DuplicateScenario) else None
    case StepKind => if o.heading.None? then None else StepObjection(resolve, token, Columns(o.table))
    case _ => None
  }

  /** A table goes to the latest step, or becomes the data table. */
  predicate TakesTable(o: Outline) {
    var s := o.scopes;
    s.spec && (s.step || s.context || (!s.scenario && o.table.None?))
  }

  /** A table that becomes an argument of the latest step. */
  predicate TableOfStep(o: Outline, token: Token) {
    token.kind.TableHeader? && TakesTable(o) && (o.scopes.step || o.scopes.context)
  }

  /** A cell in angle brackets names a column of the data table, or is taken as it is. */
  function RowCell(value: string, names: seq<string>): Cell {
    if NamesParameter(value) && value[1..|value| - 1] in names then Cell(value[1..|value| - 1], true)
    else Cell(value, false)
  }

  predicate NamesParameter(value: string) {
    |value| >= 2 && value[0] == '<' && value[|value| - 1] == '>'
  }

  function RowCells(values: seq<string>, names: seq<string>): (cells: seq<Cell>)
    ensures |cells| == |values|
  {
    seq(|values|, i requires 0 <= i < |values| => RowCell(values[i], names))
  }

  /** A row that goes into the last table of the latest step. */
  predicate RowOfStep(o: Outline, token: Token) {
    token.kind.TableRow? && o.scopes.table && (o.scopes.step || o.scopes.context) && !AreUnderlined(token.args)
  }

  /** The last step among some entries. */
  function LastStep(entries: seq<Entry>): (step: Option<Entry>)
    ensures step.Some? ==> step.value.StepEntry?
  {
    if entries == [] then None
    else
      var last := entries[|entries| - 1];
      if last.StepEntry? then Some(last) else LastStep(entries[..|entries| - 1])
  }

  /** The same entries with another last step. */
  function ReplaceLast(entries: seq<Entry>, step: Entry): (r: seq<Entry>)
    ensures |r| == |entries|
  {
    if entries == [] then []
    else
      var last := entries[|entries| - 1];
      if last.StepEntry? then entries[..|entries| - 1] + [step]
      else ReplaceLast(entries[..|entries| - 1], step) + [last]
  }

  /** The latest step of the latest scenario, or the latest context. */
  function LatestEntry(o: Outline): (step: Option<Entry>)
    ensures step.Some? ==> step.value.StepEntry?
  {
    if !o.scopes.step then LastStep(o.top)
    else if o.bodies == [] then None
    else LastStep(o.bodies[|o.bodies| - 1].entries)
  }

  /** The outline with the latest step changed. */
  function Retouch(o: Outline, step: Entry): Outline {
    if !o.scopes.step then o.(top := ReplaceLast(o.top, step))
    else if o.bodies == [] then o
    else
      var last := o.bodies[|o.bodies| - 1];
      o.(bodies := o.bodies[|o.bodies| - 1 := last.(entries := ReplaceLast(last.entries, step))])
  }

  /** A step with one more table, which has these headers. */
  function Tabled(step: Entry, headers: seq<string>): Entry
    requires step.StepEntry?
  {
    step.(value := step.value + " {}", args := step.args + [Arg("", "", TableArg, Some(Headed(headers)))])
  }

  /** One more row in the table of the last argument. */
  function WithCells(args: seq<Arg>, cells: seq<Cell>): seq<Arg> {
    if args == [] || args[|args| - 1].table.None? then args
    else
      var last := args[|args| - 1];
      args[|args| - 1 := last.(table := Some(WithRow(last.table.value, cells)))]
  }

  /** What a table or a row makes of the latest step. */
  function Touched(o: Outline, token: Token): (step: Option<Entry>)
    ensures step.Some? ==> step.value.StepEntry?
  {
    match LatestEntry(o)
    case None => None
    case Some(latest) =>
      if TableOfStep(o, token) then Some(Tabled(latest, token.args))
      else if RowOfStep(o, token) then
        Some(latest.(args := WithCells(latest.args, RowCells(token.args, Columns(o.table)))))
      else None
  }

  function NextLatest(o: Outline, token: Token, resolve: string -> Resolution): Option<Shape> {
    match token.kind
    case StepKind => if o.scopes.spec then Some(NewShape(resolve, token, Columns(o.table))) else o.latest
    case TableHeader =>
      if TableOfStep(o, token) && o.latest.Some? then Some(WithTable(o.latest.value, token)) else o.latest
    case ScenarioKind => None
    case CommentKind => None
    case DataTableKind => if o.scopes.spec && o.table.None? then None else o.latest
    case _ => o.latest
  }

  /** Where the program stops: the text of a step cannot be split. */
  predicate Stops(o: Outline, token: Token, resolve: string -> Resolution) {
    && (token.kind.StepKind? ==> o.scopes.spec && StepObjection(resolve, token, Columns(o.table)).None?)
    && (token.kind.StepKind? || TableOfStep(o, token))
    && var shape := NextLatest(o, token, resolve);
    shape.Some? && !Fits(shape.value)
  }

  /** Only steps and tables of steps can stop the program. */
  lemma {:induction false} StopsByKind(o: Outline, token: Token, resolve: string -> Resolution)
    ensures token.kind.StepKind? ==>
              (Stops(o, token, resolve) <==>
               && o.scopes.spec && StepObjection(resolve, token, Columns(o.table)).None?
               && !Fits(NewShape(resolve, token, Columns(o.table))))
    ensures token.kind.TableHeader? ==>
              (Stops(o, token, resolve) <==>
               TableOfStep(o, token) && o.latest.Some? && !Fits(WithTable(o.latest.value, token)))
    ensures !token.kind.StepKind? && !token.kind.TableHeader? ==> !Stops(o, token, resolve)
  {
    hide NewShape, StepObjection, Fits;
  }

  function NextScopes(o: Outline, token: Token): Scopes {
    var s := o.scopes;
    match token.kind
    case SpecKind => s.(spec := true)
    case ScenarioKind => Scopes(s.spec, true, false, false, false)
    case StepKind => if s.spec then Scopes(true, s.scenario, false, s.scenario, !s.scenario) else s
    case CommentKind => Scopes(s.spec, s.scenario, false, false, false)
    case TableHeader => if TakesTable(o) then s.(table := true) else s
    case DataTableKind => if s.spec && o.table.None? then Scopes(true, false, false, false, false) else s
    case _ => s
  }

  function NextTable(o: Outline, token: Token): Option<RectGrid> {
    var s := o.scopes;
    match token.kind
    case TableHeader => if TakesTable(o) && !s.step && !s.context then Some(Headed(token.args)) else o.table
    case DataTableKind => if s.spec && o.table.None? then Some(token.table) else o.table
    case TableRow =>
      if s.table && !AreUnderlined(token.args) && !s.step && !s.context && o.table.Some?
      then Some(WithRow(o.table.value, StaticCells(token.args))) else o.table
    case _ => o.table
  }

  /** What a token adds outside the scenarios. */
  function TopEntries(o: Outline, token: Token, resolve: string -> Resolution): seq<Entry> {
    var s := o.scopes;
    match token.kind
    case SpecKind => []
    case ScenarioKind => [ScenarioEntry(token.value)]
    case StepKind => if s.spec && !s.scenario then [NewEntry(resolve, token, Columns(o.table))] else []
    case CommentKind => if s.scenario then [] else [CommentEntry(token.value)]
    case TagKind => if s.scenario then [] else [TagsEntry(token.args)]
    case DataTableKind =>
      [if s.spec && o.table.None? then ExternalTableEntry(token.value) else CommentEntry(token.lineText)]
    case TableHeader =>
      if !s.spec || s.step || s.context || s.scenario then []
      else [if o.table.None? then TableEntry else CommentEntry(token.lineText)]
    case TableRow => if s.table || s.scenario then [] else [CommentEntry(token.lineText)]
  }

  /** What a token adds to the latest scenario. */
  function BodyEntries(o: Outline, token: Token, resolve: string -> Resolution): seq<Entry> {
    var s := o.scopes;
    if !s.scenario then []
    else
      match token.kind
      case StepKind => [NewEntry(resolve, token, Columns(o.table))]
      case CommentKind => [CommentEntry(token.value)]
      case TagKind => [TagsEntry(token.args)]
      case TableHeader => if TakesTable(o) then [] else [CommentEntry(token.lineText)]
      case TableRow => if s.table then [] else [CommentEntry(token.lineText)]
      case _ => []
  }

  function Extended(bodies: seq<Body>, more: seq<Entry>): seq<Body> {
    if bodies == [] || more == [] then bodies
    else
      var last := bodies[|bodies| - 1];
      bodies[|bodies| - 1 := last.(entries := last.entries + more)]
  }

  /** A step without arguments stops the program when a table follows it, exactly when it has a
      literal placeholder or the table has no columns; by itself it does not. */
  lemma {:induction false} PlainStepWithTable(o: Outline, token: Token, holes: nat, resolve: string -> Resolution)
    requires o.latest == Some(Shape(holes, [])) && TableOfStep(o, token)
    ensures Fits(o.latest.value)
    ensures Stops(o, token, resolve) <==> holes > 0 || token.args == []
  {
    hide NewShape, StepObjection;
    var shape := WithTable(o.latest.value, token);
    assert NextLatest(o, token, resolve) == Some(shape) && shape.shown == [token.args != []];
    assert Fits(shape) <==> holes == 0 && shape.shown[0];
  }

  /** The outline with what a token adds. */
  function Added(o: Outline, token: Token, resolve: string -> Resolution): Outline {
    Outline(NextScopes(o, token),
            if token.kind.SpecKind? then Some(token.value) else o.heading,
            o.top + TopEntries(o, token, resolve),
            if token.kind.ScenarioKind? then o.bodies + [Body(token.value, [])]
            else Extended(o.bodies, BodyEntries(o, token, resolve)),
            NextTable(o, token),
            NextLatest(o, token, resolve))
  }

  /** The outline after a token that is not refused. */
  function Advance(o: Outline, token: Token, resolve: string -> Resolution): Outline {
    match Touched(o, token)
    case None => Added(o, token, resolve)
    case Some(step) =>
      var changed := Retouch(o, step);
      Added(o, token, resolve).(top := changed.top, bodies := changed.bodies)
  }

  /** One more line: in the latest scenario, or outside when no scenario is open. */
  function WithLine(o: Outline, line: Entry): Outline {
    if o.scopes.scenario then o.(bodies := Extended(o.bodies, [line])) else o.(top := o.top + [line])
  }

  lemma {:induction false} NothingAdded(o: Outline)
    ensures o.top + [] == o.top && Extended(o.bodies, []) == o.bodies
  {
  }

  lemma {:induction false} HeadingTokens(o: Outline, token: Token, resolve: string -> Resolution)
    ensures token.kind.SpecKind? ==>
              Advance(o, token, resolve) == o.(heading := Some(token.value), scopes := o.scopes.(spec := true))
    ensures token.kind.ScenarioKind? ==>
              Advance(o, token, resolve) ==
              o.(scopes := Scopes(o.scopes.spec, true, false, false, false), latest := None,
                 top := o.top + [ScenarioEntry(token.value)], bodies := o.bodies + [Body(token.value, [])])
  {
    NothingAdded(o);
  }

  lemma {:induction false} StepToken(o: Outline, token: Token, resolve: string -> Resolution)
    requires token.kind.StepKind? && o.scopes.spec
    ensures var s := o.scopes.scenario;
            Advance(o, token, resolve) == WithLine(o, NewEntry(resolve, token, Columns(o.table)))
              .(scopes := Scopes(true, s, false, s, !s), latest := Some(NewShape(resolve, token, Columns(o.table))))
  {
    hide NewEntry, NewShape;
    NothingAdded(o);
  }

  lemma {:induction false} CommentToken(o: Outline, token: Token, resolve: string -> Resolution)
    requires token.kind.CommentKind?
    ensures Advance(o, token, resolve) ==
            WithLine(o, CommentEntry(token.value))
              .(scopes := Scopes(o.scopes.spec, o.scopes.scenario, false, false, false), latest := None)
  {
    NothingAdded(o);
  }

  lemma {:induction false} TagToken(o: Outline, token: Token, resolve: string -> Resolution)
    requires token.kind.TagKind?
    ensures Advance(o, token, resolve) == WithLine(o, TagsEntry(token.args))
  {
    NothingAdded(o);
  }

  lemma {:induction false} KeywordToken(o: Outline, token: Token, resolve: string -> Resolution)
    requires token.kind.DataTableKind?
    ensures Advance(o, token, resolve) ==
            if o.scopes.spec && o.table.None?
            then o.(scopes := Scopes(true, false, false, false, false), table := Some(token.table), latest := None,
                    top := o.top + [ExternalTableEntry(token.value)])
            else o.(top := o.top + [CommentEntry(token.lineText)])
  {
    NothingAdded(o);
  }

  lemma {:induction false} HeaderToken(o: Outline, token: Token, resolve: string -> Resolution)
    requires token.kind.TableHeader? && o.scopes.spec && (o.scopes.step ==> o.scopes.scenario)
    requires o.scopes.step || o.scopes.context ==> o.latest.Some? && LatestEntry(o).Some?
    ensures Advance(o, token, resolve) ==
            if o.scopes.step || o.scopes.context
            then Retouch(o, Tabled(LatestEntry(o).value, token.args))
                   .(scopes := o.scopes.(table := true), latest := Some(WithTable(o.latest.value, token)))
            else if o.scopes.scenario || o.table.Some? then WithLine(o, CommentEntry(token.lineText))
            else o.(scopes := o.scopes.(table := true), table := Some(Headed(token.args)), top := o.top + [TableEntry])
  {
    hide Headed, Tabled, ReplaceLast, LastStep;
    NothingAdded(o);
  }

  lemma {:induction false} RowToken(o: Outline, token: Token, resolve: string -> Resolution)
    requires token.kind.TableRow? && (o.scopes.step || o.scopes.context ==> LatestEntry(o).Some?)
    ensures Advance(o, token, resolve) ==
            if !o.scopes.table then WithLine(o, CommentEntry(token.lineText))
            else if AreUnderlined(token.args) then o
            else if o.scopes.step || o.scopes.context then
              var latest := LatestEntry(o).value;
              Retouch(o, latest.(args := WithCells(latest.args, RowCells(token.args, Columns(o.table)))))
            else if o.table.None? then o
            else o.(table := Some(WithRow(o.table.value, StaticCells(token.args))))
  {
    hide AreUnderlined, WithRow, StaticCells, WithCells, RowCells, ReplaceLast, LastStep;
    NothingAdded(o);
  }

  /** A step or a table before the heading is dropped. */
  lemma {:induction false} BeforeTheHeading(o: Outline, token: Token, resolve: string -> Resolution,
      lower: string -> string)
    requires (token.kind.StepKind? || token.kind.TableHeader?) && !o.scopes.spec && o.heading.None?
    requires o.scopes.scenario ==> o.scopes.spec
    ensures Objection(o, token, resolve, lower).None? && !Stops(o, token, resolve) && Advance(o, token, resolve) == o
  {
    hide NewShape, StepObjection;
    NothingAdded(o);
  }

  /** The outline after the first `n` tokens. */
  function Read(tokens: seq<Token>, n: nat, resolve: string -> Resolution): Outline
    requires n <= |tokens|
  {
    if n == 0 then NOTHING else Advance(Read(tokens, n - 1, resolve), tokens[n - 1], resolve)
  }

  /** A token that is not objected to and does not stop the program. */
  predicate Passes(o: Outline, token: Token, resolve: string -> Resolution, lower: string -> string) {
    Objection(o, token, resolve, lower).None? && !Stops(o, token, resolve)
  }

  /** Each of the first `n` tokens passes. */
  predicate Accepted(tokens: seq<Token>, n: nat, resolve: string -> Resolution, lower: string -> string)
    requires n <= |tokens|
  {
    forall i :: 0 <= i < n ==> Passes(Read(tokens, i, resolve), tokens[i], resolve, lower)
  }

  /** `validateSpec`: why a specification is refused that no token made impossible. */
  function Verdict(o: Outline): Option<BuildError> {
    if o.top == [] then Some(NoElements)
    else if o.heading.None? then Some(NoSpecHeading)
    else if o.table.Some? && o.table.value.headers != [] && o.table.value.Height() == 0 then Some(NoDataRows)
    else None
  }

  /** A data table without columns, where counting the rows of the first column stops the program. */
  predicate Columnless(o: Outline) {
    Verdict(o).None? && o.table.Some? && o.table.value.headers == []
  }

  /** The scopes are backed by what has been read. */
  ghost predicate Consistent(o: Outline) {
    var s := o.scopes;
    && (s.spec <==> o.heading.Some?)
    && (s.scenario ==> s.spec && o.bodies != [])
    && (s.step ==> s.scenario) && (s.context ==> s.spec && !s.scenario)
    && (s.table && !s.step && !s.context ==> !s.scenario && o.table.Some?)
    && (s.step || s.context <==> o.latest.Some?)
  }

  lemma {:induction false} NothingIsConsistent()
    ensures Consistent(NOTHING)
  {
  }

  lemma {:induction false} AdvanceConsistent(o: Outline, token: Token, resolve: string -> Resolution,
      lower: string -> string)
    requires Consistent(o) && Objection(o, token, resolve, lower).None?
    ensures Consistent(Advance(o, token, resolve))
  {
    hide StepObjection, AreUnderlined, TopEntries, BodyEntries, Headed, WithRow, StaticCells;
  }

  lemma {:induction false} ReadConsistent(tokens: seq<Token>, n: nat, resolve: string -> Resolution,
      lower: string -> string)
    requires n <= |tokens| && Accepted(tokens, n, resolve, lower)
    ensures Consistent(Read(tokens, n, resolve))
  {
    hide Advance, Consistent, Objection, Stops;
    if n == 0 {
      NothingIsConsistent();
    } else {
      ReadConsistent(tokens, n - 1, resolve, lower);
      AdvanceConsistent(Read(tokens, n - 1, resolve), tokens[n - 1], resolve, lower);
    }
  }

  /** An accepted specification has at most one heading, its scenarios come after it, and their
      names differ. */
  lemma {:induction false} AcceptedShape(tokens: seq<Token>, i: nat, j: nat, resolve: string -> Resolution,
      lower: string -> string)
    requires i < j < |tokens| && Accepted(tokens, |tokens|, resolve, lower)
    ensures tokens[i].kind.SpecKind? ==>
            !tokens[j].kind.SpecKind? && Read(tokens, |tokens|, resolve).heading == Some(tokens[i].value)
    ensures tokens[i].kind.ScenarioKind? ==> !tokens[j].kind.SpecKind?
    ensures tokens[i].kind.ScenarioKind? && tokens[j].kind.ScenarioKind? ==>
            lower(tokens[i].value) != lower(tokens[j].value)
  {
    hide Kinds, TrimSpace, StepObjection, AreUnderlined, NextScopes, NextTable, NextLatest, Stops, TopEntries,
      BodyEntries;
    HeadingStays(tokens, i, j, resolve, lower);
    HeadingStays(tokens, i, |tokens|, resolve, lower);
    assert Passes(Read(tokens, i, resolve), tokens[i], resolve, lower);
    assert Passes(Read(tokens, j, resolve), tokens[j], resolve, lower);
    if tokens[i].kind.ScenarioKind? {
      NameStays(tokens, i, j, resolve);
    }
  }

  lemma {:induction false} HeadingUntouched(o: Outline, token: Token, resolve: string -> Resolution,
      lower: string -> string)
    requires Objection(o, token, resolve, lower).None?
    ensures o.heading.Some? ==> Advance(o, token, resolve).heading == o.heading
    ensures token.kind.SpecKind? ==> Advance(o, token, resolve).heading == Some(token.value)
  {
    hide NextScopes, NextTable, NextLatest, Stops, TopEntries, BodyEntries, Extended, StepObjection;
  }

  lemma {:induction false} HeadingStays(tokens: seq<Token>, i: nat, n: nat, resolve: string -> Resolution,
      lower: string -> string)
    requires i < n <= |tokens| && Accepted(tokens, |tokens|, resolve, lower)
    ensures Read(tokens, i, resolve).heading.Some? ==>
            Read(tokens, n, resolve).heading == Read(tokens, i, resolve).heading
    ensures tokens[i].kind.SpecKind? ==> Read(tokens, n, resolve).heading == Some(tokens[i].value)
    decreases n
  {
    hide Advance, Objection, Stops;
    assert Passes(Read(tokens, n - 1, resolve), tokens[n - 1], resolve, lower);
    HeadingUntouched(Read(tokens, n - 1, resolve), tokens[n - 1], resolve, lower);
    if i < n - 1 {
      HeadingStays(tokens, i, n - 1, resolve, lower);
    }
  }

  /** There is a heading exactly when one of the tokens is one. */
  lemma {:induction false} HeadingIff(tokens: seq<Token>, n: nat, resolve: string -> Resolution)
    requires n <= |tokens|
    ensures Read(tokens, n, resolve).heading.Some? <==> exists i :: 0 <= i < n && tokens[i].kind.SpecKind?
  {
    hide NextScopes, NextTable, NextLatest, TopEntries, BodyEntries, Extended, Touched, Retouch;
    if n > 0 {
      HeadingIff(tokens, n - 1, resolve);
      assert (exists i :: 0 <= i < n && tokens[i].kind.SpecKind?) <==>
             (exists i :: 0 <= i < n - 1 && tokens[i].kind.SpecKind?) || tokens[n - 1].kind.SpecKind?;
    }
  }

  lemma {:induction false} HeadingKept(o: Outline, token: Token, resolve: string -> Resolution, k: nat)
    requires k < |o.bodies|
    ensures k < |Advance(o, token, resolve).bodies|
            && Advance(o, token, resolve).bodies[k].heading == o.bodies[k].heading
  {
    hide NextScopes, NextTable, NextLatest, Stops, TopEntries, BodyEntries;
  }

  /** The name of a scenario stays in the outline. */
  lemma {:induction false} NameStays(tokens: seq<Token>, i: nat, n: nat, resolve: string -> Resolution)
    requires i < n <= |tokens| && tokens[i].kind.ScenarioKind?
    ensures exists k ::
            0 <= k < |Read(tokens, n, resolve).bodies| && Read(tokens, n, resolve).bodies[k].heading == tokens[i].value
    decreases n
  {
    hide NextScopes, NextTable, NextLatest, Stops, TopEntries, BodyEntries, Extended;
    if i == n - 1 {
      assert Read(tokens, n, resolve).bodies[|Read(tokens, i, resolve).bodies|].heading == tokens[i].value;
    } else {
      hide Advance;
      NameStays(tokens, i, n - 1, resolve);
      var k: nat :| 0 <= k < |Read(tokens, n - 1, resolve).bodies|
        && Read(tokens, n - 1, resolve).bodies[k].heading == tokens[i].value;
      HeadingKept(Read(tokens, n - 1, resolve), tokens[n - 1], resolve, k);
      assert Read(tokens, n, resolve).bodies[k].heading == tokens[i].value;
    }
  }

  /** The values of the scenario tokens. */
  function ScenarioValues(tokens: seq<Token>, n: nat): seq<string>
    requires n <= |tokens|
  {
    if n == 0 then []
    else ScenarioValues(tokens, n - 1) + if tokens[n - 1].kind.ScenarioKind? then [tokens[n - 1].value] else []
  }

  function Headings(bodies: seq<Body>): seq<string> {
    seq(|bodies|, k requires 0 <= k < |bodies| => bodies[k].heading)
  }

  /** What a table makes of the latest step leaves all names and lines as they are. */
  lemma {:induction false} SameHeadings(o: Outline, token: Token, resolve: string -> Resolution)
    ensures Headings(Advance(o, token, resolve).bodies) == Headings(Added(o, token, resolve).bodies)
  {
    hide NextScopes, NextTable, NextLatest, TopEntries, BodyEntries, ReplaceLast, LastStep, TableOfStep, RowOfStep,
      Tabled, WithCells, Extended;
    if Touched(o, token).Some? {
      NothingBeside(o, token, resolve);
    }
  }

  /** A token that changes the latest step adds nothing. */
  lemma {:induction false} NothingBeside(o: Outline, token: Token, resolve: string -> Resolution)
    requires Touched(o, token).Some?
    ensures Added(o, token, resolve).top == o.top && Added(o, token, resolve).bodies == o.bodies
  {
    hide LatestEntry, WithCells, Tabled, NextScopes, NextTable, NextLatest, AreUnderlined;
    NothingAdded(o);
  }

  /** Every scenario token gives a scenario, in order. */
  lemma {:induction false} ScenariosInOrder(tokens: seq<Token>, n: nat, resolve: string -> Resolution)
    requires n <= |tokens|
    ensures Headings(Read(tokens, n, resolve).bodies) == ScenarioValues(tokens, n)
  {
    hide Kinds, TrimSpace, AreUnderlined, NextScopes, NextTable, NextLatest, Stops, TopEntries, BodyEntries, Advance;
    if n > 0 {
      ScenariosInOrder(tokens, n - 1, resolve);
      SameHeadings(Read(tokens, n - 1, resolve), tokens[n - 1], resolve);
    }
  }

  /** The line texts of steps. */
  function StepLines(entries: seq<Entry>): multiset<string> {
    if entries == [] then multiset{}
    else
      var last := entries[|entries| - 1];
      StepLines(entries[..|entries| - 1]) + if last.StepEntry? then multiset{last.lineText} else multiset{}
  }

  function BodyLines(bodies: seq<Body>): multiset<string> {
    if bodies == [] then multiset{}
    else BodyLines(bodies[..|bodies| - 1]) + StepLines(bodies[|bodies| - 1].entries)
  }

  /** The line texts of the step tokens after the heading. */
  function StepTokens(tokens: seq<Token>, n: nat, resolve: string -> Resolution): multiset<string>
    requires n <= |tokens|
  {
    if n == 0 then multiset{}
    else
      var token := tokens[n - 1];
      StepTokens(tokens, n - 1, resolve) +
      if token.kind.StepKind? && Read(tokens, n - 1, resolve).heading.Some? then multiset{TrimSpace(token.lineText)}
        else multiset{}
  }

  lemma {:induction false} LinesAdded(entries: seq<Entry>, more: seq<Entry>)
    requires |more| <= 1
    ensures StepLines(entries + more) == StepLines(entries) + StepLines(more)
  {
    if more == [] {
      assert entries + more == entries;
    } else {
      assert (entries + more)[..|entries|] == entries;
      assert more[..0] == [];
    }
  }

  lemma {:induction false} LinesExtended(bodies: seq<Body>, more: seq<Entry>)
    requires |more| <= 1 && (more != [] ==> bodies != [])
    ensures BodyLines(Extended(bodies, more)) == BodyLines(bodies) + StepLines(more)
  {
    hide StepLines;
    LinesAdded([], more);
    if bodies != [] && more != [] {
      var n := |bodies| - 1;
      LinesAdded(bodies[n].entries, more);
      assert Extended(bodies, more)[..n] == bodies[..n];
    } else {
      NoLines();
    }
  }

  lemma {:induction false} ReplacedLines(entries: seq<Entry>, step: Entry)
    requires step.StepEntry? && LastStep(entries).Some? && LastStep(entries).value.lineText == step.lineText
    ensures StepLines(ReplaceLast(entries, step)) == StepLines(entries)
  {
    var n := |entries| - 1;
    if entries[n].StepEntry? {
      assert (entries[..n] + [step])[..n] == entries[..n];
    } else {
      ReplacedLines(entries[..n], step);
      assert (ReplaceLast(entries[..n], step) + [entries[n]])[..n] == ReplaceLast(entries[..n], step);
    }
  }

  /** A table changes no line. */
  lemma {:induction false} SameLines(o: Outline, token: Token, resolve: string -> Resolution)
    requires Touched(o, token).Some?
    ensures var changed := Advance(o, token, resolve);
            StepLines(changed.top) + BodyLines(changed.bodies) == StepLines(o.top) + BodyLines(o.bodies)
  {
    hide StepLines, ReplaceLast, LastStep, TableOfStep, RowOfStep, WithCells, TopEntries, BodyEntries, Extended;
    NothingBeside(o, token, resolve);
    var step := Touched(o, token).value;
    assert step.lineText == LatestEntry(o).value.lineText;
    if o.scopes.step {
      var n := |o.bodies| - 1;
      ReplacedLines(o.bodies[n].entries, step);
      assert Retouch(o, step).bodies[..n] == o.bodies[..n];
    } else {
      ReplacedLines(o.top, step);
    }
  }

  lemma {:induction false} NoLines()
    ensures StepLines([]) == multiset{}
  {
  }

  /** A token adds its line if it is a step after the heading, and nothing otherwise. */
  lemma {:induction false} LinesAdvanced(o: Outline, token: Token, resolve: string -> Resolution)
    requires Consistent(o)
    ensures var next := Advance(o, token, resolve);
            StepLines(next.top) + BodyLines(next.bodies) ==
            StepLines(o.top) + BodyLines(o.bodies) +
            if token.kind.StepKind? && o.heading.Some? then multiset{TrimSpace(token.lineText)} else multiset{}
  {
    hide TrimSpace, NextScopes, NextTable, NextLatest, Consistent, StepLines, BodyLines, Extended, TopEntries,
      BodyEntries, Touched, Retouch;
    NoLines();
    if Touched(o, token).Some? {
      OnlyTables(o, token);
      SameLines(o, token, resolve);
    } else {
      NewLines(o, token, resolve);
      LinesAdded(o.top, TopEntries(o, token, resolve));
      if token.kind.ScenarioKind? {
        EmptyBody(o.bodies, token.value);
      } else {
        LinesExtended(o.bodies, BodyEntries(o, token, resolve));
      }
    }
  }

  /** Only tables and their rows change the latest step. */
  lemma {:induction false} OnlyTables(o: Outline, token: Token)
    ensures Touched(o, token).Some? ==> token.kind.TableHeader? || token.kind.TableRow?
  {
    hide AreUnderlined;
  }

  /** No step is lost and none is made up. */
  lemma {:induction false} StepsConserved(tokens: seq<Token>, n: nat, resolve: string -> Resolution,
      lower: string -> string)
    requires n <= |tokens| && Accepted(tokens, n, resolve, lower)
    ensures var o := Read(tokens, n, resolve); StepLines(o.top) + BodyLines(o.bodies) == StepTokens(tokens, n, resolve)
  {
    hide TrimSpace, Advance, Passes, Stops, Consistent, StepLines, BodyLines, Accepted, Objection;
    NoLines();
    if n == 0 {
      NoBodies();
    } else {
      var o, token := Read(tokens, n - 1, resolve), tokens[n - 1];
      AcceptedBefore(tokens, n, resolve, lower);
      StepsConserved(tokens, n - 1, resolve, lower);
      ReadConsistent(tokens, n - 1, resolve, lower);
      LinesAdvanced(o, token, resolve);
    }
  }

  lemma {:induction false} AcceptedBefore(tokens: seq<Token>, n: nat, resolve: string -> Resolution,
      lower: string -> string)
    requires 0 < n <= |tokens| && Accepted(tokens, n, resolve, lower)
    ensures Accepted(tokens, n - 1, resolve, lower)
  {
  }

  lemma {:induction false} NoBodies()
    ensures BodyLines([]) == multiset{}
  {
  }

  lemma {:induction false} EmptyBody(bodies: seq<Body>, heading: string)
    ensures BodyLines(bodies + [Body(heading, [])]) == BodyLines(bodies)
  {
    assert (bodies + [Body(heading, [])])[..|bodies|] == bodies;
  }

  function LineOf(entries: seq<Entry>): multiset<string> {
    if |entries| == 1 && entries[0].StepEntry? then multiset{entries[0].lineText} else multiset{}
  }

  lemma {:induction false} OneLine(entries: seq<Entry>)
    requires |entries| <= 1
    ensures StepLines(entries) == LineOf(entries)
  {
    if entries != [] {
      assert entries[..0] == [];
      NoLines();
    }
  }

  /** A step token adds its line in exactly one place. */
  lemma {:induction false} NewLines(o: Outline, token: Token, resolve: string -> Resolution)
    requires Consistent(o)
    ensures |TopEntries(o, token, resolve)| <= 1 && |BodyEntries(o, token, resolve)| <= 1
    ensures BodyEntries(o, token, resolve) != [] ==> o.bodies != []
    ensures token.kind.ScenarioKind? ==> BodyEntries(o, token, resolve) == []
    ensures StepLines(TopEntries(o, token, resolve)) + StepLines(BodyEntries(o, token, resolve)) ==
            if token.kind.StepKind? && o.heading.Some? then multiset{TrimSpace(token.lineText)} else multiset{}
  {
    hide TrimSpace, StepLines, LineOf, TopEntries, BodyEntries;
    AtMostOne(o, token, resolve);
    OneLine(TopEntries(o, token, resolve));
    OneLine(BodyEntries(o, token, resolve));
    if token.kind.StepKind? {
      OnePlace(o, token, resolve);
    } else {
      NoStepEntries(o, token, resolve);
    }
  }

  lemma {:induction false} AtMostOne(o: Outline, token: Token, resolve: string -> Resolution)
    requires Consistent(o)
    ensures |TopEntries(o, token, resolve)| <= 1 && |BodyEntries(o, token, resolve)| <= 1
    ensures BodyEntries(o, token, resolve) != [] ==> o.bodies != []
    ensures token.kind.ScenarioKind? ==> BodyEntries(o, token, resolve) == []
  {
    hide TrimSpace;
  }

  lemma {:induction false} NoStepEntries(o: Outline, token: Token, resolve: string -> Resolution)
    requires !token.kind.StepKind?
    ensures LineOf(TopEntries(o, token, resolve)) == LineOf(BodyEntries(o, token, resolve)) == multiset{}
  {
    hide TrimSpace;
  }

  lemma {:induction false} OnePlace(o: Outline, token: Token, resolve: string -> Resolution)
    requires Consistent(o) && token.kind.StepKind?
    ensures LineOf(TopEntries(o, token, resolve)) + LineOf(BodyEntries(o, token, resolve)) ==
            if o.heading.Some? then multiset{TrimSpace(token.lineText)} else multiset{}
  {
    hide TrimSpace;
  }
}
