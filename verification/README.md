# Verification of the Gauge core

Gauge reads Markdown-like specifications, expands reusable concepts and drives a test runner over
a message protocol. This project models the parts of it where something hard has to hold, in the
form the Go code has: code that updates objects is a class with methods, loops are loops, and each
of these methods is proved against a specification function or a property; what is promised is then
proved about those functions.

`dafny verify dfyconfig.toml` checks the whole project with Dafny 4.11.

## What is modelled

- **Execution engine.** `Protocol` has the messages, the runner's answers and the shape of a run;
  `Nesting` a stack machine for the order of messages; `ProtoItems`, `ItemExecution`,
  `ScenarioExecution`, `SpecResults`, `SpecExecution` and `SuiteExecution` the executor. The runner
  is an arbitrary function of the messages sent so far (`Runner.behaviour`) and every exchange is
  recorded in `Runner.sent`. Result objects live on the heap and are shared the way the program
  shares them: a concept whose step failed stores the result object of that step and overwrites its
  time. `ExecutionOrder` says in which order steps are sent: a walk over the plans in which a concept
  makes way for the steps inside it. The main theorem is `SuiteExecution.Start`.
- **Step text and tables.** `StepText` is the parser state machine (bitmask in the method, record in
  the specification), `StepReading` the same text read piece by piece and where that fails,
  `StepFormat` quoting and the round trip of a line, `StepPrinting` the printer of
  whole steps with their inline tables, `Fragments` the splitting at placeholders; `Tables`,
  `TableFormat` and `TableText` the column store, its printer and its reader, and `RowReading` a line
  of a table read cell by cell.
- **Concepts.** `ConceptGraph` is the circular reference check on every graph, `ConceptLinking` the
  construction of the dictionary that decides which steps are linked, `ConceptSteps` copying and
  using concepts, `SharedLookups` the lookups that calls share, `ConceptTrees` the finite trees of
  an accepted dictionary, `Resolution` the lazy resolution through parent pointers, `SentValues` what
  is sent for every cell and every parameter, at any depth. `Substitution`
  has the environments, what the lookups that concepts carry give in them and when that is
  substitution, `ParameterMeaning` what parameters mean: every name, also one in a cell of a table,
  is looked up where it is written. `ConceptUse` puts these together: adding concepts as a whole,
  and from there to the resolved steps of a specification. `ConceptExample` has two clients, which
  start from parsed concepts.
- **Specification builder.** `SpecScopes` (bitmask), `Specification` (the objects built),
  `SpecBuilder` (the nine converters) and `SpecOutline`, a reading of the tokens without objects, with
  the arguments and tables of every step; `OutlinedSteps` says what the outline has for single steps
  and follows a printed step until it is created again. The main theorem is `SpecBuilder.CreateSpecification`: what is built, why it is refused and where the
  program stops is what the tokens say.
- **Smaller machines.** `ItemFilter`, `Refactoring`, `Parallel` with `ParallelResults`, `Framing`.

## Where the code does not do what one may expect

Each of these is a theorem, with the exact condition or a witness.

- `processMessage` compares the message length with the buffered bytes without counting the length
  prefix. A read boundary that falls into the last bytes of a message of 128 bytes or more makes it
  slice past the buffer (`Framing.ConnectionHandler.HandleConnectionMessages`,
  `Framing.GapIsReachable`); for messages of 1 to 127 bytes that cannot happen
  (`Framing.ShortMessagesHaveNoGap`). What was received are always the first messages and none of
  them is empty, so an empty message blocks those after it.
- A quote or angle bracket in literal step text starts a parameter exactly when no bare `:` in
  literal text came before it (`StepText.ParameterStartsIff`, `StepText.ColonHidesArgument`), and an
  unterminated quote is accepted exactly when a bare colon follows it or the text ends inside an
  escape (`StepText.OpenQuoteGoesUnnoticed`). The table of escapes at stepProcessor.go:43 lists
  `\r`, but the function that is called knows `\t` and `\n` only; the model follows the function, so
  `\r` in an argument is printed and not read back (`StepFormat.ArgumentsComeBack`).
- A row of nothing but blanks and dashes is lost when a table is printed and read
  (`TableText.TableRoundTrip`, `TableText.RowOfDashesIsLost`).
- Only the first of several steps that name a concept ahead of its definition becomes linked
  (`ConceptLinking.Dictionary.FullyLinkedIff`), and a cycle through two unlinked steps is accepted
  (`ConceptGraph.UnlinkedCycleIsMissed`); adding four concepts in the right order, to a
  dictionary that holds nothing, succeeds although three of them are a cycle
  (`ConceptExample.AddMissedCycle`). For the concepts in the order in which they are added, everything
  is linked exactly when no concept is named twice ahead of its definition, and then exactly the cycles
  are reported (`ConceptLinking.Dictionary.LinkedByInputIff`).
- All calls of a nested concept write into one lookup and the last call wins. Of an argument that is
  not dynamic the name and the table are lost (`SharedLookups.KeptIff`). So nested calls resolve as
  written exactly when nothing is lost and all calls of a concept pass the same arguments, up to the
  name of a dynamic one, which resolution does not read (`SharedLookups.EveryArgumentAgreesIff`,
  `ConceptUse.CallsAlikeIff`). Otherwise a step is sent the argument of another call
  (`ConceptUse.OtherCallIsSent`).
- The dynamic cells of a table inside a concept are looked up in the data table row and never in the
  concept. The result is right exactly when the row has the same text for every cell that is shown
  (`ParameterMeaning.ExpandAllIff`), and there is a concept with a table for which it is not
  (`ParameterMeaning.TableInConceptGoesWrong`).
- The failure mark of the specification that runners and plugins see leaves out failed after-scenario
  hooks (`Nesting.SpecMark`), although the specification result counts them.
- The rows in `failedDataTableRows` are offsets in the executed range. They are rows of the table
  exactly when the range starts at the first row or nothing failed (`SpecResults.OffsetsAreRowsIff`,
  `SpecResults.SecondRowIsRecordedAsFirst`).
- The program stops while a specification is read exactly at the first step, or table of a step, that
  has more placeholders than arguments or an argument without text, or when it counts the rows of a
  data table without columns (`SpecBuilder.CreateSpecification`, `Fragments.PopulateFragments`). A
  literal `{}` in a step without arguments does no harm until a table follows it
  (`SpecOutline.PlainStepWithTable`).
- A step, or the first line of a table, before the heading of the specification is dropped without
  an error, while the rows of that table are kept as comments (`SpecOutline.BeforeTheHeading`,
  `SpecOutline.RowToken`). A `table:` keyword that is taken ends the open scenario, so steps after it
  become contexts (`SpecOutline.KeywordToken`).
- The tag filter removes every item that is not a scenario, while the lists of contexts and comments
  stay: afterwards they are those of the items exactly when there were no contexts and no comments
  (`ItemFilter.FilterItems`, `ItemFilter.TagFilterKeeps`).
- A table rows flag stops the run at a specification without a data table
  (`SpecExecution.DataTableRows` with a row count of 0).
- Which hook failure a parallel run reports depends on the order of arrival
  (`ParallelResults.HookFailureOrderIff`), and a stream whose runner does not start skips its
  specifications without failing the run (`ParallelResults.SomeStreamFailed`).

## Model

| member | source | states |
|---|---|---|
| SuiteExecution.Start | execution.go:100-125 | For every runner behaviour: the suite result is failed if and only if a message other than a data store initialisation was answered with a failure; the failed count is the number of failed specifications; all messages are well nested and carry the answers of the runner; every scenario, once or for every row of the range, sends the steps of the walk over its contexts and then its items, in order and as far as it gets, and all of them when nothing fails; each spec result shows its own run, scenario by scenario |
| ExecutionOrder.WalkIsLeaves | specExecutor.go:301-322 | The walk, in which a concept makes way for the steps inside it in front of what is left, visits the leaves of the plans from left to right |
| ExecutionOrder.ScenarioFollows | specExecutor.go:162-212 | The steps that a scenario sends are the first ones of the walk over its contexts followed by its items, and the whole walk unless the scenario breaks off |
| ExecutionOrder.SpecFollows | specExecutor.go:97-125 | Scenario c of row r of the range is the run number r times the number of scenarios plus c; without rows every scenario has one run |
| SuiteExecution.StartSuite | execution.go:54-64 | No specification is executed when the before-suite hook failed, otherwise all of them in order |
| SuiteExecution.ExecuteSpecs | execution.go:112-116 | Results are collected in order; flag and count follow the runs |
| SuiteExecution.SuiteResult.AddSpecResult | specResult.go:126-134 | A failed specification sets the flag and raises the count by one |
| SpecExecution.Execute | specExecutor.go:81-116 | Failure and execution time of a spec result are exactly those of all its messages but the data store initialisations, through nested concepts and shared result objects; its items present the runs scenario by scenario, and the failed count is the number of scenarios that failed in some row |
| SpecExecution.StartSpec | specExecutor.go:55-66 | The data store comes first, and a failed before-spec hook marks and fails the specification |
| SpecExecution.EndSpec | specExecutor.go:110-114 | A failed after-spec hook fails the specification, and its time is added |
| SpecExecution.ExecuteSpecBody | specExecutor.go:97-108 | With no data table rows every scenario runs once, otherwise once for each row of the range; item k presents the runs of scenario k row by row, and the failed count is the number of scenarios that failed in at least one row |
| SpecExecution.ExecuteTableDrivenScenarios | specExecutor.go:118-125 | Every scenario runs for every row of the range, row after row, and the results are presented scenario by scenario |
| SpecExecution.ExecuteScenarios | specExecutor.go:154-160 | Every scenario runs whatever happened to the earlier ones, and each carries the right spec mark |
| SpecExecution.ExecuteRows | specExecutor.go:118-123 | The runs are those of the rows of the range, row after row |
| SpecExecution.LegalAppend | specExecutor.go:154-160 | Legal runs of scenarios compose: later scenarios see the spec mark the earlier ones left |
| SpecExecution.DataTableRows | specExecutor.go:528-542 | A flag is refused exactly when it is malformed or not a range inside the table; every accepted range is non-empty and inside a table that has rows |
| SpecExecution.SelectedRows | gauge.go:272-281 | The rows executed are all rows, or exactly those between the two numbers of the flag |
| SpecResults.SpecResult.AddScenarioResults | specResult.go:144-154 | Counts, flag, time and items grow by those of the scenarios in order |
| SpecResults.SpecResult.AddGroup | specResult.go:159-177 | The group of a scenario has its results in row order; it counts as failed once if any row failed |
| SpecResults.SpecResult.AddTableDrivenScenarioResult | specResult.go:156-180 | The results are transposed: one group for each scenario; the failed count rises by the scenarios that fail in at least one row; the time is that of all runs; the failures recorded are the offsets of the failing rows, scenario by scenario |
| SpecResults.GroupsPresent | specResult.go:156-180 | The groups are the transpose of the results: group k has scenario k's outcome of every row in row order |
| SpecResults.OffsetsAreRowsIff | specResult.go:163-170 | The failed rows recorded are rows of the data table if and only if the range starts at the first row or nothing failed |
| SpecResults.SecondRowIsRecordedAsFirst | specResult.go:163-170 | A failure in the second row, executed alone, is recorded as one in the first |
| SpecResults.OneRowCount | specResult.go:144-154 | For one row the scenarios that fail in some row are the failed ones |
| SpecResults.TransposeTimes | specResult.go:159-170 | Adding times scenario by scenario equals adding them in the order of execution |
| SpecResults.TransposeFailures | specResult.go:171-174 | Some scenario fails in some row if and only if one of all runs failed |
| ScenarioExecution.ExecuteScenario | specExecutor.go:162-183 | The scenario is failed if and only if a hook or the last step attempted failed; its time is that of its hooks and steps; the steps attempted are the shortest failing prefix of contexts and items |
| ScenarioExecution.StartScenario | specExecutor.go:135-146 | The scenario mark starts cleared; a failed before-scenario hook sets both marks |
| ScenarioExecution.EndScenario | specExecutor.go:179-182 | The after hook counts for the result but sets no mark; item times are added after it |
| ScenarioExecution.ExecuteBody | specExecutor.go:173-176 | Items run only when no context failed; together they attempt the shortest failing prefix |
| ScenarioExecution.ScenarioResult.UpdateExecutionTimeFromItems | specResult.go:199-209 | Adds the times of the items, where items that did not run count nothing |
| ItemExecution.Executor.ExecuteItems | specExecutor.go:222-230 | Refines a flat scan: the steps attempted are the shortest prefix of the flattened leaves that ends in a failure, or all leaves |
| ItemExecution.Executor.ExecuteItem | specExecutor.go:292-299 | The same for one item, with the failure and the whole time of the attempt in what it stores |
| ItemExecution.Executor.ExecuteConcept | specExecutor.go:311-322 | A concept stores the failure and the time of all steps attempted inside it, at any depth |
| ItemExecution.Executor.ExecutePart | specExecutor.go:313-316 | After each part the concept's result is that of the parts so far |
| ItemExecution.Executor.SetExecutionResultForConcept | specExecutor.go:324-351 | The sum of the parts becomes the time; after a failure the result object is the failed part's own object, otherwise a new one, and the concept step shows the same |
| ItemExecution.Executor.ExecuteStep | specExecutor.go:358-393 | The step is sent only when the before-step hook passed; failure, time, hook failures and marks are those of its two or three messages |
| ItemExecution.Executor.AddExecutionTimes | specExecutor.go:395-404 | Hook times are added, and an absent time counts as nothing |
| ItemExecution.Runner.ExecuteAndGetStatus | specExecutor.go:430-449 | Anything but a proper status is a failure; every exchange is recorded, and every recorded answer is that of the runner to the messages before it |
| ItemExecution.AttemptsAppend | specExecutor.go:222-230 | An attempt without a failure followed by another one is an attempt of the joined list |
| ItemExecution.FailedAttemptExtends | specExecutor.go:222-230 | A failed attempt is an attempt of every longer list |
| ProtoItems.NewItems | specExecutor.go:214-220 | Every plan gives an item of its own shape, value by value and with every step inside a concept, and every step and concept a place of its own for its result |
| ProtoItems.SeparateParts | specExecutor.go:324-351 | The parts of a concept keep their results in places of their own |
| Protocol.SuiteTotals | execution.go:100-125 | A suite run failed if and only if one of its counted messages failed |
| Protocol.SpecTotals | specExecutor.go:81-116 | Failure and time of a specification run are those of its counted messages |
| Protocol.ScenarioTotals | specExecutor.go:162-183 | Failure and time of a scenario run are those of its counted messages |
| Protocol.StepTotals | specExecutor.go:358-393 | Failure and time of a step run are those of its messages |
| Nesting.SuiteNested | execution.go:54-70 | The stack machine reads the messages of every suite run from empty stack to empty stack |
| Nesting.SpecNested | specExecutor.go:55-72 | A specification leaves the open suite as it found it |
| Nesting.ScenarioNested | specExecutor.go:135-183 | A scenario leaves the open specification as it found it |
| Nesting.ExecuteStepIsGuarded | specExecutor.go:366-381 | In every accepted sequence a step execution directly follows a passed before-step message and is directly followed by the after-step message |
| Nesting.FailedStartEndsAtOnce | specExecutor.go:94-110 | After a failed starting message of any level the next message is the ending of that level |
| Nesting.SpecMark | specExecutor.go:487-499 | The spec mark in the after-spec message is set if and only if a message before it failed that is neither a data store initialisation nor an after-scenario hook |
| StepText.ProcessStepText | stepProcessor.go:90-157 | For every text the bitmask loop computes the machine, which reads as StepReading says |
| StepReading.ParseIsDescend | stepProcessor.go:90-157 | For every text the machine computes what reading piece by piece gives: literal text, escapes, and each parameter up to the first character that closes it; after a bare colon all is literal |
| StepReading.ParseFailsIff | stepProcessor.go:141-153 | A step text fails if and only if it has, in literal text with no bare colon before, a brace without a backslash, or an opened parameter that nothing closes while the text does not end inside an escape and, for a quote, no bare colon follows; and the error is the one for that character |
| StepText.MarkersMatchArguments | specification.go:485-507 | A parsed value has at least as many markers as arguments, and the step is accepted if and only if marker i is the one written for argument i, for every i |
| StepText.ColonDisablesParameters | stepProcessor.go:113-117 | After a bare colon in literal text nothing is a parameter and nothing is an error |
| StepText.ParameterStartsIff | stepProcessor.go:90-126 | In literal text a quote or an angle bracket starts a parameter if and only if no bare colon in literal text came before it |
| StepText.ColonHidesArgument | stepProcessor.go:113-117 | A text whose quoted argument is read as one, and with a colon in front as text |
| StepText.OpenQuoteGoesUnnoticed | stepProcessor.go:148-153 | After any text that leaves the parser in literal text, a quote that nothing closes is an error exactly when no bare colon follows and the text does not end inside an escape; otherwise the rest is lost |
| StepText.KindsAppendChar | specification.go:606-627 | One more character completes at most one more marker, at the end |
| StepPrinting.FormatStep | formatter.go:59-84 | The program stops exactly when an argument is missing or a table has no columns; otherwise replacing placeholders one by one from the front gives the printed step, tables included |
| StepFormat.StepRoundTrip | stepProcessor.go:90-157 | Printing a step and parsing the printed text gives the same value, the same kinds and the arguments as they read back |
| StepPrinting.StepWithTableRoundTrip | formatter.go:59-84 | A step with an inline table is printed as its own line and the lines of the table; the line reads back as the same step, and the lines after it are those of the table |
| StepPrinting.FillInFront | formatter.go:62-76 | The text of the last argument may hold anything, also placeholders |
| StepFormat.ArgumentsComeBack | helper.go:103-106 | The arguments come back unchanged if and only if every character is one that quoting leaves alone or writes as an escape the parser knows |
| StepFormat.ReadQuoted | stepProcessor.go:128-146 | Reading a quoted argument inside a parameter gives its read-back form and keeps the state |
| StepFormat.PrintedStep | formatter.go:62-76 | Replacing placeholders is not confused by the arguments already written |
| StepFormat.ExtractWeave | specification.go:606-627 | Extraction turns text with markers into text with placeholders and the kinds in order |
| StepFormat.StepLine | specparser.go:133-134 | The printed line is classified as a step with the same text |
| Fragments.PopulateFragments | specification.go:646-673 | It fails exactly when a step with arguments has more placeholders than arguments; otherwise the fragments join to the value and have the parameters 0, 1, 2 and so on in order |
| Fragments.HoleStarts | specification.go:653 | The positions found are placeholders, ascending, disjoint, and as many as are counted |
| Tables.Table.AddHeaders | table.go:89-99 | Headers are trimmed, columns are empty, and the index finds the last column of a name |
| Text.TrimmedParts | table.go:93 | Trimming takes away blanks at both ends, and all of them |
| Tables.Table.AddRows | table.go:114-132 | A row is cut or filled up to the number of headers, so the table stays rectangular |
| Tables.Table.GetRows | table.go:134-150 | The rows shown are those of the column store, cell by cell through the header index; it stops exactly for a table that was given an empty list of headers |
| Tables.ShowsOwnCells | table.go:77-82 | Every column shows its own cells if and only if the headers are distinct |
| TableFormat.FormatTable | formatter.go:108-142 | The text is the lines of header, separator and rows with the computed widths, also for a table that was never filled; it stops exactly for one with an empty list of headers |
| TableFormat.FindLongestCellWidth | formatter.go:149-158 | The width is the longest cell or the minimum |
| TableFormat.LongestFits | formatter.go:144-147 | No cell is wider than its column, so padding is never negative; and no column is wider than its longest cell or its header |
| TableFormat.WidthHoldsChar | formatter.go:140-147 | Widths count the bytes of a character in UTF-8 |
| TableText.ProcessTable | specparser.go:288-331 | The scan with escapes computes the cells of a line, or the header error |
| RowReading.RowIsRead | specparser.go:288-331 | A row has the trimmed texts in front of the bars without a backslash, a header too when they are distinct and not blank; otherwise the first one that is blank or stood before says which error it is |
| TableText.ReadTable | specification.go:426-454 | Reading lines stores the header and exactly the rows that are not separators |
| TableText.LineRoundTrip | specparser.go:288-322 | Reading a printed line gives its cells back |
| TableText.TableRoundTrip | formatter.go:108-142 | Printing and reading gives the headers and the rows back; all rows come back if and only if none looks like a separator |
| TableText.RowOfDashesIsLost | specification.go:437-438 | There is a table whose only row does not come back |
| TableText.UnderlinedByCell | helper.go:70-83 | A row is a separator exactly when every cell by itself is a run of dashes |
| TableText.StoredTableShowsKeptRows | table.go:101-150 | A table that stored the rows that were read shows exactly these rows |
| TableText.LinesAlign | formatter.go:108-147 | All printed lines have the same width in bytes |
| ConceptGraph.ConceptDictionary.CheckCircularReferencing | concept.go:278-299 | Ends on every reference graph; reports a chain that returns to itself if and only if there is one, and otherwise restores the path |
| ConceptGraph.ConceptDictionary.ValidateConcepts | concept.go:267-276 | Reports an error if and only if some linked chain is closed by a reference to its start, in every map order |
| ConceptGraph.LinkedCheckFindsCycles | concept.go:267-299 | In a fully linked dictionary the reported graphs are exactly the cyclic ones |
| ConceptGraph.UnlinkedCycleIsMissed | concept.go:316-324 | There is a graph with a cycle that is not reported |
| ConceptGraph.ChainsAreShort | concept.go:278-299 | After acceptance no chain repeats a concept or is longer than the number of concepts |
| ConceptGraph.GetCopy | specification.go:952-966 | After acceptance copying ends, with a depth of at most the number of concepts |
| ConceptLinking.Dictionary.UpdateStep | concept.go:316-324 | Remembers the first step with a text and turns only that one into a concept |
| ConceptLinking.Dictionary.Define | concept.go:301-302 | A definition links the first step with its text and no other |
| ConceptLinking.Dictionary.ReplaceNestedConceptStep | concept.go:303-312 | A step is linked at once exactly when a search finds a complete concept |
| ConceptLinking.Dictionary.ReplaceNestedConceptSteps | concept.go:301-313 | The concept and then all its steps come in, in order, and the dictionary keeps its invariant |
| ConceptLinking.Dictionary.Add | concept.go:242-255 | A duplicate is reported if and only if a name is taken before or by an earlier concept; the dictionary then holds, besides what it held, exactly the concepts in front of the first duplicate, with the steps they had, and what has come in is these concepts and their steps in order |
| ConceptLinking.DefinitionLinks | concept.go:316-324 | After a definition the linked steps are those before and the first one with its text |
| ConceptLinking.AllLinkedIff | concept.go:301-324 | Every step that names another concept is linked if and only if no concept is named twice ahead of its definition |
| ConceptLinking.Dictionary.FullyLinkedIff | concept.go:301-324 | The same for the reference graph that the check sees |
| ConceptLinking.Dictionary.CheckIsExact | concept.go:267-299 | If no concept is named twice ahead of its definition the check reports exactly the cycles |
| ConceptLinking.MissedCycleIsBuilt | concept.go:301-324 | Four concepts, added in this order, have that graph |
| ConceptLinking.Dictionary.GraphOfLog | concept.go:301-324 | The graph of every dictionary follows from the order of its definitions and steps |
| ConceptLinking.OneGraph | concept.go:301-324 | What has come in, in its order, has one graph |
| ConceptLinking.EntriesAppend | concept.go:242-255 | Adding concepts in several calls is adding them in one |
| ConceptLinking.Dictionary.LinkedByInputIff | concept.go:301-324 | For the names and step texts of the concepts in the order in which they were added: every step that names another concept is linked if and only if no concept is named twice ahead of its definition, and then the check reports exactly the cycles |
| ConceptSteps.GetCopy | specification.go:952-966 | A copy means the same as the original; concepts are copied with lookups of their own and plain steps are shared |
| ConceptSteps.CreateConceptStep | specification.go:526-539 | The use binds its own arguments, and nothing of the dictionary changes but parent pointers |
| ConceptSteps.ProcessConceptSteps | specification.go:509-524 | Every step that names a concept becomes its own use of it, independent of all other uses, with new steps and lookups; the dictionary lookups stay as they are |
| ConceptSteps.PopulateConceptLookup | specification.go:709-713 | The lookup binds each formal to the argument in its position |
| ConceptSteps.Lookup.GetCopy | specification.go:840-850 | A new lookup with the same names and values |
| SharedLookups.UpdateLookupForNestedConcepts | concept.go:326-337 | For every map order each lookup has the values that the calls leave one after the other |
| SharedLookups.LastCallWins | concept.go:331-333 | The lookup binds the arguments of the last call, without their names and tables |
| SharedLookups.StoredArgument | concept.go:331-333 | After a call each parameter has the value and the kind of the argument in its place, and neither its name nor its table |
| SharedLookups.KeptIff | concept.go:331-333 | What is stored for an argument evaluates like the argument in every environment if and only if the argument is dynamic or has neither name nor table |
| SharedLookups.EveryCallAgreesIff | concept.go:326-337 | The shared lookup is right for every call, as far as resolution can tell, if and only if what any call stores is right for every other one |
| SharedLookups.EveryArgumentAgreesIff | concept.go:326-337 | With different parameter names: if and only if no call loses an argument and all calls pass the same in every place |
| SharedLookups.NestedLookupsAgreeIff | concept.go:326-337 | The same for the lookups on the heap after the update |
| Substitution.AlikeIff | specification.go:92-102 | Two arguments evaluate to the same in every environment if and only if they are equal or are dynamic with the same value |
| Substitution.AlikeEnvsIff | specification.go:92-102 | Two lookups give the steps inside a concept the same environment, whatever is around the concept, if and only if they are alike |
| Substitution.ComputeIsExpand | specExecutor.go:259-276 | With lookups that bind the arguments of their own use, up to what is never read, what is computed is substitution |
| ParameterMeaning.ExpandIff | resolver.go:88-107 | What a use of a concept resolves to is what it means if the row has the right text for every cell that is shown, and, when it means something, only then |
| ParameterMeaning.ExpandAllIff | resolver.go:88-107 | The same for a list of steps |
| ParameterMeaning.TableInConceptGoesWrong | resolver.go:97-100 | For a concept with a table whose cell is its parameter: without a column of that name the program stops although the parameter has a value, and with one it shows the text of the column |
| ConceptTrees.EnoughLevels | concept.go:267-299 | In an accepted dictionary the steps below every step form a finite tree, with as many levels as there are concepts at most |
| ConceptTrees.TreesAgree | specification.go:952-966 | When the lookups of all nested steps are right, so is every tree |
| ConceptUse.AddConcepts | concept.go:242-258 | Adding concepts as a whole, for every order of the map: the dictionary holds, besides what it held, the concepts in front of the first duplicate, with the steps and calls they had, linked by the order in which they came; a duplicate is reported exactly when a name is taken, a circular reference exactly when a linked chain is closed; otherwise every concept has its finite tree, which is its calls unfolded along the links, and all nested lookups in these trees are right when the calls of each concept are alike |
| ConceptUse.RightIff | concept.go:326-337 | For every order of the concepts a lookup is right for all calls of its concept if and only if they are alike |
| ConceptUse.CallsAlikeIff | concept.go:326-337 | With different parameter names the calls of a concept are alike if and only if they lose nothing and pass the same in every place |
| ConceptUse.OneCallIsAlike | concept.go:326-337 | One call with dynamic or plain arguments is alike |
| ConceptUse.OtherCallIsSent | concept.go:326-337 | After two nested calls of a concept the first one shows its own argument while its step is sent the argument of the second |
| ConceptUse.UseAgrees | specification.go:526-539 | A use of a concept whose nested lookups are right has right lookups all the way down |
| ConceptUse.ResolveSpecification | specExecutor.go:214-276 | Steps that use an accepted dictionary resolve, for a row, to what its lookups say; when these are right, that is what the steps mean if the row has the right text for every cell that is shown, and, when they mean something, only then |
| ConceptExample.AddMissedCycle | concept.go:242-258 | For all concepts with these names and steps, added to a dictionary that holds nothing, the cycle is not reported |
| ConceptExample.UseExample | concept_test.go:472-500 | From two parsed concepts, the outer one calling the inner one with its parameter, to the resolved step: the step inside is sent the text of the specification, for every text and row |
| Resolution.ResolveItems | specExecutor.go:214-276 | For all steps, resolving them for a row gives what the lookups of the concepts say, environment by environment from the row down, whatever was resolved before; when the lookups are right this is substitution, and then it is what the steps mean if the row has the right text for every cell that is shown, and, when they mean something, only then; the plans are, at every depth, the only ones that send for each argument and each table cell the value that it stands for |
| Resolution.ResolveConcept | specExecutor.go:259-276 | Walking parent pointers computes what the lookups of the concept and of the concepts inside say in the environment around it, also where it stops; dictionary and steps keep their values |
| Resolution.NestedBinds | specification.go:92-102 | Looking any name up through the parents of a nested concept gives its value in the lookup, read in the environment around the concept, or nothing where that has none |
| Resolution.TopBinds | specExecutor.go:456-485 | In a concept used by the specification it gives the value taken from the row |
| Resolution.PopulateConceptDynamicParams | specExecutor.go:456-485 | The arguments are evaluated in the surrounding environment, and the steps inside get the environment that the lookup gives; it stops exactly when an argument, or at the top a value of the lookup, names nothing |
| Resolution.GetResolvedParams | resolver.go:46-86 | The parameters sent are, one by one, those that SentValues gives for the arguments, and those of the reference meaning; the program stops exactly where there are none |
| Resolution.CreateProtoStepTable | resolver.go:88-107 | The table sent has the headers of the grid, as many rows, and in each place the value of the cell that is shown there or, when it is dynamic, the value it names in the row; there is none exactly when there are no headers or a dynamic cell names nothing |
| SentValues.TableSentIff | resolver.go:88-107 | There is exactly one such table, or none |
| SentValues.ComputedIsSentIff | specExecutor.go:250-286 | What is computed for a step or a concept is the one plan whose leaves have these parameters and whose groups show these arguments, if there is one |
| SpecBuilder.CreateSpecification | specification.go:253-288 | For every token list: it is built exactly when every token and the whole pass, and then has the outline of the tokens, item by item, with the text, the arguments and the tables of every step, and with its data table; it stops exactly at the first step or table of a step that cannot be split, or at a data table without columns; a refusal is the objection to the first token that has one, or the verdict on the whole; all invariants hold; without literal placeholders and tables without columns every step has as many arguments as placeholders |
| SpecBuilder.OneOutcome | specification.go:253-288 | Being built, being refused and stopping exclude each other |
| SpecBuilder.OneReason | specification.go:253-288 | A refusal has one reason |
| SpecBuilder.BuiltIff | specification.go:592-604 | A specification is built exactly when every token passes, one of them is a heading, it has lines, and its data table, if there is one, has columns and rows |
| SpecOutline.ArgumentsIff | specification.go:730-773 | A step is refused for its arguments exactly when one of them names nothing; otherwise each argument is what its marker stands for |
| OutlinedSteps.StepIsRead | specification.go:323-354 | After an accepted step the latest step of the outline has its line, its text with placeholders and these arguments |
| OutlinedSteps.StepWithTableIsRead | specification.go:776-810 | A step followed by a table has the arguments of its own text and, as the last one, a table with the trimmed headers and exactly the rows that are no separators, where a cell in angle brackets is dynamic if and only if it names a column |
| OutlinedSteps.DataTableIsRead | specification.go:395-454 | A table before the steps becomes the data table with the rows that follow |
| OutlinedSteps.OtherTokensAppend | specification.go:541-582 | Any other token adds at the end and changes no line before |
| OutlinedSteps.TablesTouchTheLatest | specification.go:640-644 | A table or a row changes at most one step, the latest one |
| OutlinedSteps.PrintedStepComesBack | formatter.go:59-84 | A step that is printed, parsed and created again has its text back, and for every argument one of its kind with the text as it reads back; it is refused only when one of them names nothing |
| OutlinedSteps.StaticArgumentsComeBack | formatter.go:59-84 | Static arguments whose characters survive quoting come back as they were |
| SpecBuilder.Builder.ConvertToken | specification.go:260-277 | All converters together refuse a token exactly when there is an objection to it, stop exactly where a step cannot be split, and otherwise extend the outline as the token says |
| SpecBuilder.Builder.Convert | specification.go:260-277 | At most one converter applies to a token |
| SpecBuilder.Builder.NothingFires | specification.go:323-342 | A token that no converter takes is not objected to and leaves the outline as it is |
| SpecBuilder.Builder.Apply | specification.go:468-472 | Every converter keeps the invariant, and after it no later converter applies |
| SpecBuilder.Builder.SpecConverter | specification.go:291-301 | A second heading is refused, and nothing else; the first one opens the specification scope |
| SpecBuilder.Builder.ScenarioConverter | specification.go:303-321 | Refused exactly before the heading or when the name is taken; otherwise one new empty scenario at the end, and only the scenario scope is open |
| SpecBuilder.Builder.StepConverter | specification.go:323-338 | Refused or stopped exactly when creating the step is; otherwise the step is the last item of the latest scenario and only the step scope is open in it |
| SpecBuilder.Builder.ContextConverter | specification.go:340-354 | A step outside a scenario becomes a context, the last item of the specification |
| SpecBuilder.Builder.CommentConverter | specification.go:356-368 | The comment goes to the open scenario or to the specification, and no table stays open |
| SpecBuilder.Builder.KeywordConverter | specification.go:370-393 | The external table is taken exactly when there is a heading and no table, and then the scenario is left |
| SpecBuilder.Builder.TableHeaderConverter | specification.go:395-424 | A table becomes the last argument of the latest step or context, or the data table, or a comment, and the table scope opens exactly when it is taken; it stops exactly when the step does not fit with the table |
| SpecBuilder.Builder.HeaderOfStep | specification.go:776-781 | The step gets one more placeholder and one more table argument |
| SpecBuilder.Builder.TableRowConverter | specification.go:426-454 | Without an open table the row becomes a comment; separators change nothing; any other row goes to the open table; the scopes stay |
| SpecBuilder.Builder.AddTableRow | specification.go:440-451 | A row goes to the last argument of the latest step, or to the data table, and nowhere else |
| SpecBuilder.WarnedCells | specification.go:783-810 | There is one warning for each cell in angle brackets that names no column, and no other |
| SpecBuilder.Builder.TagConverter | specification.go:456-466 | Tags go to the open scenario or the specification and leave the scopes |
| SpecBuilder.Builder.CreateStepUsingLookup | specification.go:485-507 | The two refusals happen exactly when marker and argument counts differ or a parameter names nothing, and it stops exactly when the step has arguments and does not fit; otherwise argument i is what marker i stands for: the text of a static one, the name of a dynamic one, and what a special one resolves to |
| SpecBuilder.Builder.CreateStep | specification.go:475-483 | The same with the columns of the data table as names; a good token gives a step that matches its placeholders |
| SpecBuilder.Builder.LatestStep | specification.go:584-590 | The latest step exists whenever a step or context scope is open |
| SpecBuilder.Builder.ValidatedByOutline | specification.go:592-604 | Validation looks at nothing but the outline, and stops only at a data table without columns |
| SpecOutline.ReadConsistent | specification.go:290-473 | After every accepted token the scopes are backed: a scenario scope has a heading and a scenario, a step scope lies in a scenario, a context scope does not, and a table scope alone has a data table |
| SpecOutline.AcceptedShape | specification.go:293-311 | Accepted tokens have at most one heading, which comes before all scenarios and is the one kept, and the names of scenarios differ |
| SpecOutline.ScenariosInOrder | specification.go:303-321 | Every scenario token gives one scenario, in order |
| SpecOutline.StepsConserved | specification.go:323-354 | The lines of all steps and contexts are exactly those of the step tokens after the heading, each in one place |
| SpecOutline.PlainStepWithTable | specification.go:646-673 | A step without arguments stops the program with the table that follows it, exactly when it has a literal placeholder or the table has no columns |
| SpecOutline.BeforeTheHeading | specification.go:323-354 | A step or table before the heading is neither refused nor kept |
| SpecBuilder.LiteralTextIsGood | specification.go:606-627 | Literal text around markers gives as many placeholders as arguments |
| SpecBuilder.LiteralPlaceholderIsBad | specification.go:646-665 | One literal placeholder in front gives one placeholder too many |
| SpecScopes.Transitions | helper.go:25-56 | What each change of the bitmask does to the scopes |
| Specification.Step.AddInlineTableRow | specification.go:640-644 | Only the table of the last argument grows, by one row |
| Specification.Step.AddInlineTableHeader | specification.go:776-781 | A step that matches its placeholders still does |
| Specification.ItemAdded | specification.go:541-582 | One more item extends exactly the list of its kind |
| ItemFilter.FilterItems | specification.go:675-682 | The loop that steps back ends, asks about every original item once and in order, keeps exactly what the filter leaves, and keeps the scenarios those of the items; contexts and comments stay as they are, so they are those of the items afterwards exactly when no step and no comment was removed |
| ItemFilter.RemoveItem | specification.go:684-707 | One item and, for a scenario, the scenario of that item are removed, and nothing else changes |
| ItemFilter.GetIndexFor | helper.go:94-101 | The first scenario with equal contents, item by item, or -1 if there is none |
| ItemFilter.IndexFilterKeeps | specItemFilter.go:50-61 | Of the scenarios exactly the one with the index stays, and everything that is not a scenario |
| ItemFilter.ListedKept | specification.go:684-707 | Contexts and comments are all among the items left exactly when no step and no comment was removed |
| ItemFilter.TagFilterKeeps | specItemFilter.go:67-76 | The tag filter leaves nothing but scenarios, so contexts and comments are all left exactly when there were none |
| ItemFilter.FilterSpecsItems | specItemFilter.go:175-184 | One filter goes through all specifications in order, and those left without a scenario are dropped |
| Refactoring.CreateOrderOfArgs | refactor.go:155-161 | For each new position the first old position that reads the same, or -1 |
| Refactoring.SliceIndex | refactor.go:163-170 | The first index that satisfies the test, or -1 |
| Refactoring.GetArgsInOrder | specification.go:124-137 | The reordered arguments, in every order of the map: in each place the argument of the first old parameter that reads the same, or else the text of the new parameter as a static argument, in a concept as a dynamic one |
| Refactoring.Rename | specification.go:111-122 | A step is renamed if and only if its text matches up to blanks at the ends |
| Refactoring.RenameSteps | specification.go:715-728 | The flag is true if and only if some step matched; every step is renamed or untouched |
| Refactoring.ThereAndBackIff | specification.go:124-137 | Renaming there and back returns every argument list if and only if the old parameters are distinct and all occur in the new text |
| Refactoring.StepComesBack | specification.go:111-137 | Under that condition a step gets its arguments back and its text up to blanks at the ends |
| Refactoring.RenameThereAndBack | specification.go:715-728 | Renaming a whole specification and back: the second renaming finds exactly the steps that the first one changed, and every step has its arguments back and its text up to blanks at the ends |
| Parallel.DistributeSpecs | parallelExecution.go:118-131 | Stream k has the specifications whose position is k modulo the number of streams |
| Parallel.StreamSize | parallelExecution.go:123-129 | Stream sizes differ by at most one |
| Parallel.StreamPosition | parallelExecution.go:123-129 | Every specification is at its place in its stream, in order |
| Parallel.StreamsPartition | parallelExecution.go:118-131 | The streams together have exactly the specifications |
| Parallel.SendNeverBlocks | parallelExecution.go:80-88 | In every interleaving a stream that has not sent can send at once |
| Parallel.NeverStuck | parallelExecution.go:80-88 | A run can go on if and only if not every result was received |
| Parallel.StepConserves | parallelExecution.go:80-88 | Every step keeps each stream in exactly one place and shortens the run |
| Parallel.AllArrive | parallelExecution.go:85-88 | At the end every stream was received exactly once |
| ParallelResults.AggregateResults | parallelExecution.go:140-160 | The loop computes the aggregate of the results in their order |
| ParallelResults.TotalsAre | parallelExecution.go:140-160 | The totals of some results are, one by one, whether one failed, the sums of the failed counts and of the times, and the spec results of all |
| ParallelResults.AnyOrder | parallelExecution.go:140-160 | Failure flag, failed count, multiset of spec results, time and skipped specifications are the same for every order |
| ParallelResults.HookFailureOrderIff | parallelExecution.go:149-154 | The before-suite and the after-suite hook failure reported are each the same for every order if and only if all streams that report one report the same |
| ParallelResults.StartParallel | parallelExecution.go:77-97 | The specifications are shared out without loss; every stream whose runner starts is a legal run of its specifications that this runner has recorded and answered, with the steps sent in order; every stream delivers, and for every order of arrival the aggregate failed if and only if a stream did, has the sum of the failed counts, exactly the spec results delivered, a hook failure of some stream if there is one, and the elapsed time; executed, skipped and blocked specifications add up |
| ParallelResults.RunStream | parallelExecution.go:99-116 | A stream delivers the result of a legal run of its suite, with the messages that its runner has recorded, as it is: the results of its specifications show its runs, the hook failures are those of its own hooks, and the time is its own; or its specifications as skipped when the runner does not start |
| ParallelResults.EverySpecIsAccountedFor | parallelExecution.go:99-109 | Executed, skipped and blocked specifications add up to all |
| ParallelResults.SomeStreamFailed | parallelExecution.go:146-148 | The run failed if and only if a stream that started got a failure as answer to a counted message |
| Framing.ConnectionHandler.HandleConnectionMessages | conn/connectionHandler.go:102-117 | For every split of the stream into reads: the handler stays inside its buffer if and only if every cut is safe, and then it has received the first messages in order and holds the rest |
| Framing.ConnectionHandler.ProcessMessage | conn/connectionHandler.go:119-134 | Complete messages are cut off the front; it leaves its buffer exactly at a gap |
| Framing.ShortMessagesHaveNoGap | conn/connectionHandler.go:122-126 | Messages of up to 127 bytes are safe for every split |
| Framing.GapIsReachable | conn/connectionHandler.go:122-126 | A message of 128 bytes can be split so that the handler reads past its buffer |
| Framing.PointMeaning | conn/connectionHandler.go:119-134 | A position in the stream is unsafe exactly inside the prefix-sized tail of a message |
| Framing.VarintRoundTrip | conn/network.go:60-65 | Decoding a "Base 128 Varints" length gives it back, whatever follows |
| Framing.VarintIncomplete | conn/network.go:60-65 | A cut length decodes to nothing |

## Left out

- Sockets, timeouts, starting and killing processes, plugins, API handlers and loggers: input and output; the runner is an arbitrary function of the messages so far.
- Reading `file`, `csv` and `table:` sources: what a special parameter or keyword resolves to is a parameter of the model.
- The evaluation of tag expressions (specItemFilter.go:78-173): it rewrites strings and evaluates them with a library; which scenarios match is a parameter of the tag filter, and the filter loop is proved for every filter.
- The validator and its cache (validator.go), the specification cache (specDetails.go), version comparison and installation.
- Concept files in refactoring (refactor.go:140-150) and the messages to the runner (refactor.go:221-250).
- Overflow of 64-bit times and 32-bit counts: mathematical integers.
- Unicode: a Go string is a sequence of characters; widths in printed tables count UTF-8 bytes.
- Parse positions, error wording, and the wall-clock time of a suite, which is a parameter.
- Line classification other than steps and tables (specparser.go:112-152): the builder is proved for every token list.
- ConceptUse.AddConcepts: the concepts of a call come in with new steps and lookups and with an argument for every placeholder, as the concept parser makes them; the parser of concept files is not part of this model.
- StepFormat.StepRoundTrip: is about the line of a step; with an inline table it is StepPrinting.StepWithTableRoundTrip.
- TableText.ProcessTable: leaves out the scope bits that it sets for the lines after it.
- SpecBuilder.CreateSpecification: the use of concepts between the converters and the validation is ConceptUse.ResolveSpecification, which changes no item list.
- SpecExecution.Execute: takes the resolved plans of each row as given, and leaves out the resolved items of the specification that are put into the result first; resolving steps is Resolution.ResolveItems.
- SharedLookups.UpdateLookupForNestedConcepts: works on the definitions; that a linked step holds the lookup of its definition is the invariant of ConceptLinking.Dictionary.
- Refactoring.RenameSteps: assumes, as the program does, that a step with the old text has as many arguments as the old phrase.
- Parallel.StepConserves: the schedule of the streams is a sequence of atomic sends and receives.
