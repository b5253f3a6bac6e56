# GherkinSimpleParser, modelled in Dafny

GherkinSimpleParser reads the lines of a Gherkin `.feature` file into a
`GherkinObject`. That object holds:

- a feature name and feature tags;
- a background with Given steps;
- scenarios with Given/When/Then instructions, each carrying docstrings and
  a data table.

This project models four parts of it:

- **The line-driven parser** (`GherkinObjectParser.Parse` and its handlers),
  in module `Parser`.
  - It is a five-state machine. Each trimmed line is dispatched on its prefix,
    in a fixed order.
  - Steps, docstring lines and table rows go to the most recent instruction.
  - Tags stay pending until the next Feature or Scenario header, which takes
    them deduplicated.
  - It stops at the first error.
  - It is written as a recursive function over an index into the sequence of
    lines, returning `Result<Document, ParseError>`.
- **Example substitution** (`Instruction` and `GherkinDataTable`), in module
  `Substitution`. Each `<key>` is replaced in the main line, the docstrings
  and the table cells, one example column after another. It is built on a
  `ReplaceAll` (module `Text`) that has .NET `String.Replace` semantics: left
  to right, matches do not overlap, and inserted text is not scanned again.
- **Document queries** (`GherkinObject`), in module `Queries`:
  - `GetScenariosByTag`, a multimap from tag to scenarios;
  - the transform that replaces each scenario outline, in place, by its
    expanded examples.
- **CSV export** (`CSVConverter`), in module `Csv`: a header line, an optional
  background line, and then two lines per scenario.

Module `Model` holds the datatypes. `Wrappers` holds `Result`/`Option`.
`ParserProperties` holds the lemmas about the parser.

Several failures in the C# code are not the parser's own exceptions. They are
runtime failures:

- `currentScenario` is null;
- `Last()` is called on an empty list;
- `Pop()` is called on an empty stack;
- `First()` is called on an empty string;
- the `StateMachineException` of the docstring handler.

The model turns each of these into an `ErrorKind` value. The parser's own
exceptions carry a line number. The model reports the 1-based number of the
line the error is about.

## Model

| member | source | states |
|---|---|---|
| Parser.Classify | GherkinSimpleParser/GherkinObjectParser.cs:62-73 | The first prefix test that holds decides the kind of a trimmed line. A line is skipped iff it is empty or starts with '#'. It is unsupported iff no prefix test accepts it. Every other kind implies its prefix. |
| Parser.Parse | GherkinSimpleParser/GherkinObjectParser.cs:55-77 | A failed parse names a line that exists (1-based). That line explains the error: an unsupported line is that line, trimmed, and is recognised by no prefix; a repeated header is a header of that kind; a malformed tag line is a tag line with a word not starting with '@'. |
| Parser.Run | GherkinSimpleParser/GherkinObjectParser.cs:57-74 | The loop from line `i`: any failure is at a position between `i` and the end of the input, and that position explains the error. |
| Parser.Step | GherkinSimpleParser/GherkinObjectParser.cs:59-73 | One turn of the loop always advances and stays inside the input. It keeps the invariant that a scenario state has a current scenario. A failure lies within the lines it read, and the line explains the failure. |
| Parser.HandleLine | GherkinSimpleParser/GherkinObjectParser.cs:62-70 | The one-line handlers: a failure is at the current line. A repeated-feature error comes only from a Feature line, a repeated-background error only from a Background line, and a malformed-tag error only from an invalid tag line. None of them reports an unsupported line. |
| ParserProperties.SkippedLine | GherkinSimpleParser/GherkinObjectParser.cs:62 | A blank or '#' line moves to the next line and leaves the state as it was, apart from the line counter. |
| ParserProperties.UnsupportedLineFails | GherkinSimpleParser/GherkinObjectParser.cs:73 | A line no prefix test accepts fails with its trimmed text, on that line. |
| ParserProperties.UnsupportedExample | GherkinSimpleParser.Tests/ParsingTests/ParsingBasicScenariosTests.cs:202-213 | `But anything` fails as an unsupported line on line 1. |
| ParserProperties.TableThenUnsupported | GherkinSimpleParser/GherkinObjectParser.cs:101-107 | The line that ends a table is dispatched again as a line of its own: a row line followed by an unsupported line fails as unsupported on line 2. |
| ParserProperties.TableEndExample | GherkinSimpleParser/GherkinObjectParser.cs:101-107 | `\| a \|` followed by `x` fails as unsupported on line 2, not on line 1. |
| Parser.HandleFeatureLine | GherkinSimpleParser/GherkinObjectParser.cs:186-195 | Fails iff a feature was already seen. Otherwise the name is the text after "Feature: ", the tags are the distinct pending tags, pending is cleared, the state becomes OTHER, and background and scenarios are unchanged. |
| ParserProperties.SecondFeatureFails | GherkinSimpleParser/GherkinObjectParser.cs:188-189 | A Feature line after the first one fails on that line. |
| ParserProperties.FirstFeatureAccepted | GherkinSimpleParser/GherkinObjectParser.cs:186-195 | The first Feature line is accepted and counts one feature. |
| ParserProperties.OneFeatureParses | GherkinSimpleParser/GherkinObjectParser.cs:55-77 | A file of one Feature line parses end to end: the document is named after the text that follows "Feature: ", and it has no tags and no scenarios. |
| ParserProperties.TwoFeaturesFail | GherkinSimpleParser/GherkinObjectParser.cs:186-195 | Any two Feature lines in a row fail with the repeated-feature error on line 2. |
| ParserProperties.SecondFeatureExample | GherkinSimpleParser.Tests/ParsingTests/ParsingBasicScenariosTests.cs:215-227 | `Feature: feature1`, `Feature: feature2` fails on line 2. |
| Parser.HandleBackgroundLine | GherkinSimpleParser/GherkinObjectParser.cs:178-184 | Fails iff a background was already seen. Otherwise the state becomes BACKGROUND_GIVEN and the document and pending tags are kept. |
| ParserProperties.SecondBackgroundFails | GherkinSimpleParser/GherkinObjectParser.cs:180-181 | A second Background line fails on that line. |
| Parser.HandleScenarioLine | GherkinSimpleParser/GherkinObjectParser.cs:169-176 | Exactly one new scenario is appended: it is named after "Scenario: " and carries the distinct pending tags. Pending is cleared, the state becomes SCENARIO_GIVEN, and the feature, background and counters are kept. |
| Parser.HandleGivenLine | GherkinSimpleParser/GherkinObjectParser.cs:161-167 | A Given is appended to the scenario's givens in SCENARIO_GIVEN and to the background's in BACKGROUND_GIVEN, and nothing else in the document changes. In any other state the line is dropped. The fill state, pending tags and counters never change. |
| Parser.HandleAndLine | GherkinSimpleParser/GherkinObjectParser.cs:139-147 | An And is appended to the givens in SCENARIO_GIVEN, to the thens in SCENARIO_THEN, and to the background's givens in BACKGROUND_GIVEN. It is dropped in OTHER and SCENARIO_WHEN. The fill state, pending tags and counters never change. |
| Parser.HandleWhenLine | GherkinSimpleParser/GherkinObjectParser.cs:155-159 | Fails iff there is no current scenario. Otherwise it overwrites the last scenario's single When text, leaves every other scenario as it was, and sets SCENARIO_WHEN. |
| Parser.HandleThenLine | GherkinSimpleParser/GherkinObjectParser.cs:149-153 | Fails iff there is no current scenario. Otherwise, in any state, it appends to the last scenario's thens and sets SCENARIO_THEN. |
| Parser.WithSteps | GherkinSimpleParser/GherkinObjectParser.cs:123-129 | Replacing one instruction list: the list reads back as given. The other lists, the feature, the earlier scenarios and the last scenario's other fields are kept. |
| Parser.AppendTo | GherkinSimpleParser/GherkinObjectParser.cs:139-167 | Appending to the list the state names, or dropping the instruction, leaves the fill state, pending tags and counters alone. |
| Parser.AddDocString | GherkinSimpleParser/GherkinObjectParser.cs:123-129 | `Last().DocStrings.Add` fails iff the list is empty. Otherwise only the last instruction changes, gaining the text at the end of its docstrings. |
| Parser.AddRow | GherkinSimpleParser/GherkinObjectParser.cs:91 | `Last().DataTable.Add` fails iff the list is empty. Otherwise only the last instruction changes, gaining the row at the end of its table. |
| Parser.HandleTagLine | GherkinSimpleParser/GherkinObjectParser.cs:197-203 | Fails iff some space-separated word does not start with '@'. Otherwise the line's tags are added after the pending ones, and nothing else changes. |
| Parser.TagsOf | GherkinSimpleParser/GherkinObjectParser.cs:201 | Each tag read from a line is '@' followed by a non-empty fragment. `Parser.TagsOfAreTags` adds that the fragment holds no '@' and no space. `ParserProperties.TagLineRoundTrip` shows that a line written from tags reads back as exactly those tags. |
| Parser.TagsOfAreTags | GherkinSimpleParser/GherkinObjectParser.cs:201 | Every tag read from a line is '@' followed by a non-empty name without '@' or space. |
| ParserProperties.TagLineRoundTrip | GherkinSimpleParser/GherkinObjectParser.cs:199-201 | A line of '@'-prefixed names separated by single spaces is valid. It reads back as exactly those tags, in order. |
| ParserProperties.SecondWordMalformed | GherkinSimpleParser/GherkinObjectParser.cs:199 | A tag line whose second space-separated word does not start with '@' is not valid. |
| ParserProperties.MalformedTagLineExample | GherkinSimpleParser.Tests/ParsingTests/ParsingTagsTests.cs:88-107 | The test's tag line `@no space in tag` is not a valid tag line. |
| ParserProperties.MalformedTagLineStep | GherkinSimpleParser/GherkinObjectParser.cs:199-200 | A tag line with a word not starting with '@' fails on that line. |
| ParserProperties.MalformedTagLineFails | GherkinSimpleParser.Tests/ParsingTests/ParsingTagsTests.cs:88-107 | An input made of one malformed tag line fails with the malformed-tag error on line 1. The test's inputs have 8 lines; for a malformed tag line anywhere, MalformedTagLineStep gives the failing step. |
| Text.Distinct | GherkinSimpleParser/GherkinObjectParser.cs:172 | `Distinct()`: the result has no duplicates and the same elements as its input. |
| Text.DistinctKeepsFirstOrder | GherkinSimpleParser/GherkinObjectParser.cs:191 | Distinct tags are ordered by their first occurrence among the pending tags. |
| Text.DistinctOfDistinct | GherkinSimpleParser/GherkinObjectParser.cs:172 | A list without duplicates is returned unchanged. |
| ParserProperties.DistinctTags | GherkinSimpleParser/GherkinObjectParser.cs:191 | Deduplicated pending tags are a list of distinct, well-formed tags. |
| Parser.NormaliseDocLine | GherkinSimpleParser/GherkinObjectParser.cs:117-119 | A docstring line is `max(0, first non-white column − fence column)` spaces followed by the trimmed text. A non-empty line of white space only fails (`First()` of an empty string). |
| Parser.FirstCharIndex | GherkinSimpleParser/GherkinObjectParser.cs:117 | `line.IndexOf(line.Trim().First())` is the width of the leading white space. |
| Parser.AddDocStringLine | GherkinSimpleParser/GherkinObjectParser.cs:117-133 | One docstring line fails iff it cannot be re-indented, or the state has no list (OTHER, SCENARIO_WHEN), or that list is empty. Otherwise the re-indented text is appended to the last instruction of the list the state names. |
| Parser.DocStringStep | GherkinSimpleParser/GherkinObjectParser.cs:117-135 | One docstring line stored keeps the current-scenario invariant. Its failures are at that line and are not the parser's own numbered exceptions. |
| Parser.DocStringLines | GherkinSimpleParser/GherkinObjectParser.cs:115-136 | The docstring loop stops inside the input, just after the line that closes it, and that line is a fence. It keeps the current-scenario invariant. A failure lies within the block and is not one of the parser's numbered exceptions. |
| Parser.HandleDocStringsBlock | GherkinSimpleParser/GherkinObjectParser.cs:110-137 | A docstring block consumes its opening fence, at least one more line, and a closing fence as its last line. Its failures lie within the block. |
| ParserProperties.DocStringBlockStores | GherkinSimpleParser/GherkinObjectParser.cs:110-137 | A successful block ends with a fence line, and that closing fence is not stored. Its content lines, re-indented against the column of the opening fence, are appended in order to the last instruction of the list the state names. State, tags and counters are kept. |
| ParserProperties.DocStringLinesStore | GherkinSimpleParser/GherkinObjectParser.cs:115-136 | The same as DocStringBlockStores, for the loop from any content line. |
| Parser.Row | GherkinSimpleParser/GherkinObjectParser.cs:83 | A row is the fields between the first and the last '\|', each trimmed. With fewer than two fields it is empty. |
| ParserProperties.RowReadsCells | GherkinSimpleParser/GherkinObjectParser.cs:83 | A line of '\|'-framed cells reads back as the trimmed cells, empty ones included. |
| Parser.TableRowStep | GherkinSimpleParser/GherkinObjectParser.cs:83-99 | One row line handled keeps the fill state, the pending tags and the invariant. A failure is at that line. |
| Parser.TableRows | GherkinSimpleParser/GherkinObjectParser.cs:79-108 | Every line after the first that the table loop consumes is a row. The loop stops at the end of the input or at the first line that is not a row, and leaves that line to be dispatched again. The fill state and pending tags are kept. |
| ParserProperties.TableRowsStore | GherkinSimpleParser/GherkinObjectParser.cs:79-108 | Every line the table loop consumed is a row. In SCENARIO_GIVEN the rows are appended in order to the table of the last scenario's last Given. In every other state the document is unchanged. |
| ParserProperties.TableRowStepAdds | GherkinSimpleParser/GherkinObjectParser.cs:84-99 | One row is added only in SCENARIO_GIVEN; the header counters are kept. |
| ParserProperties.ParsedDocumentShape | GherkinSimpleParser/GherkinObjectParser.cs:169-203 | Every parsed document has distinct, well-formed feature and scenario tags, no outline, no examples and no `Whens` list. |
| ParserProperties.StepKeepsShape | GherkinSimpleParser/GherkinObjectParser.cs:59-73 | Each turn of the loop keeps the invariant of a parsed document. |
| ParserProperties.ParsedDocumentNeedsNoExpansion | GherkinSimpleParser/GherkinObject.cs:56-70 | Expanding outlines leaves a parsed document unchanged. |
| Text.Trim | GherkinSimpleParser/GherkinObjectParser.cs:22 | `Trim()` returns the infix left after removing the leading and trailing white space, and its ends are not white. |
| Text.TrimOfTrimmed | GherkinSimpleParser/GherkinObjectParser.cs:22 | Trimming a text without white ends changes nothing. |
| Text.IndexOf | GherkinSimpleParser/GherkinObjectParser.cs:112 | `IndexOf(char)` is the first position of the character, or -1 iff the character is absent. |
| Text.Split | GherkinSimpleParser/GherkinObjectParser.cs:199 | Splitting on a character gives at least one field, and no field contains the separator. |
| Text.JoinSplit | GherkinSimpleParser/GherkinObjectParser.cs:199 | Joining the fields of a split with the separator gives back the text. |
| Text.SplitJoin | GherkinSimpleParser/GherkinObjectParser.cs:199 | Fields free of the separator, joined by it, split back into the same fields. |
| Text.ReplaceAll | GherkinSimpleParser/Instruction.cs:41 | `String.Replace` leaves a text without the pattern unchanged. |
| Text.ReplaceSkipsInsertedText | GherkinSimpleParser/Instruction.cs:41 | A match at the front is replaced, and the scan continues after the pattern: the replacement is not scanned again. |
| Text.ReplaceRoundTrip | GherkinSimpleParser/Instruction.cs:41 | Replacing a pattern by a fresh character, then that character by the pattern, gives back the text. |
| Text.ReplaceByItself | GherkinSimpleParser/Instruction.cs:41 | Replacing a pattern by itself changes nothing. |
| Substitution.CloneTable | GherkinSimpleParser/GherkinDataTable.cs:10-18 | `DeepClone` has the same rows and cells as the original, and so equals it. |
| Substitution.ResolveTable | GherkinSimpleParser/GherkinDataTable.cs:20-28 | The new table has the same number of rows and the same row lengths. Each cell is `ReplaceAll(cell, "<key>", value)`, and a cell without the token is unchanged. |
| Substitution.ResolveTablePassthrough | GherkinSimpleParser/GherkinDataTable.cs:25 | A table without the token comes back equal. |
| Substitution.CloneInstruction | GherkinSimpleParser/Instruction.cs:47-54 | `DeepClone` has the same main line, docstrings and data table. |
| Substitution.ResolveColumnsComponentwise | GherkinSimpleParser/Instruction.cs:37-45 | The column loop substitutes the main line, each docstring and each table cell the way the reference fold over the columns does. |
| Substitution.ResolveColumns | GherkinSimpleParser/Instruction.cs:37-45 | The column loop keeps the number of docstrings and the table's shape. A main line that holds no placeholder of any column comes back unchanged. `Substitution.ResolveColumnsComponentwise` states what the loop computes on each part. |
| Substitution.ResolveExampleValueInNewObject | GherkinSimpleParser/Instruction.cs:30-35 | The result's main line is the column-by-column substitution of the source's main line. The number of docstrings and the table shape are kept, and each docstring and cell is substituted the same way. |
| Substitution.ResolvePassthrough | GherkinSimpleParser/Instruction.cs:39-45 | An instruction with no token of any example column comes back equal. |
| Substitution.ResolveText | GherkinSimpleParser/Instruction.cs:41 | A text with no token of any example column is unchanged. |
| Substitution.AdjacentTokensExample | GherkinSimpleParser.Tests/ParsingTests/ParsingScenarioOutlineTests.cs:172-198 | With the test's first example row (start 12, eat 5, left 7), `<start><eat>` becomes `125`: each placeholder is replaced on its own, even when two touch. |
| Queries.GetScenariosByTag | GherkinSimpleParser/GherkinObject.cs:34-50 | The keys are exactly the tags some scenario carries. Each key's list is the scenarios carrying it, in document order, once per occurrence of the tag. |
| Queries.GroupFromSpec | GherkinSimpleParser/GherkinObject.cs:38-47 | The outer loop adds exactly the scenarios' tags as keys, and appends the tagged scenarios to each list. |
| Queries.AddScenarioSpec | GherkinSimpleParser/GherkinObject.cs:40-46 | The inner loop adds the scenario's tags as keys and appends the scenario to each tag's list, once per occurrence. |
| Queries.ByTagMembership | GherkinSimpleParser/GherkinObject.cs:38-46 | A scenario is in the list of tag t iff it is a scenario of the document carrying t. Every tag of every scenario is a key. |
| Queries.TaggedMembership | GherkinSimpleParser/GherkinObject.cs:38-46 | The reference grouping holds a scenario iff it is one of the scenarios and carries the tag. |
| Queries.ByTagSize | GherkinSimpleParser/GherkinObject.cs:38-46 | All lists together hold as many entries as there are tags on all scenarios. |
| Queries.CountPositive | GherkinSimpleParser/GherkinObject.cs:40 | A tag occurs a positive number of times iff it is in the list. |
| Queries.TransformOutlines | GherkinSimpleParser/GherkinObject.cs:56-70 | Only the scenario list changes, and no outline remains in it. |
| Queries.TransformInPlace | GherkinSimpleParser/GherkinObject.cs:60-68 | Each scenario is replaced at its own position: by its expansion when it is an outline, by itself otherwise. The scenarios before and after it are transformed independently. |
| Queries.TransformAppend | GherkinSimpleParser/GherkinObject.cs:60-68 | Transforming a concatenation gives the concatenation of the transforms. |
| Queries.TransformWithoutOutlines | GherkinSimpleParser/GherkinObject.cs:62-65 | A list without outlines is kept as it is, in order. |
| Queries.TransformIdempotent | GherkinSimpleParser/GherkinObject.cs:56-70 | Applying the transform twice gives the same result as applying it once. |
| Queries.TransformLength | GherkinSimpleParser/GherkinObject.cs:58-69 | The new list has one entry per ordinary scenario plus the case count of every outline. |
| Queries.Expand | GherkinSimpleParser/GherkinObject.cs:67 | The expansion of an outline has one scenario per example case. Case k (counting from 0) is named "{name} Example {k+1}", is not an outline, has no examples, keeps the tags, and has each instruction substituted for that case. |
| Queries.ExpandCase | GherkinSimpleParser/GherkinObject.cs:67 | An expanded scenario is not an outline and has no examples. |
| Queries.CaseCount | GherkinSimpleParser/GherkinObject.cs:67 | The number of cases is the length of the shortest example column (0 without columns), so every column has a value for every case. |
| Queries.CaseCountUniform | GherkinSimpleParser/GherkinObject.cs:67 | When every column has n values there are n cases. |
| Csv.ExportAsCsv | GherkinSimpleParser.Converter/CSVConverter.cs:11-36 | The output has 1 line, plus 1 if the background has Given steps, plus 2 per scenario. The first line is `Number;GIVEN;WHEN;THEN`, and the second is the background line when there is one. |
| Csv.HeadLines | GherkinSimpleParser.Converter/CSVConverter.cs:13-22 | The header, followed by the background line exactly when the background has Given steps. |
| Csv.BackgroundLinePresent | GherkinSimpleParser.Converter/CSVConverter.cs:18-22 | The second line is a `;GENERAL PREREQUISITES:` line iff the background has Given steps. |
| Csv.ExportedScenarioLines | GherkinSimpleParser.Converter/CSVConverter.cs:24-33 | Scenario k (from 0) gets the two lines after the header block: `"{k+1};{name};;"`, then `";{givens};{whens};{thens}"`. |
| Csv.ScenarioNumberReadsBack | GherkinSimpleParser.Converter/CSVConverter.cs:27 | The first ';'-field of a scenario's title line is all digits and reads back as its 1-based position. |
| Csv.StepsLineSplits | GherkinSimpleParser.Converter/CSVConverter.cs:28-31 | When no column contains ';', a steps line splits back into an empty field and the Given, When and Then columns. |
| Csv.RenderExtendsMainLine | GherkinSimpleParser.Converter/CSVConverter.cs:43-58 | An instruction's text starts with its main line. It is exactly the main line iff there are no docstrings and no table. |
| Csv.Render | GherkinSimpleParser.Converter/CSVConverter.cs:43-57 | An instruction's text starts with its main line, and is just the main line when there are no docstrings and no table. `Csv.RenderExtendsMainLine` proves the converse, and `Csv.RenderQuotedFields` states the two quoted blocks that follow the main line. |
| Csv.RenderQuotedFields | GherkinSimpleParser.Converter/CSVConverter.cs:43-57 | When no part holds a '"', splitting the text on '"' gives back its fields. With no docstrings and no table, the only field is the main line. Otherwise the first field is the main line plus a space, and the last field is empty. In between come the docstrings joined by single spaces, when there are any. Then come a field holding one space and the table cells in row-major order joined by single spaces, when there is a table. So the docstring block comes first, and each block is present exactly when its part is non-empty. |
| Csv.RenderDocStringsReadBack | GherkinSimpleParser.Converter/CSVConverter.cs:45-48 | When no docstring holds a space or a '"', the first quoted block splits on spaces back into the docstrings, in order. |
| Csv.RenderCellsReadBack | GherkinSimpleParser.Converter/CSVConverter.cs:49-57 | When no cell holds a space or a '"', the last quoted block splits on spaces back into the table cells, row after row. |
| Csv.DocStringBatchExample | GherkinSimpleParser.Tests/ExportTests.cs:90-115 | The test's Given column, with separator `\|`, is `Prerequisite_1.1 "docstrings1 docstrings2"\|Prere"q"uisite_1.2`: the two docstrings sit in one quoted block, separated by a space. |
| Csv.BatchLineShort | GherkinSimpleParser.Converter/CSVConverter.cs:38-61 | An empty list gives the empty text. A single instruction gives its own text. |
| Csv.BatchLine | GherkinSimpleParser.Converter/CSVConverter.cs:38-61 | A non-empty batch starts with the text of its first instruction. `Csv.BatchLineShort` covers the empty and one-instruction lists, and `Csv.BatchLineSplits` shows that the batch splits back into the rendered instructions. |
| Csv.BatchLineSplits | GherkinSimpleParser.Converter/CSVConverter.cs:60 | With a one-character separator that no rendered instruction contains, the batch splits back into the rendered instructions. |
| Csv.ScenarioLines | GherkinSimpleParser.Converter/CSVConverter.cs:25-33 | The scenario loop emits two lines per scenario. |
| Text.NatToString | GherkinSimpleParser.Converter/CSVConverter.cs:27 | A number is written as a non-empty string of digits. |
| Text.ParseNatToString | GherkinSimpleParser.Converter/CSVConverter.cs:27 | A written number reads back as itself. |

## Left out

- Spreadsheet writers, EPPlus rendering and the console entry point: file I/O, OpenXML/EPPlus calls, `Thread.Sleep` and `Environment.NewLine`.
- Markdown lines after the Feature line, the keyword aliases (`Example:`, `*`, `Scenario Template:`, `Scenarios:`), and parsing of `Scenario Outline:`/`Examples:`. Only tests ask for these; the parser code shown does not do them.
- `Scenario.GetScenariosFromOutline` is not part of this model. `Queries.Expand` gives it a contract. Three parts of that contract come from the outline tests (`ParsingScenarioOutlineTests.cs`), which only use example columns of equal length. Case k (counting from 0) is named "{name} Example {k+1}". There is one case per example row. Instructions are substituted with `ResolveExampleValueInNewObject`. Two parts are choices of this model, because the tests do not check them. Columns of unequal length give as many cases as the shortest column has values; `Queries.CaseCountUniform` covers the equal-length case the tests use. The expanded scenarios keep the outline's tags.
- The `Whens` list and the `When` text. No single C# class shown has both. `Scenario.cs:3-10` declares only the `Whens` list, which the CSV export reads. The `when` text comes from the parser, which assigns `currentScenario.When` (`GherkinObjectParser.cs:157`). The model's `Scenario` carries both fields, so a parsed document exports empty WHEN columns.
- Outline fields. `isOutline` and `examples` are not declared in `Scenario.cs`. They come from `GherkinObject.cs:62` and `GherkinObject.cs:67`, which read `IsScenarioOutline` and call `GetScenariosFromOutline`. The parser never sets them.
- Exception classes and message texts: an error is a kind plus a line number.
- Parser.Parse: it reports the position of the line an error is about. The running `lineCount` of the C# code is reproduced as `Failure.counted`, but nothing is proved about it. Data-table pushback counts the re-dispatched line twice.
- `Trim` uses a fixed ASCII white-space set, not Unicode white space. `StartsWith` is ordinal, not culture-sensitive.
- `null` feature name and feature tags before any Feature line are modelled as the empty string and the empty list.
- Example columns are a sequence of (key, values) pairs in dictionary order. C# dictionary enumeration order is not modelled beyond that.
- Csv.BatchLine: its postcondition states only the first instruction's text. `Csv.BatchLineShort` and `Csv.BatchLineSplits` state the rest. The quoted blocks inside one instruction's text are stated by `Csv.RenderQuotedFields`, for texts without '"'.
- Substitution.ResolveExampleValueInNewObject: `requires CaseInRange(examples, n)` (also on `ResolveText` and `ResolveColumns`) stands in for the `ArgumentOutOfRangeException` that `kvp.Value[caseNumber]` throws in C# (`Instruction.cs:41-43`) when a column is too short. The model does not give that error a value. Its only caller, `Queries.Expand`, stays in range because the case count is at most the shortest column.
- Csv.ExportAsCsv: the position of each scenario's two lines is stated by ExportedScenarioLines rather than in the function's postcondition.
