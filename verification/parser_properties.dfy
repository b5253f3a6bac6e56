/** Properties of the `GherkinObjectParser` model: what each kind of line
    does, what the docstring and data-table blocks store, the document shape
    every successful parse has, and worked examples from the test suite. */
module ParserProperties {
  import opened Wrappers
  import opened Text
  import opened Model
  import opened Parser
  import Queries

  // ---------------------------------------------------------------------------
  // Single lines

  /** A blank line or a '#' comment only advances the line counter. */
  lemma SkippedLine(lines: seq<string>, i: nat, st: ParserState)
    requires i < |lines| && Consistent(st)
    requires StartsWith(Trim(lines[i]), "#") || Trim(lines[i]) == []
    ensures Step(lines, i, st).Ok? && Step(lines, i, st).value.0 == i + 1 && Step(lines, i, st).value.1 == Counted(st)
  {
    var st1 := Counted(st);
    assert Classify(Trim(lines[i])) == Skipped;
    assert HandleLine(Trim(lines[i]), st1, i).Ok? && HandleLine(Trim(lines[i]), st1, i).value == st1;
  }

  /** A line no prefix test accepts stops the parse with its trimmed text. */
  lemma UnsupportedLineFails(lines: seq<string>, i: nat, st: ParserState)
    requires i < |lines| && Consistent(st)
    requires !Recognised(Trim(lines[i]))
    ensures Step(lines, i, st).Err? && Step(lines, i, st).error == Failure(UnsupportedLine(Trim(lines[i])), st.lineCount + 1, i)
  {
    var st1 := Counted(st);
    var t := Trim(lines[i]);
    assert Classify(t) == Unsupported;
    assert Step(lines, i, st) == Err(Failure(UnsupportedLine(t), st1.lineCount, i));
  }

  /** A Feature header after the first one fails. */
  lemma SecondFeatureFails(lines: seq<string>, i: nat, st: ParserState)
    requires i < |lines| && Consistent(st)
    requires Classify(Trim(lines[i])) == FeatureHeader && st.featureCount > 0
    ensures Step(lines, i, st).Err? && Step(lines, i, st).error == Failure(MultipleFeatures, st.lineCount + 1, i)
  {
    var st1 := Counted(st);
    var t := Trim(lines[i]);
    assert HandleFeatureLine(t, st1, i).Err? && HandleFeatureLine(t, st1, i).error == Failure(MultipleFeatures, st1.lineCount, i);
    assert HandleLine(t, st1, i).Err? && HandleLine(t, st1, i).error == Failure(MultipleFeatures, st1.lineCount, i);
  }

  /** The first Feature header is accepted and counted. */
  lemma FirstFeatureAccepted(lines: seq<string>, i: nat, st: ParserState)
    requires i < |lines| && Consistent(st)
    requires Classify(Trim(lines[i])) == FeatureHeader && st.featureCount == 0
    ensures Step(lines, i, st).Ok? && Step(lines, i, st).value.0 == i + 1 && Step(lines, i, st).value.1.featureCount == 1
  {
    var st1 := Counted(st);
    var t := Trim(lines[i]);
    assert HandleFeatureLine(t, st1, i).Ok? && HandleFeatureLine(t, st1, i).value.featureCount == 1;
    assert HandleLine(t, st1, i).Ok? && HandleLine(t, st1, i).value.featureCount == 1;
  }

  /** A file holding one Feature line parses: the document is named after
      the header, has no tags, and has no scenarios. */
  lemma OneFeatureParses(f: string)
    requires Classify(Trim(f)) == FeatureHeader
    ensures Parse([f]).Ok?
    ensures Parse([f]).value.featureName == Trim(f)[|FeaturePrefix|..]
    ensures Parse([f]).value.featureTags == [] && Parse([f]).value.scenarios == []
  {
    var lines := [f];
    var st0 := InitialState();
    var st1 := Counted(st0);
    var t := Trim(f);
    var h := HandleFeatureLine(t, st1, 0);
    assert h.Ok? && h.value.doc.featureName == t[|FeaturePrefix|..];
    assert h.value.doc.featureTags == [] && h.value.doc.scenarios == [];
    assert HandleLine(t, st1, 0) == h;
    assert Step(lines, 0, st0) == Ok((1, h.value));
    assert Run(lines, 1, h.value) == Ok(h.value);
    assert Run(lines, 0, st0) == Ok(h.value);
  }

  /** A Background header after the first one fails. */
  lemma SecondBackgroundFails(lines: seq<string>, i: nat, st: ParserState)
    requires i < |lines| && Consistent(st)
    requires Classify(Trim(lines[i])) == BackgroundHeader && st.backgroundCount > 0
    ensures Step(lines, i, st).Err? && Step(lines, i, st).error == Failure(MultipleBackgrounds, st.lineCount + 1, i)
  {
    var st1 := Counted(st);
    var t := Trim(lines[i]);
    assert HandleBackgroundLine(st1, i).Err? && HandleBackgroundLine(st1, i).error == Failure(MultipleBackgrounds, st1.lineCount, i);
    assert HandleLine(t, st1, i).Err? && HandleLine(t, st1, i).error == Failure(MultipleBackgrounds, st1.lineCount, i);
  }

  // ---------------------------------------------------------------------------
  // The shape of a parsed document

  /** Distinct tags, each '@' and a name without '@' or space. */
  predicate IsTagList(tags: seq<string>) {
    NoDuplicates(tags) && forall k :: 0 <= k < |tags| ==> IsTag(tags[k])
  }

  /** The parser never makes outlines and never fills the `whens` list. */
  predicate ParsedScenario(s: Scenario) {
    !s.isOutline && s.examples == [] && s.whens == [] && IsTagList(s.tags)
  }

  predicate ParsedDocument(doc: Document) {
    IsTagList(doc.featureTags) && forall k :: 0 <= k < |doc.scenarios| ==> ParsedScenario(doc.scenarios[k])
  }

  predicate Invariant(st: ParserState) {
    Consistent(st) && ParsedDocument(st.doc)
    && (forall k :: 0 <= k < |st.pendingTags| ==> IsTag(st.pendingTags[k]))
    && st.featureCount <= 1 && st.backgroundCount <= 1
  }

  lemma DistinctTags(pending: seq<string>)
    requires forall k :: 0 <= k < |pending| ==> IsTag(pending[k])
    ensures IsTagList(Distinct(pending))
  {
    var d := Distinct(pending);
    forall k | 0 <= k < |d|
      ensures IsTag(d[k])
    {
      assert d[k] in pending;
    }
  }

  lemma WithStepsKeepsShape(doc: Document, t: Target, xs: seq<Instruction>)
    requires HasTarget(doc, t) && ParsedDocument(doc)
    ensures ParsedDocument(WithSteps(doc, t, xs))
  {
    var r := WithSteps(doc, t, xs);
    if t != BackgroundGivens {
      var n := |doc.scenarios|;
      forall k | 0 <= k < n
        ensures ParsedScenario(r.scenarios[k])
      {
        if k < n - 1 {
          assert r.scenarios[k] == r.scenarios[..n - 1][k];
          assert doc.scenarios[k] == doc.scenarios[..n - 1][k];
        } else {
          assert ParsedScenario(LastScenario(doc));
        }
      }
    }
  }

  lemma AppendKeepsShape(st: ParserState, target: Option<Target>, ins: Instruction)
    requires target.Some? ==> HasTarget(st.doc, target.value)
    requires Invariant(st)
    ensures Invariant(AppendTo(st, target, ins))
  {
    if target.Some? {
      WithStepsKeepsShape(st.doc, target.value, Steps(st.doc, target.value) + [ins]);
    }
  }

  lemma HandleLineKeepsShape(t: string, st: ParserState, pos: nat)
    requires Invariant(st)
    requires Classify(t) != DocStringFence && Classify(t) != TableRow && Classify(t) != Unsupported
    ensures HandleLine(t, st, pos).Ok? ==> Invariant(HandleLine(t, st, pos).value)
  {
    match Classify(t)
    case Skipped =>
    case TagLine =>
      TagsOfAreTags(t);
    case FeatureHeader =>
      DistinctTags(st.pendingTags);
    case BackgroundHeader =>
    case ScenarioHeader =>
      DistinctTags(st.pendingTags);
      var r := HandleScenarioLine(t, st);
      forall k | 0 <= k < |r.doc.scenarios|
        ensures ParsedScenario(r.doc.scenarios[k])
      {
        if k < |st.doc.scenarios| {
          assert r.doc.scenarios[k] == st.doc.scenarios[k];
        }
      }
    case GivenStep =>
      AppendKeepsShape(st, GivenTarget(st.fill), NewInstruction(t[|GivenPrefix|..]));
    case WhenStep =>
      if |st.doc.scenarios| > 0 {
        var r := HandleWhenLine(t, st, pos).value;
        var n := |st.doc.scenarios|;
        forall k | 0 <= k < n
          ensures ParsedScenario(r.doc.scenarios[k])
        {
          if k < n - 1 {
            assert r.doc.scenarios[k] == st.doc.scenarios[k];
          } else {
            assert ParsedScenario(LastScenario(st.doc));
          }
        }
      }
    case ThenStep =>
      if |st.doc.scenarios| > 0 {
        AppendKeepsShape(st, Some(ScenarioThens), NewInstruction(t[|ThenPrefix|..]));
      }
    case AndStep =>
      AppendKeepsShape(st, StepTarget(st.fill), NewInstruction(t[|AndPrefix|..]));
  }

  lemma LastReplacedKeepsShape(before: Document, after: Document, t: Target, ins: Instruction)
    requires LastReplaced(before, after, t, ins) && ParsedDocument(before)
    ensures ParsedDocument(after) && |after.scenarios| == |before.scenarios|
  {
    var xs := Steps(before, t);
    WithStepsKeepsShape(before, t, xs[..|xs| - 1] + [ins]);
  }

  /** Storing one docstring line keeps the invariant. */
  lemma DocStringStepKeepsShape(lines: seq<string>, j: nat, fence: int, st: ParserState)
    requires j < |lines| && Invariant(st)
    ensures DocStringStep(lines, j, fence, st).Ok? ==> Invariant(DocStringStep(lines, j, fence, st).value)
  {
    var added := AddDocStringLine(lines[j], fence, st);
    if added.Ok? {
      var t := StepTarget(st.fill).value;
      var last := Steps(st.doc, t)[|Steps(st.doc, t)| - 1];
      LastReplacedKeepsShape(st.doc, added.value, t,
        last.(docStrings := last.docStrings + [NormaliseDocLine(lines[j], fence).value]));
    }
  }

  /** Storing one table row keeps the invariant. */
  lemma TableRowStepKeepsShape(lines: seq<string>, j: nat, st: ParserState)
    requires j < |lines| && Invariant(st)
    ensures TableRowStep(lines, j, st).Ok? ==> Invariant(TableRowStep(lines, j, st).value)
  {
    if st.fill == ScenarioGiven {
      var row := Row(Trim(lines[j]));
      var added := AddRow(st.doc, ScenarioGivens, row);
      if added.Ok? {
        var last := Steps(st.doc, ScenarioGivens)[|Steps(st.doc, ScenarioGivens)| - 1];
        LastReplacedKeepsShape(st.doc, added.value, ScenarioGivens, last.(dataTable := last.dataTable + [row]));
      }
    }
  }

  lemma {:induction false} DocStringLinesKeepShape(lines: seq<string>, j: nat, fence: int, st: ParserState)
    requires j < |lines| && Invariant(st)
    ensures DocStringLines(lines, j, fence, st).Ok? ==> Invariant(DocStringLines(lines, j, fence, st).value.1)
    decreases |lines| - j
  {
    if !StartsWith(Trim(lines[j]), Fence) {
      var next := DocStringStep(lines, j, fence, st);
      if next.Ok? && j + 1 < |lines| {
        DocStringStepKeepsShape(lines, j, fence, st);
        DocStringLinesKeepShape(lines, j + 1, fence, next.value);
      }
    }
  }

  lemma {:induction false} TableRowsKeepShape(lines: seq<string>, j: nat, st: ParserState)
    requires j < |lines| && Invariant(st)
    ensures TableRows(lines, j, st).Ok? ==> Invariant(TableRows(lines, j, st).value.1)
    decreases |lines| - j
  {
    var next := TableRowStep(lines, j, st);
    if next.Ok? {
      TableRowStepKeepsShape(lines, j, st);
      var st1 := Counted(next.value);
      assert Invariant(st1);
      if j + 1 < |lines| && StartsWith(Trim(lines[j + 1]), "|") {
        TableRowsKeepShape(lines, j + 1, st1);
        assert TableRows(lines, j, st) == TableRows(lines, j + 1, st1);
      }
    }
  }

  lemma StepKeepsShape(lines: seq<string>, i: nat, st: ParserState)
    requires i < |lines| && Invariant(st)
    ensures Step(lines, i, st).Ok? ==> Invariant(Step(lines, i, st).value.1)
  {
    var st1 := Counted(st);
    var t := Trim(lines[i]);
    var kind := Classify(t);
    if kind == DocStringFence {
      if i + 1 < |lines| {
        DocStringLinesKeepShape(lines, i + 1, IndexOf(lines[i], '"'), Counted(st1));
      }
    } else if kind == TableRow {
      TableRowsKeepShape(lines, i, st1);
    } else if kind != Unsupported {
      HandleLineKeepsShape(t, st1, i);
    }
  }

  lemma {:induction false} RunKeepsShape(lines: seq<string>, i: nat, st: ParserState)
    requires i <= |lines| && Invariant(st)
    ensures Run(lines, i, st).Ok? ==> Invariant(Run(lines, i, st).value)
    decreases |lines| - i
  {
    if i < |lines| {
      var r := Step(lines, i, st);
      StepKeepsShape(lines, i, st);
      if r.Ok? {
        RunKeepsShape(lines, r.value.0, r.value.1);
      }
    }
  }

  /** Every parsed document has distinct well-formed tags and no outline. */
  lemma ParsedDocumentShape(lines: seq<string>)
    ensures Parse(lines).Ok? ==> ParsedDocument(Parse(lines).value)
  {
    RunKeepsShape(lines, 0, InitialState());
  }

  /** Expanding outlines leaves a parsed document as it is. */
  lemma ParsedDocumentNeedsNoExpansion(lines: seq<string>)
    requires Parse(lines).Ok?
    ensures Queries.TransformOutlines(Parse(lines).value) == Parse(lines).value
  {
    var doc := Parse(lines).value;
    ParsedDocumentShape(lines);
    Queries.TransformWithoutOutlines(doc.scenarios);
  }

  // ---------------------------------------------------------------------------
  // Docstring and data-table blocks

  /** Replacing a list twice is replacing it once with the second value. */
  lemma WithStepsTwice(doc: Document, t: Target, xs: seq<Instruction>, ys: seq<Instruction>)
    requires HasTarget(doc, t)
    ensures WithSteps(WithSteps(doc, t, xs), t, ys) == WithSteps(doc, t, ys)
  {
    var once := WithSteps(doc, t, xs);
    var twice := WithSteps(once, t, ys);
    var direct := WithSteps(doc, t, ys);
    if t != BackgroundGivens {
      var n := |doc.scenarios|;
      assert twice.scenarios[..n - 1] == direct.scenarios[..n - 1];
      assert LastScenario(twice) == LastScenario(direct);
      assert twice.scenarios == twice.scenarios[..n - 1] + [LastScenario(twice)];
      assert direct.scenarios == direct.scenarios[..n - 1] + [LastScenario(direct)];
    }
  }

  /** Two replacements of the last instruction of a list compose. */
  lemma LastReplacedTwice(a: Document, b: Document, c: Document, t: Target, x: Instruction, y: Instruction)
    requires LastReplaced(a, b, t, x) && LastReplaced(b, c, t, y)
    ensures LastReplaced(a, c, t, y)
    ensures Steps(b, t)[|Steps(b, t)| - 1] == x
  {
    var xs := Steps(a, t);
    var ys := Steps(b, t);
    assert ys == xs[..|xs| - 1] + [x];
    assert ys[..|ys| - 1] == xs[..|xs| - 1];
    WithStepsTwice(a, t, ys, ys[..|ys| - 1] + [y]);
  }

  /** The docstring lines of a block, each re-indented; a line that cannot
      be re-indented contributes nothing (in a stored block there is none). */
  function NormalisedLines(ls: seq<string>, fence: int): (r: seq<string>)
    ensures |r| <= |ls|
    decreases |ls|
  {
    if |ls| == 0 then []
    else
      var head := NormaliseDocLine(ls[0], fence);
      (if head.Ok? then [head.value] else []) + NormalisedLines(ls[1..], fence)
  }

  /** Lines `j` to `next - 2` are docstring lines that re-indent without
      error, and line `next - 1` is the closing fence. */
  predicate ClosedBlock(lines: seq<string>, j: nat, fence: int, next: nat)
    requires j < next <= |lines|
  {
    StartsWith(Trim(lines[next - 1]), Fence)
    && forall k :: j <= k < next - 1 ==> !StartsWith(Trim(lines[k]), Fence) && NormaliseDocLine(lines[k], fence).Ok?
  }

  /** The document after a docstring block holding `texts`: unchanged when
      there are none; otherwise `texts`, in order, appended to the docstrings
      of the last instruction of the list the fill state names. */
  predicate DocStringsAppended(before: Document, after: Document, fill: FillState, texts: seq<string>) {
    (texts == [] ==> after == before)
    && (texts != [] ==>
      StepTarget(fill).Some? && HasTarget(before, StepTarget(fill).value)
      && |Steps(before, StepTarget(fill).value)| > 0
      && var t := StepTarget(fill).value;
         var last := Steps(before, t)[|Steps(before, t)| - 1];
         LastReplaced(before, after, t, last.(docStrings := last.docStrings + texts)))
  }

  /** What a docstring block from line `j` stores; the fill state, pending
      tags and header counts are left alone. */
  predicate DocStringStored(lines: seq<string>, j: nat, fence: int, st: ParserState, next: nat, st2: ParserState)
    requires j < next <= |lines|
  {
    ClosedBlock(lines, j, fence, next)
    && st2.fill == st.fill && st2.pendingTags == st.pendingTags
    && st2.featureCount == st.featureCount && st2.backgroundCount == st.backgroundCount
    && DocStringsAppended(st.doc, st2.doc, st.fill, NormalisedLines(lines[j..next - 1], fence))
  }

  lemma ClosedBlockCons(lines: seq<string>, j: nat, fence: int, next: nat)
    requires j + 1 < next <= |lines|
    requires !StartsWith(Trim(lines[j]), Fence) && NormaliseDocLine(lines[j], fence).Ok?
    requires ClosedBlock(lines, j + 1, fence, next)
    ensures ClosedBlock(lines, j, fence, next)
  {
  }

  lemma NormalisedLinesCons(lines: seq<string>, j: nat, e: nat, fence: int)
    requires j < e <= |lines| && NormaliseDocLine(lines[j], fence).Ok?
    ensures NormalisedLines(lines[j..e], fence) ==
      [NormaliseDocLine(lines[j], fence).value] + NormalisedLines(lines[j + 1..e], fence)
  {
    var block := lines[j..e];
    assert block[0] == lines[j];
    assert block[1..] == lines[j + 1..e];
  }

  /** One more docstring in front of a stored block. */
  lemma DocStringsAppendedCons(a: Document, b: Document, c: Document, fill: FillState,
                               text: string, tail: seq<string>)
    requires StepTarget(fill).Some? && HasTarget(a, StepTarget(fill).value)
    requires |Steps(a, StepTarget(fill).value)| > 0
    requires var t := StepTarget(fill).value;
      var last := Steps(a, t)[|Steps(a, t)| - 1];
      LastReplaced(a, b, t, last.(docStrings := last.docStrings + [text]))
    requires DocStringsAppended(b, c, fill, tail)
    ensures DocStringsAppended(a, c, fill, [text] + tail)
  {
    var t := StepTarget(fill).value;
    var last := Steps(a, t)[|Steps(a, t)| - 1];
    var last1 := last.(docStrings := last.docStrings + [text]);
    if tail == [] {
      assert [text] + tail == [text];
    } else {
      LastReplacedTwice(a, b, c, t, last1, last1.(docStrings := last1.docStrings + tail));
      assert last1.docStrings + tail == last.docStrings + ([text] + tail);
    }
  }

  /** A content line in front of a stored block. */
  lemma DocStringStoredCons(lines: seq<string>, j: nat, fence: int, st: ParserState,
                            next: nat, st2: ParserState)
    requires j + 1 < next <= |lines| && Consistent(st)
    requires !StartsWith(Trim(lines[j]), Fence)
    requires DocStringStep(lines, j, fence, st).Ok?
    requires DocStringStored(lines, j + 1, fence, DocStringStep(lines, j, fence, st).value, next, st2)
    ensures DocStringStored(lines, j, fence, st, next, st2)
  {
    var doc1 := AddDocStringLine(lines[j], fence, st).value;
    ClosedBlockCons(lines, j, fence, next);
    NormalisedLinesCons(lines, j, next - 1, fence);
    DocStringsAppendedCons(st.doc, doc1, st2.doc, st.fill, NormaliseDocLine(lines[j], fence).value,
      NormalisedLines(lines[j + 1..next - 1], fence));
  }

  /** A closing fence at once stores nothing. */
  lemma DocStringStoredAtOnce(lines: seq<string>, j: nat, fence: int, st: ParserState)
    requires j < |lines| && StartsWith(Trim(lines[j]), Fence)
    ensures DocStringStored(lines, j, fence, st, j + 1, st)
  {
    assert lines[j..j] == [];
  }

  lemma {:induction false} DocStringLinesStore(lines: seq<string>, j: nat, fence: int, st: ParserState)
    requires j < |lines| && Consistent(st)
    requires DocStringLines(lines, j, fence, st).Ok?
    ensures var r := DocStringLines(lines, j, fence, st).value;
      DocStringStored(lines, j, fence, st, r.0, r.1)
    decreases |lines| - j
  {
    if !StartsWith(Trim(lines[j]), Fence) {
      var st1 := DocStringStep(lines, j, fence, st).value;
      DocStringLinesStore(lines, j + 1, fence, st1);
      var r := DocStringLines(lines, j + 1, fence, st1).value;
      DocStringStoredCons(lines, j, fence, st, r.0, r.1);
    } else {
      DocStringStoredAtOnce(lines, j, fence, st);
    }
  }

  lemma StoredIgnoresLineCount(lines: seq<string>, j: nat, fence: int, st: ParserState,
                               next: nat, st2: ParserState)
    requires j < next <= |lines|
    requires DocStringStored(lines, j, fence, Counted(st), next, st2)
    ensures DocStringStored(lines, j, fence, st, next, st2)
  {
  }

  /** A docstring block opened at line `i`: the fence column is the indentation
      of the opening line, the block is closed by a fence line, and its content
      lines are stored, re-indented against that column. */
  lemma DocStringBlockStores(lines: seq<string>, i: nat, st: ParserState)
    requires i < |lines| && Consistent(st) && StartsWith(Trim(lines[i]), Fence)
    requires HandleDocStringsBlock(lines, i, st).Ok?
    ensures var r := HandleDocStringsBlock(lines, i, st).value;
      i + 1 < r.0 && DocStringStored(lines, i + 1, LeadingWhite(lines[i]), st, r.0, r.1)
  {
    var fence := LeadingWhite(lines[i]);
    assert IndexOf(lines[i], '"') == fence by {
      assert Trim(lines[i])[0] == Trim(lines[i])[..|Fence|][0] == '"';
      FirstNonWhiteColumn(lines[i]);
    }
    DocStringLinesStore(lines, i + 1, fence, Counted(st));
    var r := DocStringLines(lines, i + 1, fence, Counted(st)).value;
    StoredIgnoresLineCount(lines, i + 1, fence, st, r.0, r.1);
  }

  /** The rows of a block of table lines, in order. */
  function Rows(ls: seq<string>): (r: seq<seq<string>>)
    ensures |r| == |ls|
    decreases |ls|
  {
    if |ls| == 0 then [] else [Row(Trim(ls[0]))] + Rows(ls[1..])
  }

  /** Lines `j` to `next - 1` are all table rows. */
  predicate RowBlock(lines: seq<string>, j: nat, next: nat)
    requires j <= next <= |lines|
  {
    forall k :: j <= k < next ==> StartsWith(Trim(lines[k]), "|")
  }

  /** The document after a table block holding `rows`: in SCENARIO_GIVEN the
      rows, in order, appended to the table of the scenario's last Given step;
      in any other state the document is unchanged. */
  predicate RowsAppended(before: Document, after: Document, fill: FillState, rows: seq<seq<string>>) {
    ((rows == [] || fill != ScenarioGiven) ==> after == before)
    && ((rows != [] && fill == ScenarioGiven) ==>
      HasTarget(before, ScenarioGivens) && |Steps(before, ScenarioGivens)| > 0
      && var last := Steps(before, ScenarioGivens)[|Steps(before, ScenarioGivens)| - 1];
         LastReplaced(before, after, ScenarioGivens, last.(dataTable := last.dataTable + rows)))
  }

  /** What a table block from line `j` to `next - 1` stores; the fill state,
      pending tags and header counts are left alone. */
  predicate TableStored(lines: seq<string>, j: nat, st: ParserState, next: nat, st2: ParserState)
    requires j < next <= |lines|
  {
    RowBlock(lines, j, next)
    && st2.fill == st.fill && st2.pendingTags == st.pendingTags
    && st2.featureCount == st.featureCount && st2.backgroundCount == st.backgroundCount
    && RowsAppended(st.doc, st2.doc, st.fill, Rows(lines[j..next]))
  }

  /** The document after adding one row, as the loop of the table block does. */
  predicate RowAdded(before: Document, after: Document, fill: FillState, row: seq<string>) {
    (fill != ScenarioGiven ==> after == before)
    && (fill == ScenarioGiven ==>
      HasTarget(before, ScenarioGivens) && |Steps(before, ScenarioGivens)| > 0
      && AddRow(before, ScenarioGivens, row) == Ok(after))
  }

  lemma RowsAppendedCons(a: Document, b: Document, c: Document, fill: FillState,
                         row: seq<string>, tail: seq<seq<string>>)
    requires RowAdded(a, b, fill, row)
    requires RowsAppended(b, c, fill, tail)
    ensures RowsAppended(a, c, fill, [row] + tail)
  {
    if fill == ScenarioGiven {
      var last := Steps(a, ScenarioGivens)[|Steps(a, ScenarioGivens)| - 1];
      var last1 := last.(dataTable := last.dataTable + [row]);
      if tail == [] {
        assert [row] + tail == [row];
      } else {
        LastReplacedTwice(a, b, c, ScenarioGivens, last1, last1.(dataTable := last1.dataTable + tail));
        assert last1.dataTable + tail == last.dataTable + ([row] + tail);
      }
    }
  }

  lemma RowsCons(lines: seq<string>, j: nat, e: nat)
    requires j < e <= |lines|
    ensures Rows(lines[j..e]) == [Row(Trim(lines[j]))] + Rows(lines[j + 1..e])
  {
    var block := lines[j..e];
    assert block[0] == lines[j];
    assert block[1..] == lines[j + 1..e];
  }

  /** One row line handled: the row added as `RowAdded` says, the rest kept. */
  lemma TableRowStepAdds(lines: seq<string>, j: nat, st: ParserState)
    requires j < |lines| && Consistent(st) && TableRowStep(lines, j, st).Ok?
    ensures var st1 := TableRowStep(lines, j, st).value;
      RowAdded(st.doc, st1.doc, st.fill, Row(Trim(lines[j])))
      && st1.featureCount == st.featureCount && st1.backgroundCount == st.backgroundCount
  {
  }

  /** A row line in front of a stored block. */
  lemma TableStoredCons(lines: seq<string>, j: nat, st: ParserState, st1: ParserState,
                        next: nat, st2: ParserState)
    requires j < next <= |lines| && StartsWith(Trim(lines[j]), "|")
    requires RowAdded(st.doc, st1.doc, st.fill, Row(Trim(lines[j])))
    requires st1.fill == st.fill && st1.pendingTags == st.pendingTags
    requires st1.featureCount == st.featureCount && st1.backgroundCount == st.backgroundCount
    requires j + 1 == next ==>
      st2.doc == st1.doc && st2.fill == st1.fill && st2.pendingTags == st1.pendingTags
      && st2.featureCount == st1.featureCount && st2.backgroundCount == st1.backgroundCount
    requires j + 1 < next ==> TableStored(lines, j + 1, st1, next, st2)
    ensures TableStored(lines, j, st, next, st2)
  {
    RowsCons(lines, j, next);
    if j + 1 == next {
      assert lines[j + 1..next] == [];
    }
    RowsAppendedCons(st.doc, st1.doc, st2.doc, st.fill, Row(Trim(lines[j])), Rows(lines[j + 1..next]));
  }

  /** The table loop from a row line `j`: every line up to the returned index
      is a row, and in SCENARIO_GIVEN the rows are added, in order, to the
      table of the last Given step of the last scenario. */
  lemma {:induction false} TableRowsStore(lines: seq<string>, j: nat, st: ParserState)
    requires j < |lines| && Consistent(st) && StartsWith(Trim(lines[j]), "|")
    requires TableRows(lines, j, st).Ok?
    ensures var r := TableRows(lines, j, st).value;
      TableStored(lines, j, st, r.0, r.1)
    decreases |lines| - j
  {
    var st1 := TableRowStep(lines, j, st).value;
    TableRowStepAdds(lines, j, st);
    var r := TableRows(lines, j, st).value;
    if j + 1 < |lines| && StartsWith(Trim(lines[j + 1]), "|") {
      TableRowsStore(lines, j + 1, Counted(st1));
      TableStoredCons(lines, j, st, Counted(st1), r.0, r.1);
    } else {
      TableStoredCons(lines, j, st, st1, r.0, r.1);
    }
  }

  // ---------------------------------------------------------------------------
  // Tag lines and table rows read back

  /** A tag name as written after '@': non-empty, without '@' or space. */
  predicate TagName(name: string) {
    name != [] && '@' !in name && ' ' !in name
  }

  /** The tags joined without separator are the names joined by '@' after an
      empty first field. */
  lemma {:induction false} PrefixedJoin(names: seq<string>)
    requires |names| > 0
    ensures Join(Prefixed(names), []) == Join([""] + names, "@")
    decreases |names|
  {
    var tags := Prefixed(names);
    if |names| == 1 {
      assert Join(tags, []) == "@" + names[0];
      assert Join([""] + names, "@") == "" + "@" + Join(names, "@");
    } else {
      PrefixedJoin(names[1..]);
      assert tags[1..] == Prefixed(names[1..]);
      assert ([""] + names)[1..] == names;
      assert ([""] + names[1..])[1..] == names[1..];
      calc {
        Join(tags, []);
        tags[0] + [] + Join(tags[1..], []);
        ("@" + names[0]) + Join([""] + names[1..], "@");
        ("@" + names[0]) + ("@" + Join(names[1..], "@"));
        "@" + (names[0] + "@" + Join(names[1..], "@"));
        "@" + Join(names, "@");
        Join([""] + names, "@");
      }
    }
  }

  /** A tag line written from tag names, separated by single spaces, is a
      valid tag line and reads back as exactly those tags, in order. */
  lemma TagLineRoundTrip(names: seq<string>)
    requires |names| > 0
    requires forall k :: 0 <= k < |names| ==> TagName(names[k])
    ensures ValidTagLine(Join(Prefixed(names), " "))
    ensures TagsOf(Join(Prefixed(names), " ")) == Prefixed(names)
  {
    var tags := Prefixed(names);
    var line := Join(tags, " ");
    forall k | 0 <= k < |tags|
      ensures ' ' !in tags[k] && StartsWith(tags[k], "@")
    {
      assert tags[k] == ['@'] + names[k];
    }
    SplitJoin(tags, ' ');
    RemoveSeparator(tags, ' ');
    PrefixedJoin(names);
    var fields := [""] + names;
    assert forall k :: 0 <= k < |fields| ==> '@' !in fields[k];
    SplitJoin(fields, '@');
    assert NonEmpty(fields) == NonEmpty(names) == names;
  }

  /** A row line written from cells without '|', each framed by '|', reads back
      as the trimmed cells. */
  lemma RowReadsCells(cells: seq<string>)
    requires forall k :: 0 <= k < |cells| ==> '|' !in cells[k]
    ensures |Row(Join([""] + cells + [""], "|"))| == |cells|
    ensures forall k :: 0 <= k < |cells| ==> Row(Join([""] + cells + [""], "|"))[k] == Trim(cells[k])
  {
    var fields := [""] + cells + [""];
    assert forall k :: 0 <= k < |fields| ==> '|' !in fields[k];
    SplitJoin(fields, '|');
  }

  // ---------------------------------------------------------------------------
  // Concrete runs

  /** A failing step ends the loop with that failure. */
  lemma StepFails(lines: seq<string>, i: nat, st: ParserState)
    requires i < |lines| && Consistent(st) && Step(lines, i, st).Err?
    ensures Run(lines, i, st).Err? && Run(lines, i, st).error == Step(lines, i, st).error
  {
  }

  /** A successful step hands the rest of the input to the loop. */
  lemma StepSucceeds(lines: seq<string>, i: nat, st: ParserState)
    requires i < |lines| && Consistent(st) && Step(lines, i, st).Ok?
    ensures Run(lines, i, st) == Run(lines, Step(lines, i, st).value.0, Step(lines, i, st).value.1)
  {
  }

  /** The failure of the loop is the failure of the parse, on the 1-based line. */
  lemma RunFails(lines: seq<string>)
    requires Run(lines, 0, InitialState()).Err?
    ensures var f := Run(lines, 0, InitialState()).error;
      Parse(lines).Err? && Parse(lines).error == ParseError(f.kind, f.position + 1)
  {
  }

  /** A line whose first character begins none of the prefixes is unsupported. */
  lemma UnsupportedByFirstChar(t: string)
    requires |t| > 0 && t[0] !in "#@FBSGWTA\"|"
    ensures Classify(t) == Unsupported
  {
    DiffersAt(t, "#", 0);
    DiffersAt(t, "@", 0);
    DiffersAt(t, FeaturePrefix, 0);
    DiffersAt(t, BackgroundPrefix, 0);
    DiffersAt(t, ScenarioPrefix, 0);
    DiffersAt(t, GivenPrefix, 0);
    DiffersAt(t, WhenPrefix, 0);
    DiffersAt(t, ThenPrefix, 0);
    DiffersAt(t, AndPrefix, 0);
    DiffersAt(t, Fence, 0);
    DiffersAt(t, "|", 0);
  }

  lemma RowClassified(t: string)
    requires |t| > 0 && t[0] == '|'
    ensures Classify(t) == TableRow
  {
    DiffersAt(t, "#", 0);
    DiffersAt(t, "@", 0);
    DiffersAt(t, FeaturePrefix, 0);
    DiffersAt(t, BackgroundPrefix, 0);
    DiffersAt(t, ScenarioPrefix, 0);
    DiffersAt(t, GivenPrefix, 0);
    DiffersAt(t, WhenPrefix, 0);
    DiffersAt(t, ThenPrefix, 0);
    DiffersAt(t, AndPrefix, 0);
    DiffersAt(t, Fence, 0);
    assert t[..1] == "|";
  }

  lemma FeatureClassified(t: string)
    requires StartsWith(t, FeaturePrefix)
    ensures Classify(t) == FeatureHeader
  {
    assert t[0] == t[..|FeaturePrefix|][0] == 'F';
    DiffersAt(t, "#", 0);
    DiffersAt(t, "@", 0);
  }

  /** A line no handler recognises stops the parse, naming the line. */
  lemma UnsupportedExample()
    ensures Parse(["But anything"]).Err? && Parse(["But anything"]).error == ParseError(UnsupportedLine("But anything"), 1)
  {
    var lines := ["But anything"];
    var t := lines[0];
    TrimOfTrimmed(t);
    assert t[0] == 'B' && t[1] == 'u';
    DiffersAt(t, "#", 0);
    DiffersAt(t, "@", 0);
    DiffersAt(t, FeaturePrefix, 0);
    DiffersAt(t, BackgroundPrefix, 1);
    DiffersAt(t, ScenarioPrefix, 0);
    DiffersAt(t, GivenPrefix, 0);
    DiffersAt(t, WhenPrefix, 0);
    DiffersAt(t, ThenPrefix, 0);
    DiffersAt(t, AndPrefix, 0);
    DiffersAt(t, Fence, 0);
    DiffersAt(t, "|", 0);
    assert !Recognised(t);
    UnsupportedLineFails(lines, 0, InitialState());
    StepFails(lines, 0, InitialState());
    RunFails(lines);
  }

  /** A second feature header is an error on the line that carries it. */
  lemma TwoFeaturesFail(a: string, b: string)
    requires Classify(Trim(a)) == FeatureHeader && Classify(Trim(b)) == FeatureHeader
    ensures Parse([a, b]).Err? && Parse([a, b]).error == ParseError(MultipleFeatures, 2)
  {
    var lines := [a, b];
    assert lines[0] == a && lines[1] == b;
    FirstFeatureAccepted(lines, 0, InitialState());
    var s1 := Step(lines, 0, InitialState());
    SecondFeatureFails(lines, 1, s1.value.1);
    StepSucceeds(lines, 0, InitialState());
    StepFails(lines, 1, s1.value.1);
    RunFails(lines);
  }

  /** The test input with two Feature lines fails on line 2. */
  lemma SecondFeatureExample(a: string, b: string)
    requires a == "Feature: feature1" && b == "Feature: feature2"
    ensures Parse([a, b]).Err?
    ensures Parse([a, b]).error == ParseError(MultipleFeatures, 2)
  {
    TrimOfTrimmed(a);
    TrimOfTrimmed(b);
    assert a[..|FeaturePrefix|] == FeaturePrefix;
    assert b[..|FeaturePrefix|] == FeaturePrefix;
    FeatureClassified(a);
    FeatureClassified(b);
    TwoFeaturesFail(a, b);
  }

  /** The line that ends a data table is dispatched again as a line of its
      own: after a row line, an unsupported line fails on line 2. */
  lemma TableThenUnsupported(a: string, b: string)
    requires Classify(Trim(a)) == TableRow && !Recognised(Trim(b))
    ensures Parse([a, b]).Err?
    ensures Parse([a, b]).error == ParseError(UnsupportedLine(Trim(b)), 2)
  {
    var lines := [a, b];
    assert lines[0] == a && lines[1] == b;
    var s0 := InitialState();
    var r := Step(lines, 0, s0);
    assert !StartsWith(Trim(b), "|");
    assert r.Ok? && r.value.0 == 1;
    UnsupportedLineFails(lines, 1, r.value.1);
    StepSucceeds(lines, 0, s0);
    StepFails(lines, 1, r.value.1);
    RunFails(lines);
  }

  /** `| a |` followed by `x`: the error names line 2, not the table. */
  lemma TableEndExample(a: string, b: string)
    requires a == "| a |" && b == "x"
    ensures Parse([a, b]).Err?
    ensures Parse([a, b]).error == ParseError(UnsupportedLine(b), 2)
  {
    TrimOfTrimmed(a);
    TrimOfTrimmed(b);
    RowClassified(a);
    UnsupportedByFirstChar(b);
    TableThenUnsupported(a, b);
  }

  /** A tag line whose second word does not start with '@' is malformed. */
  lemma SecondWordMalformed(first: string, second: string, rest: string)
    requires ' ' !in first && ' ' !in second && !StartsWith(second, "@")
    ensures !ValidTagLine(first + [' '] + (second + [' '] + rest))
  {
    SplitAroundPlain(second, ' ', rest);
    SplitAroundPlain(first, ' ', second + [' '] + rest);
    assert Split(first + [' '] + (second + [' '] + rest), ' ')[1] == second;
  }

  /** The malformed tag line of the test suite: its second word lacks '@'. */
  lemma MalformedTagLineExample(line: string)
    requires line == "@no space in tag"
    ensures !ValidTagLine(line)
  {
    var first: string := "@no";
    var second: string := "space";
    var rest: string := "in tag";
    assert line == first + [' '] + (second + [' '] + rest);
    assert second[0] != '@';
    SecondWordMalformed(first, second, rest);
  }

  lemma TagLineClassified(t: string)
    requires |t| > 0 && t[0] == '@'
    ensures Classify(t) == TagLine
  {
    assert t[..1] == "@";
  }

  /** A malformed tag line stops the parse on that line. */
  lemma MalformedTagLineStep(lines: seq<string>, i: nat, st: ParserState)
    requires i < |lines| && Consistent(st)
    requires Classify(Trim(lines[i])) == TagLine && !ValidTagLine(Trim(lines[i]))
    ensures Step(lines, i, st).Err? && Step(lines, i, st).error == Failure(MalformedTagLine, st.lineCount + 1, i)
  {
    var st1 := Counted(st);
    var t := Trim(lines[i]);
    assert HandleTagLine(t, st1, i).Err? && HandleTagLine(t, st1, i).error == Failure(MalformedTagLine, st1.lineCount, i);
    assert HandleLine(t, st1, i).Err? && HandleLine(t, st1, i).error == Failure(MalformedTagLine, st1.lineCount, i);
  }

  /** A one-line input that is a malformed tag line fails on line 1. */
  lemma MalformedTagLineFails(t: string)
    requires Classify(Trim(t)) == TagLine && !ValidTagLine(Trim(t))
    ensures Parse([t]).Err? && Parse([t]).error == ParseError(MalformedTagLine, 1)
  {
    var lines := [t];
    assert lines[0] == t;
    MalformedTagLineStep(lines, 0, InitialState());
    StepFails(lines, 0, InitialState());
    RunFails(lines);
  }
}
