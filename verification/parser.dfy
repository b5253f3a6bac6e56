/** `GherkinObjectParser`: a line-driven state machine that builds a
    `Document` from the lines of a feature file. Lines are read in order; each
    trimmed line is dispatched on its prefix, and the handlers attach steps,
    docstrings and data-table rows to the most recent instruction. */
module Parser {
  import opened Wrappers
  import opened Text
  import opened Model

  // ---------------------------------------------------------------------------
  // State

  /** `FillingState`: where the next Given/And/docstring/table goes. */
  datatype FillState = Other | BackgroundGiven | ScenarioGiven | ScenarioWhen | ScenarioThen

  /** What went wrong. The first four are the parser's own `ArgumentException`s,
      whose messages carry a line number; the others are the runtime failures
      of the shown code (a null `currentScenario`, `Last()` of an empty list,
      `Pop()` of an empty stack, `First()` of an empty string) and the
      `StateMachineException` of the docstring handler. */
  datatype ErrorKind =
    | UnsupportedLine(text: string)
    | MultipleFeatures
    | MultipleBackgrounds
    | MalformedTagLine
    | DocStringNotAllowed(state: FillState)
    | NoCurrentScenario
    | EmptyInstructionList
    | UnexpectedEndOfInput
    | BlankDocStringLine

  /** The kinds whose message names a line: the parser's own exceptions. */
  predicate Numbered(k: ErrorKind) {
    k.UnsupportedLine? || k == MultipleFeatures || k == MultipleBackgrounds || k == MalformedTagLine
  }

  /** A failure as raised: its kind, the parser's running `lineCount` at that
      moment, and the index of the last line read. */
  datatype Failure = Failure(kind: ErrorKind, counted: nat, position: nat)

  datatype ParserState = ParserState(
    fill: FillState,
    featureCount: nat,
    backgroundCount: nat,
    pendingTags: seq<string>,
    lineCount: nat,
    doc: Document)

  function InitialState(): ParserState {
    ParserState(Other, 0, 0, [], 0, EmptyDocument())
  }

  /** A scenario state always has a current scenario: `HandleScenarioLine`
      creates it, and `HandleWhenLine`/`HandleThenLine` use it before they
      switch state. */
  predicate Consistent(st: ParserState) {
    (st.fill == ScenarioGiven || st.fill == ScenarioWhen || st.fill == ScenarioThen) ==>
      |st.doc.scenarios| > 0
  }

  // ---------------------------------------------------------------------------
  // Instruction lists

  /** The three instruction lists a step, docstring or row can go to. The
      scenario ones belong to the current scenario, the last one created. */
  datatype Target = BackgroundGivens | ScenarioGivens | ScenarioThens

  predicate HasTarget(doc: Document, t: Target) {
    t == BackgroundGivens || |doc.scenarios| > 0
  }

  function LastScenario(doc: Document): Scenario
    requires |doc.scenarios| > 0
  {
    doc.scenarios[|doc.scenarios| - 1]
  }

  function Steps(doc: Document, t: Target): seq<Instruction>
    requires HasTarget(doc, t)
  {
    match t
    case BackgroundGivens => doc.background.givens
    case ScenarioGivens => LastScenario(doc).givens
    case ScenarioThens => LastScenario(doc).thens
  }

  /** The document with list `t` replaced by `xs`: the list reads back as
      `xs`, the other lists, the feature and every earlier scenario are kept. */
  function WithSteps(doc: Document, t: Target, xs: seq<Instruction>): (r: Document)
    requires HasTarget(doc, t)
    ensures HasTarget(r, t) && Steps(r, t) == xs
    ensures r.featureName == doc.featureName && r.featureTags == doc.featureTags
    ensures |r.scenarios| == |doc.scenarios|
    ensures t != BackgroundGivens ==> r.background == doc.background
    ensures t != BackgroundGivens ==> r.scenarios[..|r.scenarios| - 1] == doc.scenarios[..|doc.scenarios| - 1]
    ensures t == BackgroundGivens ==> r.scenarios == doc.scenarios
    ensures forall u :: u != t && HasTarget(doc, u) ==> HasTarget(r, u) && Steps(r, u) == Steps(doc, u)
    ensures |doc.scenarios| > 0 ==>
      var a := LastScenario(doc);
      var b := LastScenario(r);
      b.name == a.name && b.when == a.when && b.whens == a.whens && b.tags == a.tags
      && b.isOutline == a.isOutline && b.examples == a.examples
  {
    match t
    case BackgroundGivens => doc.(background := Background(xs))
    case ScenarioGivens =>
      var n := |doc.scenarios|;
      doc.(scenarios := doc.scenarios[..n - 1] + [LastScenario(doc).(givens := xs)])
    case ScenarioThens =>
      var n := |doc.scenarios|;
      doc.(scenarios := doc.scenarios[..n - 1] + [LastScenario(doc).(thens := xs)])
  }

  /** `after` is `before` with `ins` appended to list `t` and nothing else changed. */
  predicate Appended(before: Document, after: Document, t: Target, ins: Instruction) {
    HasTarget(before, t)
    && after == WithSteps(before, t, Steps(before, t) + [ins])
  }

  /** `after` is `before` with the last instruction of list `t` replaced by
      `ins` and nothing else changed. */
  predicate LastReplaced(before: Document, after: Document, t: Target, ins: Instruction) {
    HasTarget(before, t) && |Steps(before, t)| > 0
    && var xs := Steps(before, t);
       after == WithSteps(before, t, xs[..|xs| - 1] + [ins])
  }

  /** `X.Last().DocStrings.Add(text)` on list `t`; `Last()` of an empty list fails. */
  function AddDocString(doc: Document, t: Target, text: string): (r: Result<Document, ErrorKind>)
    requires HasTarget(doc, t)
    ensures r.Err? <==> |Steps(doc, t)| == 0
    ensures r.Err? ==> r.error == EmptyInstructionList
    ensures r.Ok? ==>
      var last := Steps(doc, t)[|Steps(doc, t)| - 1];
      LastReplaced(doc, r.value, t, last.(docStrings := last.docStrings + [text]))
  {
    var xs := Steps(doc, t);
    if |xs| == 0 then Err(EmptyInstructionList)
    else
      var last := xs[|xs| - 1];
      Ok(WithSteps(doc, t, xs[..|xs| - 1] + [last.(docStrings := last.docStrings + [text])]))
  }

  /** `X.Last().DataTable.Add(row)` on list `t`; `Last()` of an empty list fails. */
  function AddRow(doc: Document, t: Target, row: seq<string>): (r: Result<Document, ErrorKind>)
    requires HasTarget(doc, t)
    ensures r.Err? <==> |Steps(doc, t)| == 0
    ensures r.Err? ==> r.error == EmptyInstructionList
    ensures r.Ok? ==>
      var last := Steps(doc, t)[|Steps(doc, t)| - 1];
      LastReplaced(doc, r.value, t, last.(dataTable := last.dataTable + [row]))
  {
    var xs := Steps(doc, t);
    if |xs| == 0 then Err(EmptyInstructionList)
    else
      var last := xs[|xs| - 1];
      Ok(WithSteps(doc, t, xs[..|xs| - 1] + [last.(dataTable := last.dataTable + [row])]))
  }

  // ---------------------------------------------------------------------------
  // Dispatch

  const FeaturePrefix: string := "Feature: "
  const BackgroundPrefix: string := "Background:"
  const ScenarioPrefix: string := "Scenario: "
  const GivenPrefix: string := "Given "
  const WhenPrefix: string := "When "
  const ThenPrefix: string := "Then "
  const AndPrefix: string := "And "
  const Fence: string := "\"\"\""

  datatype LineKind =
    | Skipped | TagLine | FeatureHeader | BackgroundHeader | ScenarioHeader
    | GivenStep | WhenStep | ThenStep | AndStep | DocStringFence | TableRow | Unsupported

  /** Some keyword, fence or marker of the dispatch starts `t`. */
  predicate Recognised(t: string) {
    StartsWith(t, "#") || t == [] || StartsWith(t, "@") || StartsWith(t, FeaturePrefix)
    || StartsWith(t, BackgroundPrefix) || StartsWith(t, ScenarioPrefix) || StartsWith(t, GivenPrefix)
    || StartsWith(t, WhenPrefix) || StartsWith(t, ThenPrefix) || StartsWith(t, AndPrefix)
    || StartsWith(t, Fence) || StartsWith(t, "|")
  }

  /** The prefix tests of `Parse`, in their order: the first one that holds wins. */
  function Classify(t: string): (k: LineKind)
    ensures k == Skipped <==> (StartsWith(t, "#") || t == [])
    ensures k == Unsupported <==> !Recognised(t)
    ensures k == TagLine ==> StartsWith(t, "@")
    ensures k == FeatureHeader ==> StartsWith(t, FeaturePrefix)
    ensures k == BackgroundHeader ==> StartsWith(t, BackgroundPrefix)
    ensures k == ScenarioHeader ==> StartsWith(t, ScenarioPrefix)
    ensures k == GivenStep ==> StartsWith(t, GivenPrefix)
    ensures k == WhenStep ==> StartsWith(t, WhenPrefix)
    ensures k == ThenStep ==> StartsWith(t, ThenPrefix)
    ensures k == AndStep ==> StartsWith(t, AndPrefix)
    ensures k == DocStringFence ==> StartsWith(t, Fence)
    ensures k == TableRow ==> StartsWith(t, "|")
  {
    if StartsWith(t, "#") || t == [] then Skipped
    else if StartsWith(t, "@") then TagLine
    else if StartsWith(t, FeaturePrefix) then FeatureHeader
    else if StartsWith(t, BackgroundPrefix) then BackgroundHeader
    else if StartsWith(t, ScenarioPrefix) then ScenarioHeader
    else if StartsWith(t, GivenPrefix) then GivenStep
    else if StartsWith(t, WhenPrefix) then WhenStep
    else if StartsWith(t, ThenPrefix) then ThenStep
    else if StartsWith(t, AndPrefix) then AndStep
    else if StartsWith(t, Fence) then DocStringFence
    else if StartsWith(t, "|") then TableRow
    else Unsupported
  }

  // ---------------------------------------------------------------------------
  // Tag lines

  /** Every token between single spaces starts with '@'. */
  predicate ValidTagLine(t: string) {
    var tokens := Split(t, ' ');
    forall k :: 0 <= k < |tokens| ==> StartsWith(tokens[k], "@")
  }

  /** The non-empty texts of `xs`, in order (`StringSplitOptions.RemoveEmptyEntries`). */
  function NonEmpty(xs: seq<string>): (r: seq<string>)
    ensures |r| <= |xs|
    ensures forall k :: 0 <= k < |r| ==> r[k] != [] && r[k] in xs
    ensures (forall k :: 0 <= k < |xs| ==> xs[k] != []) ==> r == xs
  {
    if |xs| == 0 then []
    else if xs[0] == [] then NonEmpty(xs[1..])
    else [xs[0]] + NonEmpty(xs[1..])
  }

  /** `Select(tag => "@" + tag)`. */
  function Prefixed(names: seq<string>): (r: seq<string>)
    ensures |r| == |names|
    ensures forall k :: 0 <= k < |names| ==> r[k] == "@" + names[k]
  {
    seq(|names|, k requires 0 <= k < |names| => "@" + names[k])
  }

  /** The tags a valid tag line contributes: spaces removed, split on '@',
      empty fragments dropped, '@' put back in front. */
  function TagsOf(t: string): (r: seq<string>)
    ensures forall k :: 0 <= k < |r| ==> |r[k]| > 1 && r[k][0] == '@'
  {
    Prefixed(NonEmpty(Split(ReplaceAll(t, " ", ""), '@')))
  }

  /** A tag as the parser produces it: '@', then a non-empty name without '@'
      or space. */
  predicate IsTag(x: string) {
    |x| > 1 && x[0] == '@' && '@' !in x[1..] && ' ' !in x[1..]
  }

  lemma RemoveCharAbsent(s: string, c: char)
    ensures c !in ReplaceAll(s, [c], [])
    decreases |s|
  {
    if |s| >= 1 {
      RemoveCharAbsent(s[1..], c);
      assert s[..1] == [s[0]];
    }
  }

  lemma TagsOfAreTags(t: string)
    ensures forall k :: 0 <= k < |TagsOf(t)| ==> IsTag(TagsOf(t)[k])
  {
    var plain := ReplaceAll(t, " ", "");
    RemoveCharAbsent(t, ' ');
    var frags := Split(plain, '@');
    var names := NonEmpty(frags);
    forall k | 0 <= k < |names|
      ensures IsTag("@" + names[k])
    {
      var i :| 0 <= i < |frags| && frags[i] == names[k];
      SplitPiecesOf(plain, '@', ' ', i);
      assert ("@" + names[k])[1..] == names[k];
    }
  }

  /** `HandleTagLine`: a malformed line fails; otherwise its tags join the
      pending ones, after them. */
  function HandleTagLine(t: string, st: ParserState, pos: nat): (r: Result<ParserState, Failure>)
    ensures r.Err? <==> !ValidTagLine(t)
    ensures r.Err? ==> r.error == Failure(MalformedTagLine, st.lineCount, pos)
    ensures r.Ok? ==> r.value == st.(pendingTags := st.pendingTags + TagsOf(t))
  {
    if !ValidTagLine(t) then Err(Failure(MalformedTagLine, st.lineCount, pos))
    else Ok(st.(pendingTags := st.pendingTags + TagsOf(t)))
  }

  // ---------------------------------------------------------------------------
  // Headers and steps

  /** `HandleFeatureLine`: only one feature; the name after "Feature: ", the
      distinct pending tags, pending cleared, state OTHER. */
  function HandleFeatureLine(t: string, st: ParserState, pos: nat): (r: Result<ParserState, Failure>)
    requires StartsWith(t, FeaturePrefix)
    ensures r.Err? <==> st.featureCount > 0
    ensures r.Err? ==> r.error == Failure(MultipleFeatures, st.lineCount, pos)
    ensures r.Ok? ==> FeatureHeaderPlus(st, r.value, t[|FeaturePrefix|..])
  {
    if st.featureCount > 0 then Err(Failure(MultipleFeatures, st.lineCount, pos))
    else
      var doc := st.doc.(featureName := t[|FeaturePrefix|..], featureTags := Distinct(st.pendingTags));
      Ok(st.(doc := doc, pendingTags := [], featureCount := st.featureCount + 1, fill := Other))
  }

  /** What a successful Feature line changes. */
  predicate FeatureHeaderPlus(st: ParserState, r: ParserState, name: string) {
    r.doc.featureName == name
    && r.doc.featureTags == Distinct(st.pendingTags)
    && r.doc.background == st.doc.background && r.doc.scenarios == st.doc.scenarios
    && r.pendingTags == [] && r.fill == Other
    && r.featureCount == 1 && r.backgroundCount == st.backgroundCount
    && r.lineCount == st.lineCount
  }

  /** `HandleBackgroundLine`: only one background; then state BACKGROUND_GIVEN. */
  function HandleBackgroundLine(st: ParserState, pos: nat): (r: Result<ParserState, Failure>)
    ensures r.Err? <==> st.backgroundCount > 0
    ensures r.Err? ==> r.error == Failure(MultipleBackgrounds, st.lineCount, pos)
    ensures r.Ok? ==> (r.value.doc == st.doc && r.value.fill == BackgroundGiven
      && r.value.backgroundCount == 1 && r.value.pendingTags == st.pendingTags)
  {
    if st.backgroundCount > 0 then Err(Failure(MultipleBackgrounds, st.lineCount, pos))
    else Ok(st.(backgroundCount := st.backgroundCount + 1, fill := BackgroundGiven))
  }

  /** `HandleScenarioLine`: a new scenario named after "Scenario: ", carrying
      the distinct pending tags, becomes the current one; pending is cleared. */
  function HandleScenarioLine(t: string, st: ParserState): (r: ParserState)
    requires StartsWith(t, ScenarioPrefix)
    ensures r.doc.scenarios == st.doc.scenarios + [NewScenario(t[|ScenarioPrefix|..], Distinct(st.pendingTags))]
    ensures r.doc.featureName == st.doc.featureName && r.doc.featureTags == st.doc.featureTags
    ensures r.doc.background == st.doc.background
    ensures r.pendingTags == [] && r.fill == ScenarioGiven
    ensures r.featureCount == st.featureCount && r.backgroundCount == st.backgroundCount
  {
    var s := NewScenario(t[|ScenarioPrefix|..], Distinct(st.pendingTags));
    st.(doc := st.doc.(scenarios := st.doc.scenarios + [s]), pendingTags := [], fill := ScenarioGiven)
  }

  /** The list a Given line goes to in each state, if any. */
  function GivenTarget(fill: FillState): Option<Target> {
    match fill
    case ScenarioGiven => Some(ScenarioGivens)
    case BackgroundGiven => Some(BackgroundGivens)
    case _ => None
  }

  /** The list an And line or a docstring goes to in each state, if any. */
  function StepTarget(fill: FillState): Option<Target> {
    match fill
    case ScenarioGiven => Some(ScenarioGivens)
    case ScenarioThen => Some(ScenarioThens)
    case BackgroundGiven => Some(BackgroundGivens)
    case _ => None
  }

  /** Append `ins` to the list `target` names, or drop it. */
  function AppendTo(st: ParserState, target: Option<Target>, ins: Instruction): (r: ParserState)
    requires target.Some? ==> HasTarget(st.doc, target.value)
    ensures target.Some? ==> Appended(st.doc, r.doc, target.value, ins)
    ensures target.None? ==> r == st
    ensures r.fill == st.fill && r.pendingTags == st.pendingTags && r.lineCount == st.lineCount
    ensures r.featureCount == st.featureCount && r.backgroundCount == st.backgroundCount
  {
    match target
    case None => st
    case Some(t) => st.(doc := WithSteps(st.doc, t, Steps(st.doc, t) + [ins]))
  }

  /** `HandleGivenLine`: to the scenario's givens in SCENARIO_GIVEN, to the
      background's in BACKGROUND_GIVEN, dropped otherwise; the state stays. */
  function HandleGivenLine(t: string, st: ParserState): (r: ParserState)
    requires StartsWith(t, GivenPrefix) && Consistent(st)
    ensures st.fill == ScenarioGiven ==> Appended(st.doc, r.doc, ScenarioGivens, NewInstruction(t[|GivenPrefix|..]))
    ensures st.fill == BackgroundGiven ==> Appended(st.doc, r.doc, BackgroundGivens, NewInstruction(t[|GivenPrefix|..]))
    ensures st.fill != ScenarioGiven && st.fill != BackgroundGiven ==> r == st
    ensures r.fill == st.fill
    ensures r.pendingTags == st.pendingTags && r.lineCount == st.lineCount
    ensures r.featureCount == st.featureCount && r.backgroundCount == st.backgroundCount
  {
    AppendTo(st, GivenTarget(st.fill), NewInstruction(t[|GivenPrefix|..]))
  }

  /** `HandleAndLine`: like Given, and also to the thens in SCENARIO_THEN;
      dropped in OTHER and SCENARIO_WHEN. */
  function HandleAndLine(t: string, st: ParserState): (r: ParserState)
    requires StartsWith(t, AndPrefix) && Consistent(st)
    ensures st.fill == ScenarioGiven ==> Appended(st.doc, r.doc, ScenarioGivens, NewInstruction(t[|AndPrefix|..]))
    ensures st.fill == ScenarioThen ==> Appended(st.doc, r.doc, ScenarioThens, NewInstruction(t[|AndPrefix|..]))
    ensures st.fill == BackgroundGiven ==> Appended(st.doc, r.doc, BackgroundGivens, NewInstruction(t[|AndPrefix|..]))
    ensures st.fill == Other || st.fill == ScenarioWhen ==> r == st
    ensures r.fill == st.fill
    ensures r.pendingTags == st.pendingTags && r.lineCount == st.lineCount
    ensures r.featureCount == st.featureCount && r.backgroundCount == st.backgroundCount
  {
    AppendTo(st, StepTarget(st.fill), NewInstruction(t[|AndPrefix|..]))
  }

  /** `HandleWhenLine`: overwrites the current scenario's single When text. */
  function HandleWhenLine(t: string, st: ParserState, pos: nat): (r: Result<ParserState, Failure>)
    requires StartsWith(t, WhenPrefix)
    ensures r.Err? <==> |st.doc.scenarios| == 0
    ensures r.Err? ==> r.error == Failure(NoCurrentScenario, st.lineCount, pos)
    ensures r.Ok? ==>
      var n := |st.doc.scenarios|;
      r.value.doc == st.doc.(scenarios := st.doc.scenarios[..n - 1] + [LastScenario(st.doc).(when := t[|WhenPrefix|..])])
      && r.value.fill == ScenarioWhen && r.value.pendingTags == st.pendingTags
  {
    if |st.doc.scenarios| == 0 then Err(Failure(NoCurrentScenario, st.lineCount, pos))
    else
      var n := |st.doc.scenarios|;
      var s := LastScenario(st.doc).(when := t[|WhenPrefix|..]);
      Ok(st.(doc := st.doc.(scenarios := st.doc.scenarios[..n - 1] + [s]), fill := ScenarioWhen))
  }

  /** `HandleThenLine`: appends to the current scenario's thens, in any state. */
  function HandleThenLine(t: string, st: ParserState, pos: nat): (r: Result<ParserState, Failure>)
    requires StartsWith(t, ThenPrefix)
    ensures r.Err? <==> |st.doc.scenarios| == 0
    ensures r.Err? ==> r.error == Failure(NoCurrentScenario, st.lineCount, pos)
    ensures r.Ok? ==> (Appended(st.doc, r.value.doc, ScenarioThens, NewInstruction(t[|ThenPrefix|..]))
      && r.value.fill == ScenarioThen && r.value.pendingTags == st.pendingTags)
  {
    if |st.doc.scenarios| == 0 then Err(Failure(NoCurrentScenario, st.lineCount, pos))
    else
      var s := AppendTo(st, Some(ScenarioThens), NewInstruction(t[|ThenPrefix|..]));
      Ok(s.(fill := ScenarioThen))
  }

  // ---------------------------------------------------------------------------
  // Docstrings

  function Spaces(n: nat): (r: string)
    ensures |r| == n && forall k :: 0 <= k < n ==> r[k] == ' '
  {
    seq(n, _ => ' ')
  }

  /** `string.IsNullOrEmpty(line) ? 0 : line.IndexOf(line.Trim().First())`:
      the column of the first non-white character. */
  function FirstCharIndex(line: string): (r: int)
    requires line == [] || Trim(line) != []
    ensures r == LeadingWhite(line)
  {
    if line == [] then 0
    else
      FirstNonWhiteColumn(line);
      IndexOf(line, Trim(line)[0])
  }

  /** One docstring line re-indented against the fence column: the columns it
      is indented beyond the fence, as spaces, then its trimmed text. A
      non-empty line of white space only fails. */
  function NormaliseDocLine(line: string, fence: int): (r: Result<string, ErrorKind>)
    ensures r.Err? <==> (line != [] && Trim(line) == [])
    ensures r.Err? ==> r.error == BlankDocStringLine
    ensures r.Ok? ==>
      var indent := LeadingWhite(line) - fence;
      r.value == Spaces(if indent > 0 then indent else 0) + Trim(line)
  {
    if line != [] && Trim(line) == [] then Err(BlankDocStringLine)
    else
      var firstChar := FirstCharIndex(line);
      var pad := if firstChar - fence >= 0 then firstChar - fence else 0;
      Ok(Spaces(pad) + Trim(line))
  }

  /** The body of the loop of `HandleDocStringsBlock` for one content line:
      re-indent it, then add it to the last instruction of the list the state
      names. States without such a list fail. */
  function AddDocStringLine(line: string, fence: int, st: ParserState): (r: Result<Document, ErrorKind>)
    requires Consistent(st)
    ensures r.Err? ==> !Numbered(r.error)
    ensures r.Ok? ==> |r.value.scenarios| == |st.doc.scenarios|
    ensures r.Err? <==> (NormaliseDocLine(line, fence).Err? || StepTarget(st.fill).None?
      || |Steps(st.doc, StepTarget(st.fill).value)| == 0)
    ensures r.Ok? ==>
      var t := StepTarget(st.fill).value;
      var last := Steps(st.doc, t)[|Steps(st.doc, t)| - 1];
      LastReplaced(st.doc, r.value, t,
        last.(docStrings := last.docStrings + [NormaliseDocLine(line, fence).value]))
  {
    var text :- NormaliseDocLine(line, fence);
    match StepTarget(st.fill)
    case None => Err(DocStringNotAllowed(st.fill))
    case Some(t) => AddDocString(st.doc, t, text)
  }

  /** The state after reading one more line. */
  function Counted(st: ParserState): ParserState {
    st.(lineCount := st.lineCount + 1)
  }

  /** One content line `j` of a docstring block stored, and the next line read. */
  function DocStringStep(lines: seq<string>, j: nat, fence: int, st: ParserState): (r: Result<ParserState, Failure>)
    requires j < |lines| && Consistent(st)
    ensures r.Ok? ==> Consistent(r.value)
    ensures r.Err? ==> r.error.position == j && !Numbered(r.error.kind)
  {
    match AddDocStringLine(lines[j], fence, st)
    case Err(e) => Err(Failure(e, st.lineCount, j))
    case Ok(doc) => Ok(Counted(st.(doc := doc)))
  }

  /** Line `next - 1`, the last one a docstring block consumed, is a fence. */
  predicate ClosedBy(lines: seq<string>, next: nat)
    requires 0 < next <= |lines|
  {
    StartsWith(Trim(lines[next - 1]), Fence)
  }

  /** The loop of `HandleDocStringsBlock` from line `j` (already read) on,
      until the closing fence, which is consumed. */
  function DocStringLines(lines: seq<string>, j: nat, fence: int, st: ParserState): (r: Result<(nat, ParserState), Failure>)
    requires j < |lines| && Consistent(st)
    ensures r.Ok? ==> j < r.value.0 <= |lines| && Consistent(r.value.1) && ClosedBy(lines, r.value.0)
    ensures r.Err? ==> j <= r.error.position < |lines| && !Numbered(r.error.kind)
    decreases |lines| - j
  {
    if StartsWith(Trim(lines[j]), Fence) then Ok((j + 1, st))
    else
      var next := DocStringStep(lines, j, fence, st);
      if next.Err? then Err(next.error)
      else if j + 1 == |lines| then Err(Failure(UnexpectedEndOfInput, st.lineCount, j))
      else DocStringLines(lines, j + 1, fence, next.value)
  }

  /** `HandleDocStringsBlock`: the fence column is the first '"' of the
      opening line; the next line must exist. */
  function HandleDocStringsBlock(lines: seq<string>, i: nat, st: ParserState): (r: Result<(nat, ParserState), Failure>)
    requires i < |lines| && Consistent(st)
    ensures r.Ok? ==> i + 1 < r.value.0 <= |lines| && Consistent(r.value.1) && ClosedBy(lines, r.value.0)
    ensures r.Err? ==> i <= r.error.position < |lines| && !Numbered(r.error.kind)
  {
    var fence := IndexOf(lines[i], '"');
    if i + 1 == |lines| then Err(Failure(UnexpectedEndOfInput, st.lineCount, i))
    else DocStringLines(lines, i + 1, fence, Counted(st))
  }

  // ---------------------------------------------------------------------------
  // Data tables

  /** `t.Split("|", TrimEntries).Skip(1).SkipLast(1)`: the trimmed fields
      between the first and the last '|'. */
  function Row(t: string): (r: seq<string>)
    ensures |r| == if |Split(t, '|')| < 2 then 0 else |Split(t, '|')| - 2
    ensures forall k :: 0 <= k < |r| ==> r[k] == Trim(Split(t, '|')[k + 1]) && '|' !in r[k]
  {
    var fields := Split(t, '|');
    if |fields| < 2 then []
    else
      seq(|fields| - 2, k requires 0 <= k < |fields| - 2 => Trim(fields[k + 1]))
  }

  /** Row line `j` handled: kept only in SCENARIO_GIVEN. */
  function TableRowStep(lines: seq<string>, j: nat, st: ParserState): (r: Result<ParserState, Failure>)
    requires j < |lines| && Consistent(st)
    ensures r.Ok? ==> Consistent(r.value)
    ensures r.Ok? ==> r.value.fill == st.fill && r.value.pendingTags == st.pendingTags
    ensures r.Err? ==> r.error.position == j && !Numbered(r.error.kind)
  {
    if st.fill != ScenarioGiven then Ok(st)
    else
      match AddRow(st.doc, ScenarioGivens, Row(Trim(lines[j])))
      case Err(e) => Err(Failure(e, st.lineCount, j))
      case Ok(doc) => Ok(st.(doc := doc))
  }

  /** Lines `j + 1` to `next - 1` are table rows. */
  predicate RowsAfter(lines: seq<string>, j: nat, next: nat)
    requires next <= |lines|
  {
    forall k :: j < k < next ==> StartsWith(Trim(lines[k]), "|")
  }

  /** One more row in front of a block of rows. */
  lemma RowsAfterCons(lines: seq<string>, j: nat, next: nat)
    requires j + 1 < |lines| && next <= |lines| && StartsWith(Trim(lines[j + 1]), "|")
    ensures RowsAfter(lines, j + 1, next) ==> RowsAfter(lines, j, next)
  {
  }

  /** Line `next` ends a table: the input is over or the line is not a row. */
  predicate EndsTable(lines: seq<string>, next: nat)
    requires next <= |lines|
  {
    next == |lines| || !StartsWith(Trim(lines[next]), "|")
  }

  /** The loop of `HandleDataTableBlock` from row line `j` (already read) on.
      The first line that is not a row is left for the main loop: the result
      index points at it. */
  function TableRows(lines: seq<string>, j: nat, st: ParserState): (r: Result<(nat, ParserState), Failure>)
    requires j < |lines| && Consistent(st)
    ensures r.Ok? ==> j < r.value.0 <= |lines| && Consistent(r.value.1)
    ensures r.Ok? ==> RowsAfter(lines, j, r.value.0) && EndsTable(lines, r.value.0)
    ensures r.Ok? ==> r.value.1.fill == st.fill && r.value.1.pendingTags == st.pendingTags
    ensures r.Err? ==> j <= r.error.position < |lines| && !Numbered(r.error.kind)
    decreases |lines| - j
  {
    var next := TableRowStep(lines, j, st);
    if next.Err? then Err(next.error)
    else if j + 1 == |lines| then Ok((|lines|, next.value))
    else if StartsWith(Trim(lines[j + 1]), "|") then
      var rest := TableRows(lines, j + 1, Counted(next.value));
      RowsAfterCons(lines, j, if rest.Ok? then rest.value.0 else |lines|);
      rest
    else Ok((j + 1, Counted(next.value)))
  }

  // ---------------------------------------------------------------------------
  // The main loop

  /** What the line at `position` is, for the failures whose message names a
      line: an unsupported line is that line, trimmed, and no prefix test
      recognises it; a repeated header is a header of that kind; a malformed
      tag line is a tag line with a word that does not start with '@'. */
  predicate Explains(lines: seq<string>, kind: ErrorKind, position: nat)
    requires position < |lines|
  {
    var t := Trim(lines[position]);
    match kind
    case UnsupportedLine(text) => t == text && !Recognised(t)
    case MultipleFeatures => Classify(t) == FeatureHeader
    case MultipleBackgrounds => Classify(t) == BackgroundHeader
    case MalformedTagLine => Classify(t) == TagLine && !ValidTagLine(t)
    case _ => true
  }

  /** The handlers of the one-line kinds: everything but docstrings, tables
      and unsupported lines. */
  function HandleLine(t: string, st: ParserState, pos: nat): (r: Result<ParserState, Failure>)
    requires Consistent(st)
    requires Classify(t) !in {DocStringFence, TableRow, Unsupported}
    ensures r.Ok? ==> Consistent(r.value)
    ensures r.Err? ==> r.error.position == pos
    ensures r.Err? && r.error.kind == MultipleFeatures ==> Classify(t) == FeatureHeader
    ensures r.Err? && r.error.kind == MultipleBackgrounds ==> Classify(t) == BackgroundHeader
    ensures r.Err? && r.error.kind == MalformedTagLine ==> Classify(t) == TagLine && !ValidTagLine(t)
    ensures r.Err? ==> !r.error.kind.UnsupportedLine?
  {
    match Classify(t)
    case Skipped => Ok(st)
    case TagLine => HandleTagLine(t, st, pos)
    case FeatureHeader => HandleFeatureLine(t, st, pos)
    case BackgroundHeader => HandleBackgroundLine(st, pos)
    case ScenarioHeader => Ok(HandleScenarioLine(t, st))
    case GivenStep => Ok(HandleGivenLine(t, st))
    case WhenStep => HandleWhenLine(t, st, pos)
    case ThenStep => HandleThenLine(t, st, pos)
    case AndStep => Ok(HandleAndLine(t, st))
  }

  /** One turn of the loop of `Parse`: read line `i` and dispatch it. The
      result is the index of the next line to read and the new state. */
  function Step(lines: seq<string>, i: nat, st0: ParserState): (r: Result<(nat, ParserState), Failure>)
    requires i < |lines| && Consistent(st0)
    ensures r.Ok? ==> i < r.value.0 <= |lines| && Consistent(r.value.1)
    ensures r.Err? ==> i <= r.error.position < |lines| && Explains(lines, r.error.kind, r.error.position)
  {
    var st := Counted(st0);
    var t := Trim(lines[i]);
    var kind := Classify(t);
    if kind == DocStringFence then HandleDocStringsBlock(lines, i, st)
    else if kind == TableRow then TableRows(lines, i, st)
    else if kind == Unsupported then Err(Failure(UnsupportedLine(t), st.lineCount, i))
    else
      var res := HandleLine(t, st, i);
      if res.Err? then Err(res.error)
      else
        var s := res.value;
        var out: (nat, ParserState) := (i + 1, s);
        assert out.0 == i + 1 && out.1 == s && Consistent(out.1);
        Ok(out)
  }

  /** The loop of `Parse` from line `i` to the end of the input. */
  function Run(lines: seq<string>, i: nat, st: ParserState): (r: Result<ParserState, Failure>)
    requires i <= |lines| && Consistent(st)
    ensures r.Err? ==> i <= r.error.position < |lines| && Explains(lines, r.error.kind, r.error.position)
    decreases |lines| - i
  {
    if i == |lines| then Ok(st)
    else
      var next :- Step(lines, i, st);
      Run(lines, next.0, next.1)
  }

  /** An error as reported: its kind and a 1-based line number. */
  datatype ParseError = ParseError(kind: ErrorKind, line: nat)

  /** `Parse`: the document, or the first failure with the 1-based number of
      the line it is about. */
  function Parse(lines: seq<string>): (r: Result<Document, ParseError>)
    ensures r.Err? ==> 1 <= r.error.line <= |lines| && Explains(lines, r.error.kind, r.error.line - 1)
  {
    match Run(lines, 0, InitialState())
    case Ok(st) => Ok(st.doc)
    case Err(f) => Err(ParseError(f.kind, f.position + 1))
  }
}
