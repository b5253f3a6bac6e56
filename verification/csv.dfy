/** `CSVConverter`: one header line, an optional background line, then two
    lines per scenario (number and name, then the Given/When/Then columns). */
module Csv {
  import opened Text
  import opened Model

  const Header: string := "Number;GIVEN;WHEN;THEN"
  const BackgroundPrefix: string := ";GENERAL PREREQUISITES:"

  /** `" \"" + text + "\""`: a block appended after an instruction's main line. */
  function Quoted(text: string): string {
    " \"" + text + "\""
  }

  /** All cells of a table in row-major order. */
  function Cells(t: DataTable): (r: seq<string>)
    ensures t == [] ==> r == []
    decreases |t|
  {
    if |t| == 0 then [] else t[0] + Cells(t[1..])
  }

  /** The text of one instruction inside `BuildInstructionBatchLine`: the main
      line, then the quoted docstrings, then the quoted table cells. */
  function Render(ins: Instruction): (r: string)
    ensures |ins.mainLine| <= |r| && r[..|ins.mainLine|] == ins.mainLine
    ensures ins.docStrings == [] && ins.dataTable == [] ==> r == ins.mainLine
  {
    var docs := if |ins.docStrings| > 0 then Quoted(Join(ins.docStrings, " ")) else "";
    var table := if |ins.dataTable| > 0 then Quoted(Join(Cells(ins.dataTable), " ")) else "";
    ins.mainLine + docs + table
  }

  /** An instruction's text starts with its main line, and is exactly the
      main line when it has neither docstrings nor table. */
  lemma RenderExtendsMainLine(ins: Instruction)
    ensures StartsWith(Render(ins), ins.mainLine)
    ensures Render(ins) == ins.mainLine <==> ins.docStrings == [] && ins.dataTable == []
  {
    var docs := if |ins.docStrings| > 0 then Quoted(Join(ins.docStrings, " ")) else "";
    var table := if |ins.dataTable| > 0 then Quoted(Join(Cells(ins.dataTable), " ")) else "";
    assert Render(ins) == ins.mainLine + (docs + table);
    assert Render(ins)[..|ins.mainLine|] == ins.mainLine;
    if ins.docStrings != [] || ins.dataTable != [] {
      assert |docs + table| > 0;
    }
  }

  lemma JoinTwo(a: string, b: string, sep: string)
    ensures Join([a, b], sep) == a + sep + b
  {
    assert [a, b][1..] == [b];
  }

  lemma JoinThree(a: string, b: string, c: string, sep: string)
    ensures Join([a, b, c], sep) == a + sep + b + sep + c
  {
    assert [a, b, c][1..] == [b, c];
    JoinTwo(b, c, sep);
    assert Join([a, b, c], sep) == a + sep + (b + sep + c);
  }

  lemma JoinFive(a: string, b: string, c: string, d: string, e: string, sep: string)
    ensures Join([a, b, c, d, e], sep) == a + sep + b + sep + c + sep + d + sep + e
  {
    assert [a, b, c, d, e][1..] == [b, c, d, e];
    assert [b, c, d, e][1..] == [c, d, e];
    JoinThree(c, d, e, sep);
    assert Join([a, b, c, d, e], sep) == a + sep + (b + sep + (c + sep + d + sep + e));
  }

  /** No '"' in the main line, the docstrings or the table cells. */
  predicate QuoteFree(ins: Instruction) {
    && '"' !in ins.mainLine
    && (forall k :: 0 <= k < |ins.docStrings| ==> '"' !in ins.docStrings[k])
    && (forall k :: 0 <= k < |Cells(ins.dataTable)| ==> '"' !in Cells(ins.dataTable)[k])
  }

  /** The '"'-separated fields of an instruction's text, as a reader of the
      export sees them: the main line alone, or the main line and a space,
      the docstrings joined by spaces when there are any, a space between
      two blocks, the cells in row-major order joined by spaces when there
      is a table, and the empty text after the closing quote. */
  function QuoteFields(ins: Instruction): (r: seq<string>)
    ensures |r| > 0
  {
    var d := Join(ins.docStrings, " ");
    var c := Join(Cells(ins.dataTable), " ");
    if ins.docStrings == [] && ins.dataTable == [] then [ins.mainLine]
    else if ins.dataTable == [] then [ins.mainLine + " ", d, ""]
    else if ins.docStrings == [] then [ins.mainLine + " ", c, ""]
    else [ins.mainLine + " ", d, " ", c, ""]
  }

  lemma QuoteFieldsFree(ins: Instruction)
    requires QuoteFree(ins)
    ensures forall k :: 0 <= k < |QuoteFields(ins)| ==> '"' !in QuoteFields(ins)[k]
  {
    JoinAbsent(ins.docStrings, " ", '"');
    JoinAbsent(Cells(ins.dataTable), " ", '"');
  }

  lemma OneQuotedBlock(m: string, x: string)
    ensures m + Quoted(x) == Join([m + " ", x, ""], "\"")
  {
    var q := "\"";
    JoinThree(m + " ", x, "", q);
    assert " \"" == " " + q;
    assert m + Quoted(x) == (m + " ") + q + x + q + "";
  }

  lemma TwoQuotedBlocks(m: string, x: string, y: string)
    ensures m + Quoted(x) + Quoted(y) == Join([m + " ", x, " ", y, ""], "\"")
  {
    var q := "\"";
    JoinFive(m + " ", x, " ", y, "", q);
    assert " \"" == " " + q;
    assert m + Quoted(x) == (m + " ") + q + x + q;
    assert m + Quoted(x) + Quoted(y) == (m + " ") + q + x + q + " " + q + y + q + "";
  }

  lemma RenderJoinsQuoteFields(ins: Instruction)
    ensures Render(ins) == Join(QuoteFields(ins), "\"")
  {
    var m, d, c := ins.mainLine, Join(ins.docStrings, " "), Join(Cells(ins.dataTable), " ");
    if ins.docStrings != [] && ins.dataTable == [] {
      assert Render(ins) == m + Quoted(d) + "";
      OneQuotedBlock(m, d);
    } else if ins.docStrings == [] && ins.dataTable != [] {
      assert Render(ins) == m + "" + Quoted(c);
      OneQuotedBlock(m, c);
    } else if ins.docStrings != [] {
      assert Render(ins) == m + Quoted(d) + Quoted(c);
      TwoQuotedBlocks(m, d, c);
    } else {
      assert Render(ins) == m;
      assert Join([m], "\"") == m;
    }
  }

  /** Read back on '"', an instruction's text gives its quote fields: the
      docstring block comes before the table block, each is there only when
      its part is non-empty, and each joins its texts with single spaces. */
  lemma RenderQuotedFields(ins: Instruction)
    requires QuoteFree(ins)
    ensures Split(Render(ins), '"') == QuoteFields(ins)
  {
    RenderJoinsQuoteFields(ins);
    QuoteFieldsFree(ins);
    SplitJoin(QuoteFields(ins), '"');
  }

  /** The quoted docstring block splits back on spaces into the docstrings
      when none of them holds a space. */
  lemma RenderDocStringsReadBack(ins: Instruction)
    requires QuoteFree(ins) && ins.docStrings != []
    requires forall k :: 0 <= k < |ins.docStrings| ==> ' ' !in ins.docStrings[k]
    ensures |Split(Render(ins), '"')| >= 3
    ensures Split(Split(Render(ins), '"')[1], ' ') == ins.docStrings
  {
    RenderQuotedFields(ins);
    assert QuoteFields(ins)[1] == Join(ins.docStrings, " ");
    SplitJoin(ins.docStrings, ' ');
  }

  /** The quoted table block, the second-to-last field, splits back on spaces
      into the cells in row-major order when none of them holds a space. */
  lemma RenderCellsReadBack(ins: Instruction)
    requires QuoteFree(ins) && Cells(ins.dataTable) != []
    requires forall k :: 0 <= k < |Cells(ins.dataTable)| ==> ' ' !in Cells(ins.dataTable)[k]
    ensures |Split(Render(ins), '"')| >= 3
    ensures Split(Split(Render(ins), '"')[|Split(Render(ins), '"')| - 2], ' ') == Cells(ins.dataTable)
  {
    RenderQuotedFields(ins);
    var f := QuoteFields(ins);
    assert ins.dataTable != [];
    assert f[|f| - 2] == Join(Cells(ins.dataTable), " ");
    SplitJoin(Cells(ins.dataTable), ' ');
  }

  /** An instruction with two docstrings and no table: one quoted block, the
      docstrings separated by a space. */
  lemma TwoDocStringsRender(m: string, d1: string, d2: string)
    ensures Render(Instruction(m, [d1, d2], [])) == m + " \"" + d1 + " " + d2 + "\""
  {
    JoinTwo(d1, d2, " ");
  }

  /** A batch of two instructions: their texts around the separator. */
  lemma BatchOfTwo(separator: string, a: Instruction, b: Instruction)
    ensures BatchLine(separator, [a, b]) == Render(a) + separator + Render(b)
  {
    assert RenderAll([a, b]) == [Render(a), Render(b)];
    JoinTwo(Render(a), Render(b), separator);
  }

  /** A two-docstring instruction followed by a plain one. */
  lemma DocStringThenPlain(separator: string, m1: string, d1: string, d2: string, m2: string)
    ensures BatchLine(separator, [Instruction(m1, [d1, d2], []), Instruction(m2, [], [])]) ==
      m1 + Quoted(d1 + " " + d2) + separator + m2
  {
    TwoDocStringsRender(m1, d1, d2);
    BatchOfTwo(separator, Instruction(m1, [d1, d2], []), Instruction(m2, [], []));
  }

  // The steps of the test's expected text, kept apart so that each literal
  // comparison stays small.
  lemma ExampleDocStrings(d1: string, d2: string)
    requires d1 == "docstrings1" && d2 == "docstrings2"
    ensures d1 + " " + d2 == "docstrings1 docstrings2"
  {
  }

  lemma ExampleDocBlock(inner: string)
    requires inner == "docstrings1 docstrings2"
    ensures Quoted(inner) == " \"docstrings1 docstrings2\""
  {
  }

  lemma ExampleFirstGiven(m1: string, block: string)
    requires m1 == "Prerequisite_1.1" && block == " \"docstrings1 docstrings2\""
    ensures m1 + block == "Prerequisite_1.1 \"docstrings1 docstrings2\""
  {
  }

  lemma ExampleGivenColumn(first: string, separator: string, m2: string)
    requires first == "Prerequisite_1.1 \"docstrings1 docstrings2\""
    requires separator == "|" && m2 == "Prere\"q\"uisite_1.2"
    ensures first + separator + m2 == "Prerequisite_1.1 \"docstrings1 docstrings2\"|Prere\"q\"uisite_1.2"
  {
  }

  /** The Given column of the export test with docstrings: the first Given
      carries its two docstrings in one quoted block. */
  lemma DocStringBatchExample(separator: string, m1: string, d1: string, d2: string, m2: string, expected: string)
    requires separator == "|" && m1 == "Prerequisite_1.1" && m2 == "Prere\"q\"uisite_1.2"
    requires d1 == "docstrings1" && d2 == "docstrings2"
    requires expected == "Prerequisite_1.1 \"docstrings1 docstrings2\"|Prere\"q\"uisite_1.2"
    ensures BatchLine(separator, [Instruction(m1, [d1, d2], []), Instruction(m2, [], [])]) == expected
  {
    DocStringThenPlain(separator, m1, d1, d2, m2);
    var inner := d1 + " " + d2;
    ExampleDocStrings(d1, d2);
    var block := Quoted(inner);
    ExampleDocBlock(inner);
    ExampleFirstGiven(m1, block);
    ExampleGivenColumn(m1 + block, separator, m2);
  }

  function RenderAll(list: seq<Instruction>): (r: seq<string>)
    ensures |r| == |list|
    ensures forall i :: 0 <= i < |list| ==> r[i] == Render(list[i])
  {
    seq(|list|, i requires 0 <= i < |list| => Render(list[i]))
  }

  /** `BuildInstructionBatchLine`: the rendered instructions joined by the
      separator. */
  function BatchLine(separator: string, list: seq<Instruction>): (r: string)
    ensures |list| > 0 ==> StartsWith(r, Render(list[0]))
  {
    var rendered := RenderAll(list);
    assert |rendered| > 1 ==>
      Join(rendered, separator) == rendered[0] + (separator + Join(rendered[1..], separator));
    Join(rendered, separator)
  }

  /** An empty list gives the empty text, a single instruction its own text. */
  lemma BatchLineShort(separator: string, list: seq<Instruction>)
    ensures list == [] ==> BatchLine(separator, list) == ""
    ensures |list| == 1 ==> BatchLine(separator, list) == Render(list[0])
  {
    if |list| == 1 {
      assert RenderAll(list) == [Render(list[0])];
    }
  }

  /** With a one-character separator that no rendered instruction contains,
      the batch splits back into the rendered instructions. */
  lemma BatchLineSplits(c: char, list: seq<Instruction>)
    requires |list| > 0
    requires forall i :: 0 <= i < |list| ==> c !in Render(list[i])
    ensures Split(BatchLine([c], list), c) == RenderAll(list)
  {
    SplitJoin(RenderAll(list), c);
  }

  function ScenarioTitleLine(number: nat, s: Scenario): string {
    NatToString(number) + ";" + s.name + ";;"
  }

  function ScenarioStepsLine(separator: string, s: Scenario): string {
    ";" + BatchLine(separator, s.givens) + ";" + BatchLine(separator, s.whens)
      + ";" + BatchLine(separator, s.thens)
  }

  /** `[a0, b0, a1, b1, ...]`. */
  function Interleave<T>(a: seq<T>, b: seq<T>): (r: seq<T>)
    requires |a| == |b|
    ensures |r| == 2 * |a|
    decreases |a|
  {
    if |a| == 0 then [] else [a[0], b[0]] + Interleave(a[1..], b[1..])
  }

  lemma PairShift<T>(x: T, y: T, rest: seq<T>, j: nat)
    requires 2 * j + 1 < |rest|
    ensures ([x, y] + rest)[2 * (j + 1)] == rest[2 * j]
    ensures ([x, y] + rest)[2 * (j + 1) + 1] == rest[2 * j + 1]
  {
  }

  /** Entry `k` of each list sits at positions `2k` and `2k + 1`. */
  lemma {:induction false} InterleaveAt<T>(a: seq<T>, b: seq<T>, k: nat)
    requires |a| == |b| && k < |a|
    ensures Interleave(a, b)[2 * k] == a[k] && Interleave(a, b)[2 * k + 1] == b[k]
    decreases k
  {
    if k > 0 {
      InterleaveAt(a[1..], b[1..], k - 1);
      PairShift(a[0], b[0], Interleave(a[1..], b[1..]), k - 1);
    }
  }

  /** After a block of `n` lines, entry `k` of each list sits at lines
      `n + 2k` and `n + 2k + 1`. */
  lemma InterleaveAfter<T>(head: seq<T>, a: seq<T>, b: seq<T>, n: nat, k: nat)
    requires |a| == |b| && k < |a| && n == |head|
    ensures (head + Interleave(a, b))[n + 2 * k] == a[k]
    ensures (head + Interleave(a, b))[n + 2 * k + 1] == b[k]
  {
    InterleaveAt(a, b, k);
  }

  function Titles(scenarios: seq<Scenario>): (r: seq<string>)
    ensures |r| == |scenarios|
    ensures forall k :: 0 <= k < |scenarios| ==> r[k] == ScenarioTitleLine(k + 1, scenarios[k])
  {
    seq(|scenarios|, k requires 0 <= k < |scenarios| => ScenarioTitleLine(k + 1, scenarios[k]))
  }

  function StepsLines(separator: string, scenarios: seq<Scenario>): (r: seq<string>)
    ensures |r| == |scenarios|
    ensures forall k :: 0 <= k < |scenarios| ==> r[k] == ScenarioStepsLine(separator, scenarios[k])
  {
    seq(|scenarios|, k requires 0 <= k < |scenarios| => ScenarioStepsLine(separator, scenarios[k]))
  }

  /** The scenario loop of `ExportAsCSV`: for the scenario numbered `k + 1`,
      its title line and then its steps line. */
  function ScenarioLines(separator: string, scenarios: seq<Scenario>): (r: seq<string>)
    ensures |r| == 2 * |scenarios|
  {
    Interleave(Titles(scenarios), StepsLines(separator, scenarios))
  }

  /** Index of the first scenario line: after the header and the optional
      background line. */
  function FirstScenarioLine(doc: Document): nat {
    if |doc.background.givens| > 0 then 2 else 1
  }

  lemma IndexAfter<T>(p: seq<T>, q: seq<T>, i: nat)
    requires i < |q|
    ensures (p + q)[|p| + i] == q[i]
  {
  }

  /** The background line: the Given steps under the general prerequisites. */
  function BackgroundLine(separator: string, doc: Document): string {
    BackgroundPrefix + separator + BatchLine(separator, doc.background.givens) + ";;"
  }

  /** The header, then the background line when the background has Given steps. */
  function HeadLines(separator: string, doc: Document): (r: seq<string>)
    ensures |r| == FirstScenarioLine(doc) && r[0] == Header
    ensures |doc.background.givens| > 0 ==> r[1] == BackgroundLine(separator, doc)
  {
    if |doc.background.givens| > 0 then [Header, BackgroundLine(separator, doc)] else [Header]
  }

  /** `ExportAsCSV`. */
  function ExportAsCsv(separator: string, doc: Document): (r: seq<string>)
    ensures |r| == FirstScenarioLine(doc) + 2 * |doc.scenarios|
    ensures r[0] == Header
    ensures |doc.background.givens| > 0 ==> r[1] == BackgroundLine(separator, doc)
  {
    HeadLines(separator, doc) + ScenarioLines(separator, doc.scenarios)
  }

  /** Scenario `k` (0-based) gets the two lines after the header block: its
      title line numbered `k + 1`, then its steps line. */
  lemma ExportedScenarioLines(separator: string, doc: Document, k: nat)
    requires k < |doc.scenarios|
    ensures ExportAsCsv(separator, doc)[FirstScenarioLine(doc) + 2 * k] == ScenarioTitleLine(k + 1, doc.scenarios[k])
    ensures ExportAsCsv(separator, doc)[FirstScenarioLine(doc) + 2 * k + 1] == ScenarioStepsLine(separator, doc.scenarios[k])
  {
    var head := HeadLines(separator, doc);
    InterleaveAfter(head, Titles(doc.scenarios), StepsLines(separator, doc.scenarios), FirstScenarioLine(doc), k);
  }

  /** The second line is the background line exactly when the background
      has Given steps. */
  lemma BackgroundLinePresent(separator: string, doc: Document)
    ensures |doc.background.givens| > 0 <==>
      (|ExportAsCsv(separator, doc)| > 1 && StartsWith(ExportAsCsv(separator, doc)[1], BackgroundPrefix))
  {
    var r := ExportAsCsv(separator, doc);
    if |doc.background.givens| > 0 {
      var line := BackgroundLine(separator, doc);
      assert line[..|BackgroundPrefix|] == BackgroundPrefix;
    } else if |r| > 1 {
      ExportedScenarioLines(separator, doc, 0);
      assert r[1] == ScenarioTitleLine(1, doc.scenarios[0]);
      assert r[1][0] == NatToString(1)[0];
      assert r[1][0] != BackgroundPrefix[0];
    }
  }

  /** The number written at the head of a scenario's title line reads back
      as its 1-based position. */
  lemma ScenarioNumberReadsBack(separator: string, doc: Document, k: nat)
    requires k < |doc.scenarios|
    ensures var line := ExportAsCsv(separator, doc)[FirstScenarioLine(doc) + 2 * k];
      var head := Split(line, ';')[0];
      AllDigits(head) && ParseNat(head) == k + 1
  {
    var digits := NatToString(k + 1);
    var line := ScenarioTitleLine(k + 1, doc.scenarios[k]);
    ExportedScenarioLines(separator, doc, k);
    assert ';' !in digits by {
      forall i | 0 <= i < |digits|
        ensures digits[i] != ';'
      {
        assert IsDigit(digits[i]);
      }
    }
    assert line == digits + [';'] + (doc.scenarios[k].name + ";;");
    SplitAround(digits, ';', doc.scenarios[k].name + ";;");
    assert Split(digits, ';') == [digits];
    ParseNatToString(k + 1);
  }

  /** A steps line regrouped as an empty field, ';', and the rest. */
  lemma Regroup(g: string, w: string, t: string)
    ensures ";" + g + ";" + w + ";" + t == [] + [';'] + (g + [';'] + (w + [';'] + t))
  {
  }

  lemma FourItems<T>(a: T, b: T, c: T, d: T)
    ensures [a] + ([b] + [c, d]) == [a, b, c, d]
  {
  }

  /** Three ';'-free fields after a leading ';' split into an empty field and
      the three fields. */
  lemma ColumnsSplit(g: string, w: string, t: string)
    requires ';' !in g && ';' !in w && ';' !in t
    ensures Split(";" + g + ";" + w + ";" + t, ';') == ["", g, w, t]
  {
    var wt := w + [';'] + t;
    var gwt := g + [';'] + wt;
    var e: string := [];
    SplitNone(t, ';');
    SplitAroundPlain(w, ';', t);
    assert Split(wt, ';') == [w, t];
    SplitAroundPlain(g, ';', wt);
    SplitAroundPlain(e, ';', gwt);
    Regroup(g, w, t);
    FourItems(e, g, w, t);
  }

  /** When no column text contains ';', a scenario's steps line splits back
      into an empty first field and its Given, When and Then columns. */
  lemma StepsLineSplits(separator: string, s: Scenario)
    requires ';' !in BatchLine(separator, s.givens)
    requires ';' !in BatchLine(separator, s.whens)
    requires ';' !in BatchLine(separator, s.thens)
    ensures Split(ScenarioStepsLine(separator, s), ';') ==
      ["", BatchLine(separator, s.givens), BatchLine(separator, s.whens), BatchLine(separator, s.thens)]
  {
    ColumnsSplit(BatchLine(separator, s.givens), BatchLine(separator, s.whens), BatchLine(separator, s.thens));
  }
}
