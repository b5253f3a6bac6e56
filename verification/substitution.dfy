/** Example substitution for scenario outlines: every `<key>` in an
    instruction's main line, docstrings and data-table cells is replaced by the
    key's value for one example case, column after column. */
module Substitution {
  import opened Text
  import opened Model

  /** The placeholder written in outline steps for column `key`. */
  function Token(key: string): (t: string)
    ensures |t| == |key| + 2 && t[0] == '<' && t[|t| - 1] == '>'
  {
    "<" + key + ">"
  }

  // ---------------------------------------------------------------------------
  // GherkinDataTable

  /** Two tables with the same shape and the same cells are equal. */
  lemma TablesEqual(r: DataTable, t: DataTable)
    requires |r| == |t|
    requires forall i :: 0 <= i < |t| ==> |r[i]| == |t[i]|
    requires forall i, j :: 0 <= i < |t| && 0 <= j < |t[i]| ==> r[i][j] == t[i][j]
    ensures r == t
  {
    forall i | 0 <= i < |t|
      ensures r[i] == t[i]
    {
    }
  }

  /** `GherkinDataTable.DeepClone`: a row-by-row copy. */
  function CloneTable(t: DataTable): (r: DataTable)
    ensures |r| == |t|
    ensures forall i :: 0 <= i < |t| ==> |r[i]| == |t[i]|
    ensures forall i, j :: 0 <= i < |t| && 0 <= j < |t[i]| ==> r[i][j] == t[i][j]
    ensures r == t
  {
    var r := seq(|t|, i requires 0 <= i < |t| => seq(|t[i]|, j requires 0 <= j < |t[i]| => t[i][j]));
    TablesEqual(r, t);
    r
  }

  /** `GherkinDataTable.ResolveExampleValueInNewObject`: a new table of the
      same shape whose cells have `<key>` replaced by `value`. */
  function ResolveTable(t: DataTable, key: string, value: string): (r: DataTable)
    ensures |r| == |t|
    ensures forall i :: 0 <= i < |t| ==> |r[i]| == |t[i]|
    ensures forall i, j :: 0 <= i < |t| && 0 <= j < |t[i]| ==>
      r[i][j] == ReplaceAll(t[i][j], Token(key), value)
    ensures forall i, j :: 0 <= i < |t| && 0 <= j < |t[i]| && !Occurs(t[i][j], Token(key)) ==>
      r[i][j] == t[i][j]
  {
    seq(|t|, i requires 0 <= i < |t| =>
      seq(|t[i]|, j requires 0 <= j < |t[i]| => ReplaceAll(t[i][j], Token(key), value)))
  }

  /** A table none of whose cells holds the placeholder comes back unchanged. */
  lemma ResolveTablePassthrough(t: DataTable, key: string, value: string)
    requires forall i, j :: 0 <= i < |t| && 0 <= j < |t[i]| ==> !Occurs(t[i][j], Token(key))
    ensures ResolveTable(t, key, value) == t
  {
    TablesEqual(ResolveTable(t, key, value), t);
  }

  // ---------------------------------------------------------------------------
  // Instruction

  /** Every column has a value for example case `n`. */
  predicate CaseInRange(examples: Examples, n: nat) {
    forall k :: 0 <= k < |examples| ==> n < |examples[k].1|
  }

  /** The reference meaning of substitution on one text: replace each column's
      placeholder by its `n`-th value, in column order. */
  function ResolveText(s: string, examples: Examples, n: nat): (r: string)
    requires CaseInRange(examples, n)
    ensures (forall k :: 0 <= k < |examples| ==> !Occurs(s, Token(examples[k].0))) ==> r == s
    decreases |examples|
  {
    if |examples| == 0 then s
    else ResolveText(ReplaceAll(s, Token(examples[0].0), examples[0].1[n]), examples[1..], n)
  }

  /** The same substitution applied to every cell of a table. */
  function ResolveTableText(t: DataTable, examples: Examples, n: nat): (r: DataTable)
    requires CaseInRange(examples, n)
  {
    seq(|t|, i requires 0 <= i < |t| =>
      seq(|t[i]|, j requires 0 <= j < |t[i]| => ResolveText(t[i][j], examples, n)))
  }

  /** `Instruction.DeepClone`. */
  function CloneInstruction(ins: Instruction): (r: Instruction)
    ensures r.mainLine == ins.mainLine
    ensures r.docStrings == ins.docStrings
    ensures r.dataTable == ins.dataTable
  {
    Instruction(ins.mainLine, ins.docStrings[..], CloneTable(ins.dataTable))
  }

  /** One iteration of `Instruction.ResolveExampleValue`: column `key` applied
      to the main line, to each docstring and to the table. */
  function ResolveColumn(ins: Instruction, key: string, value: string): Instruction
  {
    Instruction(
      ReplaceAll(ins.mainLine, Token(key), value),
      seq(|ins.docStrings|, i requires 0 <= i < |ins.docStrings| =>
        ReplaceAll(ins.docStrings[i], Token(key), value)),
      ResolveTable(ins.dataTable, key, value))
  }

  /** `Instruction.ResolveExampleValue`: the loop over the example columns.
      The shape of the instruction is kept, and a main line that mentions no
      column is left alone. */
  function ResolveColumns(ins: Instruction, examples: Examples, n: nat): (r: Instruction)
    requires CaseInRange(examples, n)
    ensures |r.docStrings| == |ins.docStrings| && |r.dataTable| == |ins.dataTable|
    ensures forall i :: 0 <= i < |ins.dataTable| ==> |r.dataTable[i]| == |ins.dataTable[i]|
    ensures (forall k :: 0 <= k < |examples| ==> !Occurs(ins.mainLine, Token(examples[k].0))) ==>
      r.mainLine == ins.mainLine
    decreases |examples|
  {
    if |examples| == 0 then ins
    else ResolveColumns(ResolveColumn(ins, examples[0].0, examples[0].1[n]), examples[1..], n)
  }

  /** Substituting all three parts of an instruction together, column by
      column, is the same as substituting each text on its own. */
  lemma {:induction false} ResolveColumnsComponentwise(ins: Instruction, examples: Examples, n: nat)
    requires CaseInRange(examples, n)
    ensures ResolveColumns(ins, examples, n).mainLine == ResolveText(ins.mainLine, examples, n)
    ensures ResolveColumns(ins, examples, n).docStrings ==
      seq(|ins.docStrings|, i requires 0 <= i < |ins.docStrings| =>
        ResolveText(ins.docStrings[i], examples, n))
    ensures ResolveColumns(ins, examples, n).dataTable == ResolveTableText(ins.dataTable, examples, n)
    decreases |examples|
  {
    if |examples| > 0 {
      var key := examples[0].0;
      var v := examples[0].1[n];
      var tok := Token(key);
      var next := ResolveColumn(ins, key, v);
      ResolveColumnsComponentwise(next, examples[1..], n);
      assert ResolveColumns(ins, examples, n) == ResolveColumns(next, examples[1..], n);
      var ds := ins.docStrings;
      var dl := seq(|ds|, i requires 0 <= i < |ds| => ResolveText(ds[i], examples, n));
      var dr := seq(|ds|, i requires 0 <= i < |ds| => ResolveText(next.docStrings[i], examples[1..], n));
      assert dl == dr;
      var t := ins.dataTable;
      var lhs := ResolveTableText(t, examples, n);
      var rhs := ResolveTableText(next.dataTable, examples[1..], n);
      forall i, j | 0 <= i < |t| && 0 <= j < |t[i]|
        ensures lhs[i][j] == rhs[i][j]
      {
        assert next.dataTable[i][j] == ReplaceAll(t[i][j], tok, v);
      }
      TablesEqual(lhs, rhs);
      assert ResolveColumns(ins, examples, n).mainLine == ResolveText(ins.mainLine, examples, n);
      assert ResolveColumns(ins, examples, n).docStrings == dl;
      assert ResolveColumns(ins, examples, n).dataTable == lhs;
    } else {
      var ds := ins.docStrings;
      assert ds == seq(|ds|, i requires 0 <= i < |ds| => ResolveText(ds[i], examples, n));
      TablesEqual(ins.dataTable, ResolveTableText(ins.dataTable, examples, n));
    }
  }

  /** `Instruction.ResolveExampleValueInNewObject`: a substituted copy. The
      number of docstrings and the table shape are kept, and every text is
      substituted as `ResolveText` says. */
  function ResolveExampleValueInNewObject(ins: Instruction, examples: Examples, n: nat): (r: Instruction)
    requires CaseInRange(examples, n)
    ensures r.mainLine == ResolveText(ins.mainLine, examples, n)
    ensures |r.docStrings| == |ins.docStrings|
    ensures forall i :: 0 <= i < |ins.docStrings| ==>
      r.docStrings[i] == ResolveText(ins.docStrings[i], examples, n)
    ensures |r.dataTable| == |ins.dataTable|
    ensures forall i :: 0 <= i < |ins.dataTable| ==> |r.dataTable[i]| == |ins.dataTable[i]|
    ensures forall i, j :: 0 <= i < |ins.dataTable| && 0 <= j < |ins.dataTable[i]| ==>
      r.dataTable[i][j] == ResolveText(ins.dataTable[i][j], examples, n)
  {
    var clone := CloneInstruction(ins);
    ResolveColumnsComponentwise(clone, examples, n);
    ResolveColumns(clone, examples, n)
  }

  /** An instruction without any placeholder of the example columns is
      returned unchanged. */
  lemma ResolvePassthrough(ins: Instruction, examples: Examples, n: nat)
    requires CaseInRange(examples, n)
    requires forall k :: 0 <= k < |examples| ==> !Occurs(ins.mainLine, Token(examples[k].0))
    requires forall i, k :: 0 <= i < |ins.docStrings| && 0 <= k < |examples| ==>
      !Occurs(ins.docStrings[i], Token(examples[k].0))
    requires forall i, j, k :: 0 <= i < |ins.dataTable| && 0 <= j < |ins.dataTable[i]| && 0 <= k < |examples| ==>
      !Occurs(ins.dataTable[i][j], Token(examples[k].0))
    ensures ResolveExampleValueInNewObject(ins, examples, n) == ins
  {
    var r := ResolveExampleValueInNewObject(ins, examples, n);
    assert r.docStrings == ins.docStrings;
    TablesEqual(r.dataTable, ins.dataTable);
  }

  /** A character that cannot start the pattern is copied through. */
  lemma ReplaceSkipsChar(c: char, rest: string, pat: string, rep: string)
    requires |pat| > 0 && pat[0] != c
    ensures ReplaceAll([c] + rest, pat, rep) == [c] + ReplaceAll(rest, pat, rep)
  {
    var s := [c] + rest;
    assert s[1..] == rest;
    if |pat| <= |s| {
      assert s[..|pat|][0] != pat[0];
    }
  }

  /** Text none of whose characters can start the pattern is copied through. */
  lemma {:induction false} ReplaceSkipsText(a: string, rest: string, pat: string, rep: string)
    requires |pat| > 0 && pat[0] !in a
    ensures ReplaceAll(a + rest, pat, rep) == a + ReplaceAll(rest, pat, rep)
    decreases |a|
  {
    if |a| > 0 {
      var tail := a[1..] + rest;
      assert a + rest == [a[0]] + tail;
      assert a[0] in a && pat[0] !in a[1..];
      ReplaceSkipsChar(a[0], tail, pat, rep);
      ReplaceSkipsText(a[1..], rest, pat, rep);
      var r := ReplaceAll(rest, pat, rep);
      assert ReplaceAll(a + rest, pat, rep) == [a[0]] + (a[1..] + r);
      assert [a[0]] + (a[1..] + r) == ([a[0]] + a[1..]) + r;
      assert [a[0]] + a[1..] == a;
    } else {
      assert a + rest == rest;
    }
  }

  /** Two adjacent placeholders, the longer first, replaced one after the
      other: the two values end up side by side. */
  lemma AdjacentTokens(p: string, q: string, a: string, b: string)
    requires 0 < |q| < |p| && q[0] !in a
    ensures ReplaceAll(ReplaceAll(p + q, p, a), q, b) == a + b
  {
    ReplaceSkipsInsertedText(p, a, q);
    ReplaceSkipsText(a, q, q, b);
    ReplaceSkipsInsertedText(q, b, []);
    assert q + [] == q;
  }

  /** Adjacent placeholders are each replaced, column after column: with the
      first example row of the outline tests, `<start><eat>` becomes `125`. */
  lemma AdjacentTokensExample(s: string, examples: Examples)
    requires s == "<start><eat>"
    requires examples == [("start", ["12"]), ("eat", ["5"]), ("left", ["7"])]
    ensures CaseInRange(examples, 0) && ResolveText(s, examples, 0) == "125"
  {
    var start, eat := Token(examples[0].0), Token(examples[1].0);
    assert s == start + eat;
    AdjacentTokens(start, eat, "12", "5");
    var s1 := ReplaceAll(s, start, "12");
    var s2 := ReplaceAll(s1, eat, "5");
    assert s2 == "125";
    assert ResolveText(s, examples, 0) == ResolveText(s1, examples[1..], 0);
    assert ResolveText(s1, examples[1..], 0) == ResolveText(s2, examples[2..], 0);
  }
}
