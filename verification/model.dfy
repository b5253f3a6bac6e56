/** The parsed document tree: a feature with its background and scenarios,
    each holding Given/When/Then instructions with docstrings and data tables. */
module Model {

  /** `GherkinDataTable`: rows of cells. */
  type DataTable = seq<seq<string>>

  /** One Given/When/Then/And step: the text after the keyword, the docstring
      lines attached to it and its data table. */
  datatype Instruction = Instruction(mainLine: string, docStrings: seq<string>, dataTable: DataTable)

  /** `new Instruction(mainLine)`: no docstrings, empty table. */
  function NewInstruction(mainLine: string): Instruction {
    Instruction(mainLine, [], [])
  }

  datatype Background = Background(givens: seq<Instruction>)

  /** The Examples of an outline: column name to the column's values, in
      column order. */
  type Examples = seq<(string, seq<string>)>

  /** A scenario. The parser writes the single `when` text; the outline
      expander and the CSV export work on the `whens` instruction list. */
  datatype Scenario = Scenario(
    name: string,
    givens: seq<Instruction>,
    when: string,
    whens: seq<Instruction>,
    thens: seq<Instruction>,
    tags: seq<string>,
    isOutline: bool,
    examples: Examples)

  /** `new Scenario { Name = name }` with the tags the parser assigns. */
  function NewScenario(name: string, tags: seq<string>): Scenario {
    Scenario(name, [], "", [], [], tags, false, [])
  }

  /** `GherkinObject`: one parsed feature file. */
  datatype Document = Document(
    featureName: string,
    featureTags: seq<string>,
    background: Background,
    scenarios: seq<Scenario>)

  function EmptyDocument(): Document {
    Document("", [], Background([]), [])
  }
}
