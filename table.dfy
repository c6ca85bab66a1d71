/**
 * The spreadsheet as the flowchart builders receive it: the header row, checked for
 * the five required columns, and the rows already grouped by (source activity,
 * procedure), each with its start flag and its list of destinations.
 */
module Table {
  import opened Wrappers
  import Text

  /** The columns both builders require, in the order they are checked. */
  const RequiredColumns: seq<string> := [
    "NOME PROCESSO",
    "ATIVIDADE IN\U{CD}CIO",
    "ATIVIDADE ORIGEM",
    "PROCEDIMENTO",
    "ATIVIDADE DESTINO"
  ]

  /** The error raised when a required column is absent; it names that column. */
  datatype MissingColumn = MissingColumn(column: string)

  /** The text of the error raised for a missing column. */
  function Message(e: MissingColumn): (m: string)
    ensures |m| >= |e.column| && m[|m| - |e.column|..] == e.column
  {
    "\U{274C} Coluna obrigat\U{F3}ria ausente no Excel: " + e.column
  }

  /** Two missing-column errors with the same text name the same column. */
  lemma MessageIdentifiesColumn(e1: MissingColumn, e2: MissingColumn)
    requires Message(e1) == Message(e2)
    ensures e1 == e2
  {
    var m := Message(e1);
    assert e1.column == m[|m| - |e1.column|..];
    assert |e1.column| == |e2.column|;
  }

  /**
   * The first entry of `required` that is not among `columns`, if any: the loop that
   * raises on the first required column missing from the sheet's header.
   */
  function FirstMissing(required: seq<string>, columns: seq<string>): (r: Option<string>)
    ensures r.None? <==> forall i :: 0 <= i < |required| ==> required[i] in columns
    ensures r.Some? ==> exists i :: (0 <= i < |required| && required[i] == r.value
      && r.value !in columns && forall j :: 0 <= j < i ==> required[j] in columns)
  {
    if required == [] then None
    else if required[0] !in columns then Some(required[0])
    else
      var rest := FirstMissing(required[1..], columns);
      assert forall i :: 1 <= i < |required| ==> required[i] == required[1..][i - 1];
      rest
  }

  /** The required-column check: success, or the error naming the first missing column. */
  function CheckColumns(columns: seq<string>): Result<(), MissingColumn> {
    match FirstMissing(RequiredColumns, columns)
    case None => Success(())
    case Some(c) => Failure(MissingColumn(c))
  }

  /** `c` is the first entry of `RequiredColumns` that `columns` lacks. */
  ghost predicate IsFirstMissing(columns: seq<string>, c: string) {
    exists i :: 0 <= i < |RequiredColumns| && RequiredColumns[i] == c && c !in columns
      && forall j :: 0 <= j < i ==> RequiredColumns[j] in columns
  }

  /**
   * The check fails exactly when some required column is absent, and then it names
   * the first absent one in the order of `RequiredColumns`.
   */
  lemma CheckColumnsSpec(columns: seq<string>)
    ensures CheckColumns(columns).Success? <==> forall c :: c in RequiredColumns ==> c in columns
    ensures CheckColumns(columns).Failure? ==> IsFirstMissing(columns, CheckColumns(columns).error.column)
  {
    var r := FirstMissing(RequiredColumns, columns);
    if r.Some? {
      var i :| 0 <= i < |RequiredColumns| && RequiredColumns[i] == r.value && r.value !in columns;
      assert RequiredColumns[i] in RequiredColumns;
    }
  }

  /** A spreadsheet cell that can be empty (pandas' NaN) or hold a value, given as `str(value)`. */
  datatype Cell = NaN | Value(text: string)

  /**
   * One row of the grouped table: `origem` and `procedimento` are the group keys as
   * `str()` renders them, `inicio` the first start flag of the group, and `destinos`
   * the group's non-empty destination cells, each as `str()` renders it.
   */
  datatype GroupedRow = GroupedRow(origem: string, procedimento: string, inicio: Cell, destinos: seq<string>)

  /** The start flag as both builders read it: stripped and upper-cased, and "NAO" for an empty cell. */
  function StartFlag(c: Cell): string {
    match c
    case NaN => "NAO"
    case Value(s) => Text.Upper(Text.Strip(s))
  }

  /**
   * A row marks the start exactly when its flag cell holds "sim", in any case, with any
   * surrounding whitespace.
   */
  predicate IsStart(c: Cell) {
    c.Value? && Text.SpellsSim(Text.Strip(c.text))
  }

  /** The comparison the loop makes, `inicio == "SIM"`, is `IsStart`. */
  lemma StartFlagIsStart(c: Cell)
    ensures StartFlag(c) == "SIM" <==> IsStart(c)
  {
    if c.Value? {
      Text.UpperIsSim(Text.Strip(c.text));
    }
  }
}
