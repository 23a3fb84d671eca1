/**
 * The pieces every generated statement is made of: a value's literal, the
 * per-column clauses and the three ways a table is named. Nothing is escaped:
 * text goes between single quotes verbatim.
 */
module SqlText {
  import opened Common
  import opened Values

  /** A row image after conversion: column name and value, in table-definition order. */
  type Image = seq<(string, Cell)>

  function Quote(s: string): string {
    "'" + s + "'"
  }

  function Backtick(name: string): string {
    "`" + name + "`"
  }

  /**
   * A value where it is written as a literal (VALUES lists, SET entries and
   * the `=` comparisons of the INSERT rollback and the DELETE): text, dates
   * and JSON quoted, `None` as `NULL`, anything else as `str(v)`.
   */
  function Literal(v: Cell): string {
    match v
    case Null => "NULL"
    case Text(s) => Quote(s)
    case Temporal(text) => Quote(text)
    case List(_) => Quote(JsonText(v))
    case Dict(_) => Quote(JsonText(v))
    case Bool(b) => if b then "True" else "False"
    case Scalar(text) => text
  }

  /** `` `k`=literal ``: a SET entry, and the equality test of the INSERT rollback and the DELETE. */
  function Assignment(k: string, v: Cell): string {
    Backtick(k) + "=" + Literal(v)
  }

  /** An UPDATE's WHERE test: `` `k` IS NULL `` for `None`, otherwise an equality. */
  function Condition(k: string, v: Cell): string {
    if v.Null? then Backtick(k) + " IS NULL" else Assignment(k, v)
  }

  /**
   * The column names of a row image, in order, before or after conversion
   * (an `Image` is also a `seq<(string, PyValue)>`).
   */
  function Columns(img: seq<(string, PyValue)>): (r: seq<string>)
    ensures |r| == |img|
    ensures forall i :: 0 <= i < |img| ==> r[i] == img[i].0
  {
    if img == [] then [] else [img[0].0] + Columns(img[1..])
  }

  /** `` `k` `` for each name, as the INSERT and REPLACE column lists write them. */
  function BacktickAll(names: seq<string>): (r: seq<string>)
    ensures |r| == |names|
    ensures forall i :: 0 <= i < |names| ==> r[i] == Backtick(names[i])
  {
    if names == [] then [] else [Backtick(names[0])] + BacktickAll(names[1..])
  }

  function Literals(img: Image): (r: seq<string>)
    ensures |r| == |img|
    ensures forall i :: 0 <= i < |img| ==> r[i] == Literal(img[i].1)
  {
    if img == [] then [] else [Literal(img[0].1)] + Literals(img[1..])
  }

  function Assignments(img: Image): (r: seq<string>)
    ensures |r| == |img|
    ensures forall i :: 0 <= i < |img| ==> r[i] == Assignment(img[i].0, img[i].1)
  {
    if img == [] then [] else [Assignment(img[0].0, img[0].1)] + Assignments(img[1..])
  }

  function Conditions(img: Image): (r: seq<string>)
    ensures |r| == |img|
    ensures forall i :: 0 <= i < |img| ==> r[i] == Condition(img[i].0, img[i].1)
  {
    if img == [] then [] else [Condition(img[0].0, img[0].1)] + Conditions(img[1..])
  }

  /** `` `schema`.`table` ``, used by UPDATE and REPLACE whatever the schema. */
  function QualifiedName(schema: string, table: string): string {
    Backtick(schema) + "." + Backtick(table)
  }

  /** The INSERT and its rollback: qualified when there is a schema, the bare table name otherwise. */
  function InsertTarget(schema: string, table: string): string {
    if schema != "" then QualifiedName(schema, table) else table
  }

  /** The DELETE and its rollback: qualified when there is a schema, `` `table` `` otherwise. */
  function DeleteTarget(schema: string, table: string): string {
    if schema != "" then QualifiedName(schema, table) else Backtick(table)
  }

  /**
   * How `None` is written in each position: `NULL` in VALUES and SET,
   * `` `k` IS NULL `` in an UPDATE's WHERE, but `` `k`=NULL `` in the
   * INSERT rollback and the DELETE, which no row satisfies in SQL.
   */
  lemma NullRendering(k: string)
    ensures Literal(Null) == "NULL"
    ensures Assignment(k, Null) == "`" + k + "`=NULL"
    ensures Condition(k, Null) == "`" + k + "` IS NULL"
  {
  }

  /**
   * Text, dates and JSON go between single quotes exactly as they are, even
   * when they contain a quote; everything else is written without quotes.
   */
  lemma LiteralQuoting(v: Cell)
    ensures v.Text? ==> Literal(v) == "'" + v.s + "'"
    ensures v.Temporal? ==> Literal(v) == "'" + v.text + "'"
    ensures IsStructured(v) ==> Literal(v) == "'" + JsonText(v) + "'"
    ensures v.Scalar? ==> Literal(v) == v.text
    ensures v.Bool? ==> Literal(v) == (if v.b then "True" else "False")
    ensures !v.Null? ==> Condition("k", v) == Assignment("k", v)
  {
  }
}
