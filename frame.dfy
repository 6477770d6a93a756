/**
 * The slice of a pandas DataFrame the dashboard uses: a header of column
 * labels and rows of cells, addressed by position. A label is looked up at
 * its first occurrence in the header.
 */
module Frame {
  import opened Wrappers
  import opened Text
  import opened Numeric

  /**
   * One cell as read from the CSV: text, an integer, a boolean (a column of
   * `TRUE`/`FALSE`, as a sheet's checkboxes export), or missing (NaN).
   */
  datatype Cell = Str(s: string) | Int(i: int) | Bool(b: bool) | Null

  type Row = seq<Cell>

  datatype Table = Table(header: seq<string>, rows: seq<Row>)

  /** Every row has one cell per column (a DataFrame is always rectangular). */
  predicate WellFormed(t: Table) {
    forall i :: 0 <= i < |t.rows| ==> |t.rows[i]| == |t.header|
  }

  /** `DataFrame.empty`: no rows, or no columns. */
  predicate IsEmpty(t: Table) {
    |t.rows| == 0 || |t.header| == 0
  }

  /** The table `pd.DataFrame()` builds: no columns and no rows. */
  const EmptyTable := Table([], [])

  /** Position of the first column labelled `name`. */
  function IndexOf(header: seq<string>, name: string): (r: Option<nat>)
    ensures r.Some? <==> name in header
    ensures r.Some? ==> r.value < |header| && header[r.value] == name
    ensures r.Some? ==> forall j :: 0 <= j < r.value ==> header[j] != name
  {
    if header == [] then None
    else if header[0] == name then Some(0)
    else match IndexOf(header[1..], name)
      case None => None
      case Some(k) => Some(k + 1)
  }

  /** Position of the column `name`, which the table must have. */
  function Column(t: Table, name: string): (k: nat)
    requires name in t.header
    ensures k < |t.header| && t.header[k] == name
  {
    IndexOf(t.header, name).value
  }

  /** The cell at position `k` of a row; outside the row it reads as missing. */
  function CellAt(r: Row, k: nat): Cell {
    if k < |r| then r[k] else Null
  }

  /** `astype(str)`: how a cell is written as text. */
  function Stringify(c: Cell): (r: string)
    ensures c.Str? ==> r == c.s
    ensures c.Int? ==> ParseInt(r) == Some(c.i)
  {
    match c
    case Str(s) => s
    case Int(i) => (ParseShow(i); ShowInt(i))
    case Bool(b) => if b then "True" else "False"
    case Null => "nan"
  }

  /** `pd.to_numeric(..., errors='coerce')` on one cell: `None` where pandas gives NaN; a boolean counts as 1 or 0. */
  function ParseNumber(c: Cell): (r: Option<int>)
    ensures c.Null? ==> r == None
    ensures c.Int? ==> r == Some(c.i)
    ensures c.Bool? ==> r == Some(if c.b then 1 else 0)
  {
    match c
    case Str(s) => ParseInt(s)
    case Int(i) => Some(i)
    case Bool(b) => Some(if b then 1 else 0)
    case Null => None
  }

  /** `.fillna(0).astype(int)` after `to_numeric`: a cell that is not a number becomes 0. */
  function Coerce(c: Cell): (n: int)
    ensures ParseNumber(c) == None ==> n == 0
    ensures ParseNumber(c).Some? ==> n == ParseNumber(c).value
  {
    ParseNumber(c).GetOr(0)
  }

  /** `astype(str).str.strip().str.title()` on one cell. */
  function CleanText(c: Cell): (r: Cell)
    ensures r.Str?
  {
    Str(Title(Strip(Stringify(c))))
  }
}
