/** The raw cell grid as pandas reads it with `header=None`, and the
    coercion `pd.to_numeric(..., errors="coerce")` of one column. */
module Cells {
  import opened Wrappers

  /** One spreadsheet cell. `Missing` is pandas' NaN (an empty cell or
      padding); `Text` a string cell; `Num` a numeric cell, which only the
      desktop front-end sees, because the web front-end reads every cell
      as a string. */
  datatype Cell = Missing | Text(s: string) | Num(x: real)

  /** Rows of cells, row 0 the banner, row 1 the header, rows 2.. data.
      Rows may be ragged; the frame pandas builds pads short rows with NaN. */
  type RawTable = seq<seq<Cell>>

  /** A numeric entry of a coerced column: `None` is NaN. */
  type Value = Option<real>

  /** The frame's column count: its longest row. */
  function Width<T>(raw: seq<seq<T>>): (w: nat)
    ensures forall r :: 0 <= r < |raw| ==> |raw[r]| <= w
    ensures raw != [] ==> exists r :: 0 <= r < |raw| && |raw[r]| == w
  {
    if raw == [] then 0
    else
      var w := Width(raw[..|raw| - 1]);
      assert forall r :: 0 <= r < |raw| - 1 ==> raw[r] == raw[..|raw| - 1][r];
      if |raw[|raw| - 1]| > w then |raw[|raw| - 1]| else w
  }

  /** `raw.iloc[r, c]`: the cell, or NaN where a short row was padded. */
  function At(raw: RawTable, r: int, c: int): Cell
  {
    if 0 <= r < |raw| && 0 <= c < |raw[r]| then raw[r][c] else Missing
  }

  /** `raw.iloc[1].tolist()`: the header row, padded to the frame's width. */
  function HeaderRow(raw: RawTable): (h: seq<Cell>)
    requires |raw| >= 2
    ensures |h| == Width(raw)
    ensures forall c :: 0 <= c < |raw[1]| ==> h[c] == raw[1][c]
    ensures forall c :: |raw[1]| <= c < |h| ==> h[c].Missing?
  {
    seq(Width(raw), c => At(raw, 1, c))
  }

  /** Number of rows in `raw.iloc[2:]`. */
  function DataRowCount(raw: RawTable): nat
  {
    if |raw| <= 2 then 0 else |raw| - 2
  }

  /** `raw.iloc[2:].iloc[:, c]`: column `c` of the data block. */
  function DataColumn(raw: RawTable, c: int): (col: seq<Cell>)
    ensures |col| == DataRowCount(raw)
  {
    seq(DataRowCount(raw), i => At(raw, i + 2, c))
  }

  /** `pd.to_numeric` on one cell with `errors="coerce"`: text goes through
      `parse`, a stand-in for pandas' number parser; NaN stays NaN. */
  function ToNumeric(c: Cell, parse: string -> Option<real>): (v: Value)
    ensures c.Missing? ==> v.None?
    ensures c.Num? ==> v == Some(c.x)
    ensures c.Text? ==> v == parse(c.s)
  {
    match c
    case Missing => None
    case Text(s) => parse(s)
    case Num(x) => Some(x)
  }

  /** `pd.to_numeric(col, errors="coerce")`: never fails; unparsable
      cells become NaN, one entry per row, rows in order. */
  function Coerce(col: seq<Cell>, parse: string -> Option<real>): (vs: seq<Value>)
    ensures |vs| == |col|
    ensures forall i :: 0 <= i < |col| ==> vs[i] == ToNumeric(col[i], parse)
  {
    seq(|col|, i requires 0 <= i < |col| => ToNumeric(col[i], parse))
  }
}
