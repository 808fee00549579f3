/** The openpyxl worksheet the output frame is written to, as far as the
    front-ends inspect and change it: the written cell values, the red
    font on some cells, and the column widths. */
module Worksheets {
  import opened Wrappers
  import opened Cells
  import opened Derive

  /** An openpyxl cell value: `None`, a string or a number. */
  datatype SheetValue = Blank | Str(s: string) | Number(x: real)

  /** What `to_excel` writes for a raw cell: NaN becomes the default
      missing-value text `na_rep`, the empty string. */
  function WrittenCell(c: Cell): (w: SheetValue)
    ensures !w.Blank?
    ensures c.Missing? ==> w == Str("")
    ensures c.Text? ==> w == Str(c.s)
    ensures c.Num? ==> w == Number(c.x)
  {
    match c
    case Missing => Str("")
    case Text(s) => Str(s)
    case Num(x) => Number(x)
  }

  /** What `to_excel` writes for a numeric entry: NaN becomes `""`. */
  function WrittenValue(v: Value): (w: SheetValue)
    ensures w.Str? <==> v.None?
    ensures v.None? ==> w == Str("")
    ensures v.Some? ==> w == Number(v.value)
  {
    match v
    case None => Str("")
    case Some(x) => Number(x)
  }

  /** Entry `i` of a frame column as written: never `None`, and a
      missing number becomes the text `""`. */
  function WrittenEntry(col: Column, i: nat): (w: SheetValue)
    requires i < Length(col)
    ensures !w.Blank?
    ensures col.Numbers? ==> (w == Str("") <==> col.values[i].None?)
  {
    match col
    case Cells(cs) => WrittenCell(cs[i])
    case Numbers(vs) => WrittenValue(vs[i])
  }

  /** Every column of the frame has `n` rows. */
  predicate Rectangular(f: Frame, n: nat) {
    forall j :: 0 <= j < |f| ==> Length(f[j].column) == n
  }

  /** The sheet `to_excel(index=False)` fills: the header row of column
      names, then one row per frame row. */
  function WrittenRows(f: Frame, n: nat): (rows: seq<seq<SheetValue>>)
    requires Rectangular(f, n)
    ensures |rows| == n + 1
    ensures forall r :: 0 <= r < |rows| ==> |rows[r]| == |f|
    ensures forall j :: 0 <= j < |f| ==> rows[0][j] == Str(f[j].name)
    ensures forall i, j :: 0 <= i < n && 0 <= j < |f| ==> rows[i + 1][j] == WrittenEntry(f[j].column, i)
  {
    [seq(|f|, j requires 0 <= j < |f| => Str(f[j].name))]
    + seq(n, i requires 0 <= i < n => seq(|f|, j requires 0 <= j < |f| => WrittenEntry(f[j].column, i)))
  }

  /** `worksheet.cell(row, column).value`, 0-based: a cell outside the
      written range holds `None`. */
  function SheetAt(rows: seq<seq<SheetValue>>, r: int, c: int): SheetValue
  {
    if 0 <= r < |rows| && 0 <= c < |rows[r]| then rows[r][c] else Blank
  }

  /** `len(str(cell.value))` for a cell of column `c`; the text of a
      number is left to `numberLength(c, x)`, since the column's dtype
      (int64 or float64) decides whether `x` is written as an int or a
      float. */
  function RenderedLength(v: SheetValue, c: int, numberLength: (int, real) -> nat): nat
  {
    match v
    case Blank => 4
    case Str(s) => |s|
    case Number(x) => numberLength(c, x)
  }

  /** The largest entry, 0 for none. */
  function MaxOf(s: seq<nat>): (m: nat)
    ensures forall i :: 0 <= i < |s| ==> s[i] <= m
    ensures s == [] ==> m == 0
    ensures s != [] ==> exists i :: 0 <= i < |s| && s[i] == m
  {
    if s == [] then 0
    else
      var m := MaxOf(s[..|s| - 1]);
      assert forall i :: 0 <= i < |s| - 1 ==> s[..|s| - 1][i] == s[i];
      if s[|s| - 1] > m then s[|s| - 1] else m
  }

  /** `min((max_length + 2) * 1.2, cap)` on exact reals. */
  function ColumnWidth(maxLength: nat, cap: real): (w: real)
    ensures w <= cap && w <= (maxLength as real + 2.0) * 1.2
    ensures w == cap || w == (maxLength as real + 2.0) * 1.2
  {
    var adjusted := (maxLength as real + 2.0) * 1.2;
    if adjusted < cap then adjusted else cap
  }

  /** A longer longest cell never gives a narrower column. */
  lemma WidthMonotone(m1: nat, m2: nat, cap: real)
    requires m1 <= m2
    ensures ColumnWidth(m1, cap) <= ColumnWidth(m2, cap)
  {
  }

  /** Unless it is capped, the width leaves room for every cell of the column. */
  lemma WidthRoomForCell(ls: seq<nat>, r: nat, cap: real)
    requires r < |ls| && ColumnWidth(MaxOf(ls), cap) < cap
    ensures ColumnWidth(MaxOf(ls), cap) >= (ls[r] as real + 2.0) * 1.2
  {
  }

  /** `before` with keys `0 .. |ws| - 1` set to the entries of `ws`. */
  function Overlay(before: map<int, real>, ws: seq<real>): (after: map<int, real>)
    ensures forall c :: c in after <==> (c in before || 0 <= c < |ws|)
    ensures forall c :: 0 <= c < |ws| ==> after[c] == ws[c]
    ensures forall c :: c in before && !(0 <= c < |ws|) ==> after[c] == before[c]
  {
    before + map c | 0 <= c < |ws| :: ws[c]
  }

  class Worksheet {
    /** Cell values, row 0 the header row (openpyxl's row 1). */
    var rows: seq<seq<SheetValue>>
    /** Cells, as (row, column) 0-based, whose font is the red one. */
    var redFont: set<(int, int)>
    /** `column_dimensions[...].width`, by 0-based column. */
    var widths: map<int, real>

    /** The sheet as `to_excel` leaves it. */
    constructor (f: Frame, n: nat)
      requires Rectangular(f, n)
      ensures rows == WrittenRows(f, n) && redFont == {} && widths == map[]
    {
      rows := WrittenRows(f, n);
      redFont := {};
      widths := map[];
    }

    /** `worksheet.max_column` */
    function ColumnCount(): nat
      reads this`rows
    {
      Width(rows)
    }

    function Value(r: int, c: int): SheetValue
      reads this`rows
    {
      SheetAt(rows, r, c)
    }

    /** `len(str(cell.value))` down column `c`, header included. */
    function ColumnLengths(c: int, numberLength: (int, real) -> nat): (ls: seq<nat>)
      reads this`rows
      ensures |ls| == |rows|
      ensures forall r :: 0 <= r < |rows| ==> ls[r] == RenderedLength(Value(r, c), c, numberLength)
    {
      var rs := rows;
      seq(|rs|, r requires 0 <= r < |rs| => RenderedLength(SheetAt(rs, r, c), c, numberLength))
    }

    /** The inner loop of the width rule: the longest rendered cell of a column. */
    method LongestCell(c: int, numberLength: (int, real) -> nat) returns (m: nat)
      ensures m == MaxOf(ColumnLengths(c, numberLength))
    {
      ghost var ls := ColumnLengths(c, numberLength);
      m := 0;
      var r := 0;
      while r < |rows|
        invariant 0 <= r <= |rows|
        invariant m == MaxOf(ls[..r])
      {
        assert ls[..r + 1][..r] == ls[..r];
        var len := RenderedLength(Value(r, c), c, numberLength);
        if len > m {
          m := len;
        }
        r := r + 1;
      }
      assert ls[..r] == ls;
    }

    /** The width rule over the sheet: column `c` gets
        `min((longest + 2) * 1.2, cap)`, one entry per column. */
    method FittedWidths(cap: real, numberLength: (int, real) -> nat) returns (ws: seq<real>)
      ensures |ws| == ColumnCount()
      ensures forall c :: 0 <= c < |ws| ==> ws[c] == ColumnWidth(MaxOf(ColumnLengths(c, numberLength)), cap)
    {
      ws := [];
      while |ws| < ColumnCount()
        invariant |ws| <= ColumnCount()
        invariant forall k :: 0 <= k < |ws| ==> ws[k] == ColumnWidth(MaxOf(ColumnLengths(k, numberLength)), cap)
      {
        var m := LongestCell(|ws|, numberLength);
        ws := ws + [ColumnWidth(m, cap)];
      }
    }

    /** The width rule applied: every column gets its fitted width, so no
        column is wider than `cap`, and a column narrower than `cap` leaves
        room for each of its cells; no other column changes. */
    method AutoFitColumns(cap: real, numberLength: (int, real) -> nat)
      modifies this`widths
      ensures forall c :: 0 <= c < ColumnCount() ==>
        c in widths && widths[c] == ColumnWidth(MaxOf(ColumnLengths(c, numberLength)), cap)
      ensures forall c :: 0 <= c < ColumnCount() ==> widths[c] <= cap
      ensures forall c, r :: 0 <= c < ColumnCount() && 0 <= r < |rows| && widths[c] < cap ==>
        widths[c] >= (ColumnLengths(c, numberLength)[r] as real + 2.0) * 1.2
      ensures forall c :: c in widths <==> (c in old(widths) || 0 <= c < ColumnCount())
      ensures forall c :: c in old(widths) && !(0 <= c < ColumnCount()) ==> widths[c] == old(widths)[c]
    {
      var ws := FittedWidths(cap, numberLength);
      widths := Overlay(widths, ws);
      forall k, r | 0 <= k < ColumnCount() && 0 <= r < |rows| && widths[k] < cap
        ensures widths[k] >= (ColumnLengths(k, numberLength)[r] as real + 2.0) * 1.2
      {
        WidthRoomForCell(ColumnLengths(k, numberLength), r, cap);
      }
    }
  }
}
