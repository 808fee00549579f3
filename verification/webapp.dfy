/** The web front-end (app.py): `process_option_chain`, which cleans the
    headers before looking columns up and turns every failure into "no
    result", and the two rules of `apply_formatting` that compute
    something: the red font for negative OI changes and the column widths. */
module WebApp {
  import opened Wrappers
  import opened PyStr
  import opened Cells
  import opened Derive
  import opened Extraction
  import opened Worksheets

  /** The web front-end reads every cell as a string (`dtype=str`), so a
      cell is either NaN or text. */
  predicate TextOnly(row: seq<Cell>) {
    forall i :: 0 <= i < |row| ==> !row[i].Num?
  }

  predicate TextTable(raw: RawTable) {
    forall r :: 0 <= r < |raw| ==> TextOnly(raw[r])
  }

  /** The header row of a grid read as strings holds no numbers either. */
  lemma HeaderRowTextOnly(raw: RawTable)
    requires |raw| >= 2 && TextTable(raw)
    ensures TextOnly(HeaderRow(raw))
  {
    assert TextOnly(raw[1]);
  }

  /** The synthetic name of a header position that is NaN or blank. */
  function Placeholder(i: nat): (name: string)
    ensures |name| > 7 && name[..7] == "Column_"
  {
    "Column_" + NatToString(i)
  }

  /** A header cell that supplies its own name: text, not blank once stripped. */
  predicate HasOwnName(h: Cell) {
    h.Text? && Strip(h.s) != []
  }

  function CleanHeader(i: nat, h: Cell): string
  {
    if HasOwnName(h) then Strip(h.s) else Placeholder(i)
  }

  /** The header clean-up: one name per position of row 1; a position
      holding NaN or a string that is blank once stripped gets
      `Column_<i>`, any other its stripped text. Every name is non-empty
      and already stripped. */
  function CleanHeaders(row: seq<Cell>): (names: seq<string>)
    requires TextOnly(row)
    ensures |names| == |row|
    ensures forall i :: 0 <= i < |row| && HasOwnName(row[i]) ==> names[i] == Strip(row[i].s)
    ensures forall i :: 0 <= i < |row| && !HasOwnName(row[i]) ==> names[i] == Placeholder(i)
    ensures forall i :: 0 <= i < |row| ==> names[i] != [] && Strip(names[i]) == names[i]
  {
    var names := seq(|row|, i requires 0 <= i < |row| => CleanHeader(i, row[i]));
    forall i | 0 <= i < |row|
      ensures HasOwnName(row[i]) ==> names[i] == Strip(row[i].s)
      ensures !HasOwnName(row[i]) ==> names[i] == Placeholder(i)
      ensures names[i] != [] && Strip(names[i]) == names[i]
    {
      CleanHeaderFacts(i, row[i]);
    }
    names
  }

  /** One cleaned name: the stripped text or the placeholder, non-empty
      and already stripped either way. */
  lemma CleanHeaderFacts(i: nat, h: Cell)
    ensures HasOwnName(h) ==> CleanHeader(i, h) == Strip(h.s)
    ensures !HasOwnName(h) ==> CleanHeader(i, h) == Placeholder(i)
    ensures CleanHeader(i, h) != [] && Strip(CleanHeader(i, h)) == CleanHeader(i, h)
  {
    if HasOwnName(h) {
      assert CleanHeader(i, h) == Strip(h.s);
      StripIdempotent(h.s);
    } else {
      assert CleanHeader(i, h) == Placeholder(i);
      PlaceholderStripped(i);
    }
  }

  lemma PlaceholderStripped(i: nat)
    ensures Strip(Placeholder(i)) == Placeholder(i)
  {
    var p := Placeholder(i);
    assert p[0] == 'C';
    assert IsDigit(p[|p| - 1]);
    StripUnique([], p, []);
    assert [] + p + [] == p;
  }

  /** Two NaN or blank positions never end up with the same name. */
  lemma PlaceholdersDistinct(row: seq<Cell>, i: nat, j: nat)
    requires TextOnly(row) && i < j < |row| && !HasOwnName(row[i]) && !HasOwnName(row[j])
    ensures CleanHeaders(row)[i] != CleanHeaders(row)[j]
  {
    var names := CleanHeaders(row);
    if names[i] == names[j] {
      assert NatToString(i) == names[i][7..] == names[j][7..] == NatToString(j);
      NatToStringInjective(i, j);
    }
  }

  /** `col_positions(name)`: in increasing order, exactly the positions
      whose header, stripped, equals `name` (case-sensitive). */
  function ColPositions(headers: seq<string>, name: string): (ps: seq<nat>)
    ensures Increasing(ps)
    ensures forall j :: 0 <= j < |ps| ==> ps[j] < |headers|
    ensures forall i :: 0 <= i < |headers| ==> (i in ps <==> Strip(headers[i]) == name)
  {
    FindAll(headers, (v: string) => Strip(v) == name)
  }

  /** `series_by_pos(name, k)`: raises a KeyError carrying the name, `k`
      and all positions found exactly when at most `k` positions match;
      otherwise projects the data block at the k-th match, a position whose
      header matches and before which exactly `k` headers match. */
  function SeriesByPos(raw: RawTable, headers: seq<string>, name: string, k: nat): (r: Result<seq<Cell>, KeyError>)
    ensures r.Err? <==> |ColPositions(headers, name)| <= k
    ensures r.Err? ==> r.error == KeyError(name, k, ColPositions(headers, name))
    ensures r.Ok? ==>
      var p := ColPositions(headers, name)[k];
      && p < |headers| && Strip(headers[p]) == name
      && |ColPositions(headers[..p], name)| == k
      && r.value == DataColumn(raw, p)
  {
    var ps := ColPositions(headers, name);
    if |ps| <= k then Err(KeyError(name, k, ps))
    else
      FindAllBefore(headers, (v: string) => Strip(v) == name, k);
      Ok(DataColumn(raw, ps[k]))
  }

  /** For one name, the second occurrence (put side) lies strictly to the
      right of the first (call side). */
  lemma PutSideRightOfCallSide(headers: seq<string>, name: string)
    requires |ColPositions(headers, name)| >= 2
    ensures ColPositions(headers, name)[0] < ColPositions(headers, name)[1]
  {
  }

  /** The lookup the web front-end runs over its cleaned headers. */
  function WebLookup(raw: RawTable): Lookup
    requires |raw| >= 2 && TextTable(raw)
  {
    var headers := CleanHeaders(HeaderRow(raw));
    name => ColPositions(headers, name)
  }

  /** `series_by_pos` over the cleaned headers is the step the pipeline
      takes for one request: the KeyError `Resolve` reports, or the data
      block at the position it picks. */
  lemma SeriesByPosResolves(raw: RawTable, q: Request)
    requires |raw| >= 2 && TextTable(raw)
    ensures TextOnly(HeaderRow(raw))
    ensures var r := Resolve(WebLookup(raw), q);
      SeriesByPos(raw, CleanHeaders(HeaderRow(raw)), q.name, q.occurrence)
        == if r.Ok? then Ok(DataColumn(raw, r.value)) else Err(r.error)
  {
    HeaderRowTextOnly(raw);
    var ps := ColPositions(CleanHeaders(HeaderRow(raw)), q.name);
    assert WebLookup(raw)(q.name) == ps;
  }

  /** When a run of lookups (the eight of `Required`, say) succeeds,
      the column the pipeline extracts for each request is what
      `series_by_pos` returns for it. */
  lemma ResolvedColumnsAreSeriesByPos(raw: RawTable, qs: seq<Request>)
    requires |raw| >= 2 && TextTable(raw) && ResolveAll(WebLookup(raw), qs).Ok?
    ensures TextOnly(HeaderRow(raw))
    ensures forall j :: 0 <= j < |qs| ==>
      SeriesByPos(raw, CleanHeaders(HeaderRow(raw)), qs[j].name, qs[j].occurrence)
        == Ok(DataColumn(raw, ResolveAll(WebLookup(raw), qs).value[j]))
  {
    HeaderRowTextOnly(raw);
    var lookup, ps := WebLookup(raw), ResolveAll(WebLookup(raw), qs).value;
    var headers := CleanHeaders(HeaderRow(raw));
    forall j | 0 <= j < |qs|
      ensures SeriesByPos(raw, headers, qs[j].name, qs[j].occurrence) == Ok(DataColumn(raw, ps[j]))
    {
      assert Resolve(lookup, qs[j]) == Ok(ps[j]);
      SeriesByPosResolves(raw, qs[j]);
    }
  }

  /** `process_option_chain`: `None` when the grid has no header row or
      when any lookup raises (the catch-all); otherwise the twelve columns
      in the fixed order, one row per raw row after the first two, built
      from the columns the lookups select. */
  function ProcessOptionChain(raw: RawTable, parse: string -> Option<real>): (r: Option<Frame>)
    requires TextTable(raw)
    ensures |raw| < 2 ==> r.None?
    ensures |raw| >= 2 ==>
      (r.Some? <==> forall j :: 0 <= j < |Required| ==> Available(WebLookup(raw), Required[j]))
    ensures r.Some? ==> CanonicalShape(r.value, DataRowCount(raw))
    ensures r.Some? ==> |raw| >= 2 && r.value == Canonical(ExtractAt(raw, ResolveAll(WebLookup(raw), Required).value, parse))
  {
    if |raw| < 2 then None
    else
      var res := Run(raw, WebLookup(raw), parse);
      if res.Ok? then Some(res.value) else None
  }

  // ---------------------------------------------------------------------
  // apply_formatting

  /** The sheet columns of 'CE OI CHANGE' and 'PE OI CHANGE', in that
      order, each only if the frame has it (`df.columns.get_loc`). */
  function OiChangeColumns(columns: seq<string>): (cs: seq<int>)
    ensures |cs| == (if "CE OI CHANGE" in columns then 1 else 0) + (if "PE OI CHANGE" in columns then 1 else 0)
    ensures forall j :: 0 <= j < |cs| ==> (0 <= cs[j] < |columns|
      && (columns[cs[j]] == "CE OI CHANGE" || columns[cs[j]] == "PE OI CHANGE"))
    ensures "CE OI CHANGE" in columns ==> cs[0] == IndexOf(columns, "CE OI CHANGE").value
    ensures "PE OI CHANGE" in columns ==> cs[|cs| - 1] == IndexOf(columns, "PE OI CHANGE").value
  {
    var ce := IndexOf(columns, "CE OI CHANGE");
    var pe := IndexOf(columns, "PE OI CHANGE");
    (if ce.Some? then [ce.value as int] else []) + (if pe.Some? then [pe.value as int] else [])
  }

  predicate IsNegative(v: SheetValue) {
    v.Number? && v.x < 0.0
  }

  /** Data cells of column `c`, rows `lo` to `hi - 1`, that hold a negative number. */
  function NegativeIn(rows: seq<seq<SheetValue>>, c: int, lo: int, hi: int): set<(int, int)>
  {
    set r | lo <= r < hi && IsNegative(SheetAt(rows, r, c)) :: (r, c)
  }

  /** The cells of the given columns, data rows 1 to `n`, holding a
      negative number: the cells the rule is meant to colour. */
  function NegativeCells(rows: seq<seq<SheetValue>>, cols: seq<int>, n: nat): set<(int, int)>
  {
    if cols == [] then {}
    else NegativeCells(rows, cols[..|cols| - 1], n) + NegativeIn(rows, cols[|cols| - 1], 1, n + 1)
  }

  /** Some data cell of the given columns holds a string. */
  predicate HasStringIn(rows: seq<seq<SheetValue>>, cols: seq<int>, n: nat) {
    exists j, r :: 0 <= j < |cols| && 1 <= r <= n && SheetAt(rows, r, cols[j]).Str?
  }

  lemma NegativeInStep(rows: seq<seq<SheetValue>>, c: int, lo: int, hi: int)
    requires lo <= hi
    ensures NegativeIn(rows, c, lo, hi + 1) ==
      NegativeIn(rows, c, lo, hi) + (if IsNegative(SheetAt(rows, hi, c)) then {(hi, c)} else {})
  {
  }

  lemma {:induction false} NegativeCellsPrefix(rows: seq<seq<SheetValue>>, cols: seq<int>, n: nat, j: nat)
    requires j <= |cols|
    ensures NegativeCells(rows, cols[..j], n) <= NegativeCells(rows, cols, n)
    decreases |cols|
  {
    if j < |cols| {
      assert cols[..|cols| - 1][..j] == cols[..j];
      NegativeCellsPrefix(rows, cols[..|cols| - 1], n, j);
    } else {
      assert cols[..j] == cols;
    }
  }

  /** The red-font loop of `apply_formatting` as written: it compares
      every data cell that is not `None` with 0, so a cell holding a string
      raises `TypeError` and stops the loop. It raises exactly when some
      data cell of the two columns holds a string; otherwise it colours
      exactly the negative cells, and when it raises it has coloured some
      of them and nothing else. */
  method ColourNegativeOiChangesAsWritten(ws: Worksheet, columns: seq<string>, rowCount: nat) returns (raised: bool)
    modifies ws`redFont
    ensures raised <==> HasStringIn(ws.rows, OiChangeColumns(columns), rowCount)
    ensures !raised ==> ws.redFont == old(ws.redFont) + NegativeCells(ws.rows, OiChangeColumns(columns), rowCount)
    ensures old(ws.redFont) <= ws.redFont <= old(ws.redFont) + NegativeCells(ws.rows, OiChangeColumns(columns), rowCount)
  {
    raised := ColourNegativeCellsAsWritten(ws, OiChangeColumns(columns), rowCount);
  }

  /** The loop as written over the given columns, in order. */
  method ColourNegativeCellsAsWritten(ws: Worksheet, cols: seq<int>, rowCount: nat) returns (raised: bool)
    modifies ws`redFont
    ensures raised <==> HasStringIn(ws.rows, cols, rowCount)
    ensures !raised ==> ws.redFont == old(ws.redFont) + NegativeCells(ws.rows, cols, rowCount)
    ensures old(ws.redFont) <= ws.redFont <= old(ws.redFont) + NegativeCells(ws.rows, cols, rowCount)
  {
    var rows := ws.rows;
    var red := ws.redFont;
    var j := 0;
    while j < |cols|
      invariant 0 <= j <= |cols|
      invariant red == old(ws.redFont) + NegativeCells(rows, cols[..j], rowCount)
      invariant forall j', r :: 0 <= j' < j && 1 <= r <= rowCount ==> !SheetAt(rows, r, cols[j']).Str?
    {
      var c := cols[j];
      var r := 1;
      while r <= rowCount
        invariant 1 <= r <= rowCount + 1
        decreases rowCount + 1 - r
        invariant red == old(ws.redFont) + NegativeCells(rows, cols[..j], rowCount) + NegativeIn(rows, c, 1, r)
        invariant forall r' :: 1 <= r' < r ==> !SheetAt(rows, r', c).Str?
      {
        NegativeInStep(rows, c, 1, r);
        match SheetAt(rows, r, c) {
          case Blank =>
          case Number(x) =>
            if x < 0.0 {
              red := red + {(r, c)};
            }
          case Str(_) =>
            NegativeCellsPrefix(rows, cols, rowCount, j + 1);
            assert cols[..j + 1][..j] == cols[..j];
            NegativeInMonotone(rows, c, 1, r, rowCount + 1);
            ws.redFont := red;
            raised := true;
            return;
        }
        r := r + 1;
      }
      assert cols[..j + 1][..j] == cols[..j];
      j := j + 1;
    }
    assert cols[..j] == cols;
    ws.redFont := red;
    raised := false;
  }

  lemma NegativeInMonotone(rows: seq<seq<SheetValue>>, c: int, lo: int, hi: int, hi2: int)
    requires hi <= hi2
    ensures NegativeIn(rows, c, lo, hi) <= NegativeIn(rows, c, lo, hi2)
  {
  }

  /** The red-font rule as intended: a data cell of the two OI CHANGE
      columns gets the red font exactly when it holds a number below 0;
      missing values are skipped, and no other cell changes. */
  method ColourNegativeOiChanges(ws: Worksheet, columns: seq<string>, rowCount: nat)
    modifies ws`redFont
    ensures ws.redFont == old(ws.redFont) + NegativeCells(ws.rows, OiChangeColumns(columns), rowCount)
  {
    ColourNegativeCells(ws, OiChangeColumns(columns), rowCount);
  }

  /** The intended loop over the given columns, in order. */
  method ColourNegativeCells(ws: Worksheet, cols: seq<int>, rowCount: nat)
    modifies ws`redFont
    ensures ws.redFont == old(ws.redFont) + NegativeCells(ws.rows, cols, rowCount)
  {
    var rows := ws.rows;
    var red := ws.redFont;
    var j := 0;
    while j < |cols|
      invariant 0 <= j <= |cols|
      invariant red == old(ws.redFont) + NegativeCells(rows, cols[..j], rowCount)
    {
      var c := cols[j];
      var r := 1;
      while r <= rowCount
        invariant 1 <= r <= rowCount + 1
        decreases rowCount + 1 - r
        invariant red == old(ws.redFont) + NegativeCells(rows, cols[..j], rowCount) + NegativeIn(rows, c, 1, r)
      {
        NegativeInStep(rows, c, 1, r);
        var v := SheetAt(rows, r, c);
        if v.Number? && v.x < 0.0 {
          red := red + {(r, c)};
        }
        r := r + 1;
      }
      assert cols[..j + 1][..j] == cols[..j];
      j := j + 1;
    }
    assert cols[..j] == cols;
    ws.redFont := red;
  }

  /** A frame in the output layout with a missing CE OI CHANGE entry is
      written with the text `""` in that cell, so the loop as written
      raises on it. */
  lemma MissingOiChangeRaises(f: Frame, n: nat, i: nat)
    requires Rectangular(f, n) && Names(f) == FinalOrder && i < n
    requires f[1].column.Numbers? && f[1].column.values[i].None?
    ensures HasStringIn(WrittenRows(f, n), OiChangeColumns(Names(f)), n)
  {
    var rows := WrittenRows(f, n);
    FinalOrderDistinct();
    assert FinalOrder[1] == "CE OI CHANGE";
    CeOiChangeFirst(Names(f));
    var cols := OiChangeColumns(Names(f));
    assert rows[i + 1][1] == WrittenEntry(f[1].column, i) == Str("");
    assert 0 <= 0 < |cols| && 1 <= i + 1 <= n && SheetAt(rows, i + 1, cols[0]).Str?;
  }

  lemma CeOiChangeFirst(ns: seq<string>)
    requires Distinct(ns) && 1 < |ns| && ns[1] == "CE OI CHANGE"
    ensures 0 < |OiChangeColumns(ns)| && OiChangeColumns(ns)[0] == 1
  {
    IndexOfUnique(ns, "CE OI CHANGE", 1);
  }

  /** The rows of the colour-scale ranges `f'{col}2:{col}{len(df)+1}'`,
      or `None` when the last row comes before the first: openpyxl's
      `CellRange` rejects such a range with `ValueError`. */
  function ColourScaleRows(rowCount: nat): (r: Option<(nat, nat)>)
    ensures r.None? <==> rowCount == 0
    ensures r.Some? ==> r.value == (2, rowCount + 1)
  {
    var first, last := 2, rowCount + 1;
    if last < first then None else Some((first, last))
  }

  /** The tail of `apply_formatting`: the colour scales, which raise on a
      frame without data rows, then the width rule with a cap of 25. */
  method ScalesAndWidths(ws: Worksheet, rowCount: nat, numberLength: (int, real) -> nat) returns (raised: bool)
    modifies ws`widths
    ensures raised <==> rowCount == 0
    ensures raised ==> ws.widths == old(ws.widths)
    ensures !raised ==> forall c :: 0 <= c < ws.ColumnCount() ==>
      c in ws.widths && ws.widths[c] == ColumnWidth(MaxOf(ws.ColumnLengths(c, numberLength)), 25.0)
    ensures !raised ==> forall c :: 0 <= c < ws.ColumnCount() ==> ws.widths[c] <= 25.0
    ensures !raised ==> forall c :: c in ws.widths <==> (c in old(ws.widths) || 0 <= c < ws.ColumnCount())
    ensures !raised ==> forall c :: c in old(ws.widths) && !(0 <= c < ws.ColumnCount()) ==>
      ws.widths[c] == old(ws.widths)[c]
  {
    raised := ColourScaleRows(rowCount).None?;
    if !raised {
      ws.AutoFitColumns(25.0, numberLength);
    }
  }

  /** The parts of `apply_formatting` modelled here, as written: the
      red-font loop, which raises on a data cell holding a string; then
      the colour scales, which raise on a frame without data rows; then,
      only when nothing raised, the width rule with a cap of 25. */
  method ApplyFormattingAsWritten(ws: Worksheet, columns: seq<string>, rowCount: nat, numberLength: (int, real) -> nat)
    returns (raised: bool)
    modifies ws`redFont, ws`widths
    ensures raised <==> HasStringIn(ws.rows, OiChangeColumns(columns), rowCount) || rowCount == 0
    ensures raised ==> ws.widths == old(ws.widths)
    ensures old(ws.redFont) <= ws.redFont <= old(ws.redFont) + NegativeCells(ws.rows, OiChangeColumns(columns), rowCount)
    ensures !raised ==> ws.redFont == old(ws.redFont) + NegativeCells(ws.rows, OiChangeColumns(columns), rowCount)
    ensures !raised ==> forall c :: 0 <= c < ws.ColumnCount() ==>
      c in ws.widths && ws.widths[c] == ColumnWidth(MaxOf(ws.ColumnLengths(c, numberLength)), 25.0)
    ensures !raised ==> forall c :: c in ws.widths <==> (c in old(ws.widths) || 0 <= c < ws.ColumnCount())
    ensures !raised ==> forall c :: c in old(ws.widths) && !(0 <= c < ws.ColumnCount()) ==>
      ws.widths[c] == old(ws.widths)[c]
  {
    ghost var rows, widths := ws.rows, ws.widths;
    raised := ColourNegativeOiChangesAsWritten(ws, columns, rowCount);
    assert ws.rows == rows && ws.widths == widths;
    if !raised {
      ghost var red := ws.redFont;
      raised := ScalesAndWidths(ws, rowCount, numberLength);
      assert ws.rows == rows && ws.redFont == red;
    }
  }

  /** The parts of `apply_formatting` modelled here, with the red font as
      intended: it skips missing values (`ColourNegativeOiChanges`), so
      only the colour scales of a frame without data rows raise; otherwise
      the width rule with a cap of 25 runs. */
  method ApplyFormatting(ws: Worksheet, columns: seq<string>, rowCount: nat, numberLength: (int, real) -> nat)
    returns (raised: bool)
    modifies ws`redFont, ws`widths
    ensures raised <==> rowCount == 0
    ensures raised ==> ws.widths == old(ws.widths)
    ensures ws.redFont == old(ws.redFont) + NegativeCells(ws.rows, OiChangeColumns(columns), rowCount)
    ensures !raised ==> forall c :: 0 <= c < ws.ColumnCount() ==>
      c in ws.widths && ws.widths[c] == ColumnWidth(MaxOf(ws.ColumnLengths(c, numberLength)), 25.0)
    ensures !raised ==> forall c :: 0 <= c < ws.ColumnCount() ==> ws.widths[c] <= 25.0
    ensures !raised ==> forall c :: c in ws.widths <==> (c in old(ws.widths) || 0 <= c < ws.ColumnCount())
    ensures !raised ==> forall c :: c in old(ws.widths) && !(0 <= c < ws.ColumnCount()) ==>
      ws.widths[c] == old(ws.widths)[c]
  {
    ghost var rows := ws.rows;
    ColourNegativeOiChanges(ws, columns, rowCount);
    ghost var red := ws.redFont;
    raised := ScalesAndWidths(ws, rowCount, numberLength);
    assert ws.rows == rows && ws.redFont == red;
  }
}
