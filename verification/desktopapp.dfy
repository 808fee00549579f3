/** The desktop front-end (desktopApp.py): `process_option_chain`, which
    looks columns up in the raw header row and lets every error escape to
    the dialog, and the width rule of `save_with_color_scaling`. */
module DesktopApp {
  import opened Wrappers
  import opened PyStr
  import opened Cells
  import opened Derive
  import opened Extraction
  import opened Worksheets

  /** What escapes `process_option_chain`: the `IndexError` of
      `raw.iloc[1]` on a grid without a header row, or the KeyError of the
      first lookup that finds too few occurrences. */
  datatype DesktopError = NoHeaderRow | MissingColumn(e: KeyError)

  /** Whether header cell `v` names column `name`: only string cells count
      (`isinstance(v, str)`), compared after stripping. */
  predicate Matches(v: Cell, name: string) {
    v.Text? && Strip(v.s) == name
  }

  /** `col_positions(name)` over the raw header row: in increasing order,
      exactly the positions holding a string that, stripped, equals
      `name`; numeric and NaN headers never match. */
  function ColPositions(headers: seq<Cell>, name: string): (ps: seq<nat>)
    ensures Increasing(ps)
    ensures forall j :: 0 <= j < |ps| ==> ps[j] < |headers|
    ensures forall i :: 0 <= i < |headers| ==> (i in ps <==> headers[i].Text? && Strip(headers[i].s) == name)
  {
    FindAll(headers, (v: Cell) => Matches(v, name))
  }

  /** `series_by_pos(name, k)`: the KeyError with the name, `k` and every
      position found exactly when at most `k` positions match; otherwise
      the data block at the k-th match, a string header that strips to
      `name` with exactly `k` matches before it. */
  function SeriesByPos(raw: RawTable, headers: seq<Cell>, name: string, k: nat): (r: Result<seq<Cell>, KeyError>)
    ensures r.Err? <==> |ColPositions(headers, name)| <= k
    ensures r.Err? ==> r.error == KeyError(name, k, ColPositions(headers, name))
    ensures r.Ok? ==>
      var p := ColPositions(headers, name)[k];
      && p < |headers| && headers[p].Text? && Strip(headers[p].s) == name
      && |ColPositions(headers[..p], name)| == k
      && r.value == DataColumn(raw, p)
  {
    var ps := ColPositions(headers, name);
    if |ps| <= k then Err(KeyError(name, k, ps))
    else
      FindAllBefore(headers, (v: Cell) => Matches(v, name), k);
      Ok(DataColumn(raw, ps[k]))
  }

  /** The lookup the desktop front-end runs over the raw header row. */
  function DesktopLookup(raw: RawTable): Lookup
    requires |raw| >= 2
  {
    var headers := HeaderRow(raw);
    name => ColPositions(headers, name)
  }

  /** `series_by_pos` over the raw header row is the step the pipeline
      takes for one request: the KeyError `Resolve` reports, or the data
      block at the position it picks. */
  lemma SeriesByPosResolves(raw: RawTable, q: Request)
    requires |raw| >= 2
    ensures var r := Resolve(DesktopLookup(raw), q);
      SeriesByPos(raw, HeaderRow(raw), q.name, q.occurrence)
        == if r.Ok? then Ok(DataColumn(raw, r.value)) else Err(r.error)
  {
  }

  /** When a run of lookups (the eight of `Required`, say) succeeds,
      the column the pipeline extracts for each request is what
      `series_by_pos` returns for it. */
  lemma ResolvedColumnsAreSeriesByPos(raw: RawTable, qs: seq<Request>)
    requires |raw| >= 2 && ResolveAll(DesktopLookup(raw), qs).Ok?
    ensures forall j :: 0 <= j < |qs| ==>
      SeriesByPos(raw, HeaderRow(raw), qs[j].name, qs[j].occurrence)
        == Ok(DataColumn(raw, ResolveAll(DesktopLookup(raw), qs).value[j]))
  {
    forall j | 0 <= j < |qs|
      ensures SeriesByPos(raw, HeaderRow(raw), qs[j].name, qs[j].occurrence)
        == Ok(DataColumn(raw, ResolveAll(DesktopLookup(raw), qs).value[j]))
    {
      SeriesByPosResolves(raw, qs[j]);
    }
  }

  /** `process_option_chain` up to the frame it saves: `NoHeaderRow` on a
      grid of fewer than two rows; otherwise the KeyError of the first
      lookup that fails, or the twelve columns in the fixed order with one
      row per raw row after the first two. */
  function ProcessOptionChain(raw: RawTable, parse: string -> Option<real>): (r: Result<Frame, DesktopError>)
    ensures r == Err(NoHeaderRow) <==> |raw| < 2
    ensures |raw| >= 2 ==>
      (r.Ok? <==> forall j :: 0 <= j < |Required| ==> Available(DesktopLookup(raw), Required[j]))
    ensures |raw| >= 2 && r.Err? ==> exists j :: (0 <= j < |Required| && !Available(DesktopLookup(raw), Required[j])
      && (forall i :: 0 <= i < j ==> Available(DesktopLookup(raw), Required[i]))
      && r.error == MissingColumn(KeyError(Required[j].name, Required[j].occurrence, DesktopLookup(raw)(Required[j].name))))
    ensures r.Ok? ==> CanonicalShape(r.value, DataRowCount(raw))
    ensures r.Ok? ==> |raw| >= 2 && r.value == Canonical(ExtractAt(raw, ResolveAll(DesktopLookup(raw), Required).value, parse))
  {
    if |raw| < 2 then Err(NoHeaderRow)
    else
      match Run(raw, DesktopLookup(raw), parse)
      case Ok(f) => Ok(f)
      case Err(e) => Err(MissingColumn(e))
  }

  /** The part of `save_with_color_scaling` modelled here: every column's
      width from its longest rendered cell, capped at 20. */
  method SaveWithColorScaling(ws: Worksheet, numberLength: (int, real) -> nat)
    modifies ws`widths
    ensures forall c :: 0 <= c < ws.ColumnCount() ==>
      c in ws.widths && ws.widths[c] == ColumnWidth(MaxOf(ws.ColumnLengths(c, numberLength)), 20.0)
    ensures forall c :: 0 <= c < ws.ColumnCount() ==> ws.widths[c] <= 20.0
    ensures forall c :: c in ws.widths <==> (c in old(ws.widths) || 0 <= c < ws.ColumnCount())
    ensures forall c :: c in old(ws.widths) && !(0 <= c < ws.ColumnCount()) ==> ws.widths[c] == old(ws.widths)[c]
  {
    ws.AutoFitColumns(20.0, numberLength);
  }
}
