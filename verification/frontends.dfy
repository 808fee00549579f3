/** How the two front-ends relate: on a grid whose cells are all text or
    NaN, cleaning the headers first (web) and matching only string
    headers (desktop) find the same positions for every name the pipeline
    asks for, so both produce the same frame, and fail on the same grids. */
module FrontEnds {
  import opened Wrappers
  import opened PyStr
  import opened Cells
  import opened Extraction
  import WebApp
  import DesktopApp

  /** A name no `Column_<i>` placeholder can equal. */
  predicate NotPlaceholder(name: string) {
    |name| <= 7 || name[..7] != "Column_"
  }

  /** For a non-empty name that is not a placeholder, `col_positions` over
      the cleaned headers and over the raw header row agree. */
  lemma HeaderLookupsAgree(h: seq<Cell>, name: string)
    requires WebApp.TextOnly(h) && name != [] && NotPlaceholder(name)
    ensures WebApp.ColPositions(WebApp.CleanHeaders(h), name) == DesktopApp.ColPositions(h, name)
  {
    CleanedMatchesRaw(h, name);
    FindAllSame(WebApp.CleanHeaders(h), (v: string) => Strip(v) == name, h, (v: Cell) => DesktopApp.Matches(v, name));
  }

  lemma CleanedMatchesRaw(h: seq<Cell>, name: string)
    requires WebApp.TextOnly(h) && name != [] && NotPlaceholder(name)
    ensures forall i :: 0 <= i < |h| ==> (Strip(WebApp.CleanHeaders(h)[i]) == name) == DesktopApp.Matches(h[i], name)
  {
    var names := WebApp.CleanHeaders(h);
    forall i | 0 <= i < |h|
      ensures (Strip(names[i]) == name) == DesktopApp.Matches(h[i], name)
    {
      assert names[i] == WebApp.CleanHeader(i, h[i]);
      HeaderMatchAgrees(i, h[i], name);
    }
  }

  /** At one position: the cleaned name strips to `name` exactly when the
      raw cell is a string that strips to `name`. */
  lemma HeaderMatchAgrees(i: nat, c: Cell, name: string)
    requires !c.Num? && name != [] && NotPlaceholder(name)
    ensures (Strip(WebApp.CleanHeader(i, c)) == name) == DesktopApp.Matches(c, name)
  {
    WebApp.CleanHeaderFacts(i, c);
    if !WebApp.HasOwnName(c) {
      var p := WebApp.Placeholder(i);
      assert WebApp.CleanHeader(i, c) == p;
      assert p != name by {
        if |name| > 7 {
          assert p[..7] != name[..7];
        }
      }
      assert !DesktopApp.Matches(c, name);
    }
  }

  /** The eight requested names are non-empty and not placeholders. */
  lemma RequiredNamesPlain()
    ensures forall j :: 0 <= j < |Required| ==> Required[j].name != [] && NotPlaceholder(Required[j].name)
  {
    assert "Strike Price"[..7] == "Strike ";
  }

  /** On a text grid with a header row, both lookups give the same
      positions for each of the eight requested names. */
  lemma RequiredLookupsAgree(raw: RawTable)
    requires |raw| >= 2 && WebApp.TextTable(raw)
    ensures forall j :: 0 <= j < |Required| ==>
      WebApp.WebLookup(raw)(Required[j].name) == DesktopApp.DesktopLookup(raw)(Required[j].name)
  {
    RequiredNamesPlain();
    var h := HeaderRow(raw);
    assert WebApp.TextOnly(h);
    forall j | 0 <= j < |Required|
      ensures WebApp.WebLookup(raw)(Required[j].name) == DesktopApp.DesktopLookup(raw)(Required[j].name)
    {
      HeaderLookupsAgree(h, Required[j].name);
    }
  }

  /** On a text grid with a header row, the web front-end yields a frame
      exactly when the desktop one does, and the same frame. */
  lemma FrontEndsAgree(raw: RawTable, parse: string -> Option<real>)
    requires |raw| >= 2 && WebApp.TextTable(raw)
    ensures WebApp.ProcessOptionChain(raw, parse).Some? <==> DesktopApp.ProcessOptionChain(raw, parse).Ok?
    ensures WebApp.ProcessOptionChain(raw, parse).Some? ==>
      WebApp.ProcessOptionChain(raw, parse).value == DesktopApp.ProcessOptionChain(raw, parse).value
  {
    var web := WebApp.WebLookup(raw);
    var desk := DesktopApp.DesktopLookup(raw);
    RequiredLookupsAgree(raw);
    RunDependsOnRequestedNames(raw, web, desk, parse);
    var r := Run(raw, web, parse);
    assert WebApp.ProcessOptionChain(raw, parse) == if r.Ok? then Some(r.value) else None;
    assert DesktopApp.ProcessOptionChain(raw, parse) == if r.Ok? then Ok(r.value) else Err(DesktopApp.MissingColumn(r.error));
  }
}
