/** The occurrence-indexed column lookup both front-ends use, and the
    pipeline that runs the eight lookups and derives the output frame. */
module Extraction {
  import opened Wrappers
  import opened PyStr
  import opened Cells
  import opened Derive

  /** The `KeyError` raised by `series_by_pos` when a header name has too
      few occurrences: the requested name and occurrence, and every
      position where that name was found. */
  datatype KeyError = KeyError(name: string, occurrence: nat, positions: seq<nat>) {

    /** The opening of the message: the column name in quotes, then the
        requested occurrence. */
    function Head(): (h: string)
      ensures var k := NatToString(occurrence);
        && |h| == 21 + |name| + |k| && h[..8] == "Column '"
        && h[8..8 + |name|] == name && h[21 + |name|..] == k
    {
      var lead := "Column '" + name;
      var h := lead + "' occurrence " + NatToString(occurrence);
      assert h[..|lead|] == lead;
      h
    }

    /** The message the error carries: it opens with `Head()` and ends with
        the full list of positions found. */
    function Message(): (m: string)
      ensures |m| >= |Head()| && m[..|Head()|] == Head()
      ensures |m| >= |ListRepr(positions)| && m[|m| - |ListRepr(positions)|..] == ListRepr(positions)
    {
      var body := Head() + " not found.\nAvailable positions for '" + name + "': ";
      var m := body + ListRepr(positions);
      assert m[..|body|] == body && m[|body|..] == ListRepr(positions);
      m
    }
  }

  /** The message names the column and the occurrence that were asked for. */
  lemma MessageNamesColumn(e: KeyError)
    ensures var m := e.Message(); var k := NatToString(e.occurrence);
      && |m| >= 21 + |e.name| + |k| && m[..8] == "Column '" && m[8..8 + |e.name|] == e.name
      && m[21 + |e.name|..21 + |e.name| + |k|] == k
  {
    var m, h := e.Message(), e.Head();
    assert m[..8] == h[..8] && m[8..8 + |e.name|] == h[8..8 + |e.name|];
    assert m[21 + |e.name|..|h|] == h[21 + |e.name|..];
  }

  predicate Increasing(ps: seq<nat>) {
    forall i, j :: 0 <= i < j < |ps| ==> ps[i] < ps[j]
  }

  /** `[i for i, v in enumerate(xs) if p(v)]` */
  function FindAll<T>(xs: seq<T>, p: T -> bool): (ps: seq<nat>)
    ensures Increasing(ps)
    ensures forall j :: 0 <= j < |ps| ==> ps[j] < |xs| && p(xs[ps[j]])
    ensures forall i :: 0 <= i < |xs| && p(xs[i]) ==> i in ps
  {
    if xs == [] then []
    else
      var init := xs[..|xs| - 1];
      assert forall i :: 0 <= i < |init| ==> init[i] == xs[i];
      if p(xs[|xs| - 1]) then FindAll(init, p) + [|xs| - 1] else FindAll(init, p)
  }

  /** The match found k-th is preceded by exactly k matches: the positions
      found in the prefix before it are the first k of the list. */
  lemma {:induction false} FindAllBefore<T>(xs: seq<T>, p: T -> bool, k: nat)
    requires k < |FindAll(xs, p)|
    ensures FindAll(xs[..FindAll(xs, p)[k]], p) == FindAll(xs, p)[..k]
  {
    var init := xs[..|xs| - 1];
    var ps := FindAll(xs, p);
    if p(xs[|xs| - 1]) && k == |FindAll(init, p)| {
      assert ps[k] == |xs| - 1;
      assert ps[..k] == FindAll(init, p);
    } else {
      FindAllBefore(init, p, k);
      assert ps[k] == FindAll(init, p)[k];
      assert xs[..ps[k]] == init[..ps[k]];
      assert ps[..k] == FindAll(init, p)[..k];
    }
  }

  /** Two scans that accept the same positions return the same list. */
  lemma {:induction false} FindAllSame<T, U>(xs: seq<T>, p: T -> bool, ys: seq<U>, q: U -> bool)
    requires |xs| == |ys|
    requires forall i :: 0 <= i < |xs| ==> p(xs[i]) == q(ys[i])
    ensures FindAll(xs, p) == FindAll(ys, q)
  {
    if xs != [] {
      var n := |xs| - 1;
      assert forall i :: 0 <= i < n ==> xs[..n][i] == xs[i] && ys[..n][i] == ys[i];
      FindAllSame(xs[..n], p, ys[..n], q);
    }
  }

  /** One lookup: a header name and which of its occurrences, 0 for the
      first (call side), 1 for the second (put side). */
  datatype Request = Request(name: string, occurrence: nat)

  /** The eight lookups of both front-ends, in the order they run. */
  const Required: seq<Request> := [
    Request("Time", 0), Request("Strike Price", 0),
    Request("OI Chg", 0), Request("OI", 0), Request("VWAP", 0),
    Request("VWAP", 1), Request("OI", 1), Request("OI Chg", 1)
  ]

  /** `col_positions` of a front-end, as a function of the requested name. */
  type Lookup = string -> seq<nat>

  predicate Available(lookup: Lookup, q: Request) {
    |lookup(q.name)| > q.occurrence
  }

  /** The position `series_by_pos` projects, or its KeyError. */
  function Resolve(lookup: Lookup, q: Request): (r: Result<nat, KeyError>)
    ensures r.Err? <==> !Available(lookup, q)
    ensures r.Err? ==> r.error == KeyError(q.name, q.occurrence, lookup(q.name))
    ensures r.Ok? ==> r.value in lookup(q.name) && r.value == lookup(q.name)[q.occurrence]
  {
    var ps := lookup(q.name);
    if |ps| <= q.occurrence then Err(KeyError(q.name, q.occurrence, ps)) else Ok(ps[q.occurrence])
  }

  /** Runs the lookups in order and stops at the first that raises. */
  function ResolveAll(lookup: Lookup, qs: seq<Request>): (r: Result<seq<nat>, KeyError>)
    ensures r.Ok? <==> forall j :: 0 <= j < |qs| ==> Available(lookup, qs[j])
    ensures r.Ok? ==> |r.value| == |qs|
    ensures r.Ok? ==> forall j :: 0 <= j < |qs| ==> r.value[j] == lookup(qs[j].name)[qs[j].occurrence]
    ensures r.Err? ==> exists j :: (0 <= j < |qs| && !Available(lookup, qs[j])
      && (forall i :: 0 <= i < j ==> Available(lookup, qs[i]))
      && r.error == KeyError(qs[j].name, qs[j].occurrence, lookup(qs[j].name)))
  {
    if qs == [] then Ok([])
    else match Resolve(lookup, qs[0])
      case Err(e) => Err(e)
      case Ok(p) =>
        match ResolveAll(lookup, qs[1..])
        case Err(e) =>
          assert forall j :: 0 <= j < |qs| - 1 ==> qs[1..][j] == qs[j + 1];
          Err(e)
        case Ok(ps) => Ok([p] + ps)
  }

  /** The eight series: Time left as raw cells, the other seven coerced
      with `pd.to_numeric(..., errors="coerce")`. */
  function ExtractAt(raw: RawTable, ps: seq<nat>, parse: string -> Option<real>): (e: Extracted)
    requires |ps| == |Required|
    ensures Aligned(e) && |e.time| == DataRowCount(raw)
    ensures e.time == DataColumn(raw, ps[0])
    ensures e.strike == Coerce(DataColumn(raw, ps[1]), parse)
    ensures e.ceOiChange == Coerce(DataColumn(raw, ps[2]), parse)
    ensures e.ceOi == Coerce(DataColumn(raw, ps[3]), parse)
    ensures e.ceVwap == Coerce(DataColumn(raw, ps[4]), parse)
    ensures e.peVwap == Coerce(DataColumn(raw, ps[5]), parse)
    ensures e.peOi == Coerce(DataColumn(raw, ps[6]), parse)
    ensures e.peOiChange == Coerce(DataColumn(raw, ps[7]), parse)
  {
    Extracted(
      DataColumn(raw, ps[0]), Coerce(DataColumn(raw, ps[1]), parse),
      Coerce(DataColumn(raw, ps[2]), parse), Coerce(DataColumn(raw, ps[3]), parse),
      Coerce(DataColumn(raw, ps[4]), parse), Coerce(DataColumn(raw, ps[5]), parse),
      Coerce(DataColumn(raw, ps[6]), parse), Coerce(DataColumn(raw, ps[7]), parse))
  }

  /** The lookups, the coercions and the derived frame, as one step:
      it raises the KeyError of the first lookup that finds too few
      occurrences, and otherwise yields the canonical frame with one row
      per data row. */
  function Run(raw: RawTable, lookup: Lookup, parse: string -> Option<real>): (r: Result<Frame, KeyError>)
    ensures r.Ok? <==> forall j :: 0 <= j < |Required| ==> Available(lookup, Required[j])
    ensures r.Err? ==> exists j :: (0 <= j < |Required| && !Available(lookup, Required[j])
      && (forall i :: 0 <= i < j ==> Available(lookup, Required[i]))
      && r.error == KeyError(Required[j].name, Required[j].occurrence, lookup(Required[j].name)))
    ensures r.Ok? ==> CanonicalShape(r.value, DataRowCount(raw))
    ensures r.Ok? ==> r.value == Canonical(ExtractAt(raw, ResolveAll(lookup, Required).value, parse))
  {
    var ps :- ResolveAll(lookup, Required);
    var e := ExtractAt(raw, ps, parse);
    CanonicalLayout(e);
    Ok(Canonical(e))
  }

  /** Run reads the lookup only at the eight requested names. */
  lemma RunDependsOnRequestedNames(raw: RawTable, l1: Lookup, l2: Lookup, parse: string -> Option<real>)
    requires forall j :: 0 <= j < |Required| ==> l1(Required[j].name) == l2(Required[j].name)
    ensures Run(raw, l1, parse) == Run(raw, l2, parse)
  {
    ResolveAllSame(l1, l2, Required);
  }

  lemma {:induction false} ResolveAllSame(l1: Lookup, l2: Lookup, qs: seq<Request>)
    requires forall j :: 0 <= j < |qs| ==> l1(qs[j].name) == l2(qs[j].name)
    ensures ResolveAll(l1, qs) == ResolveAll(l2, qs)
  {
    if qs != [] {
      assert forall j :: 0 <= j < |qs| - 1 ==> qs[1..][j] == qs[j + 1];
      ResolveAllSame(l1, l2, qs[1..]);
    }
  }
}
