/** The metric deriver shared by both front-ends: the four derived columns
    and the 12-column frame in its fixed order. */
module Derive {
  import opened Wrappers
  import opened Cells
  import opened Rounding

  /** `y` is what `round(0)` gives for the exact value `x`: a whole number,
      nearest to `x`, the even one on a tie. */
  predicate RoundedFrom(y: real, x: real) {
    y == y.Floor as real && NearestEven(x, y.Floor)
  }

  /** `.round(0)` on one entry; NaN stays NaN. */
  function Round(v: Value): (r: Value)
    ensures r.Some? <==> v.Some?
    ensures r.Some? ==> RoundedFrom(r.value, v.value)
  {
    match v
    case None => None
    case Some(x) => Some(RoundHalfEven(x) as real)
  }

  /** Divisor of the notional-flow estimate (`10_000_000`). */
  const MoneyDivisor: real := 10000000.0

  /** `((oi_chg * vwap) / 10_000_000).round(0)` for one row. */
  function Money(oiChange: Value, vwap: Value): (m: Value)
    ensures m.Some? <==> oiChange.Some? && vwap.Some?
    ensures m.Some? ==> RoundedFrom(m.value, oiChange.value * vwap.value / MoneyDivisor)
  {
    if oiChange.Some? && vwap.Some? then Round(Some(oiChange.value * vwap.value / MoneyDivisor))
    else None
  }

  /** `(strike + vwap).round(0)`: the call side's breakeven for one row. */
  function CallBreakeven(strike: Value, vwap: Value): (b: Value)
    ensures b.Some? <==> strike.Some? && vwap.Some?
    ensures b.Some? ==> RoundedFrom(b.value, strike.value + vwap.value)
  {
    if strike.Some? && vwap.Some? then Round(Some(strike.value + vwap.value)) else None
  }

  /** `(strike - vwap).round(0)`: the put side's breakeven for one row. */
  function PutBreakeven(strike: Value, vwap: Value): (b: Value)
    ensures b.Some? <==> strike.Some? && vwap.Some?
    ensures b.Some? ==> RoundedFrom(b.value, strike.value - vwap.value)
  {
    if strike.Some? && vwap.Some? then Round(Some(strike.value - vwap.value)) else None
  }

  /** A column of the output frame: `Time` keeps its raw cells, every
      other column holds coerced numbers. */
  datatype Column = Cells(cells: seq<Cell>) | Numbers(values: seq<Value>)

  function Length(c: Column): nat
  {
    match c
    case Cells(cs) => |cs|
    case Numbers(vs) => |vs|
  }

  datatype Named = Named(name: string, column: Column)

  /** A pandas DataFrame as its columns, left to right. */
  type Frame = seq<Named>

  function Names(f: Frame): (ns: seq<string>)
    ensures |ns| == |f|
    ensures forall j :: 0 <= j < |f| ==> ns[j] == f[j].name
  {
    seq(|f|, j requires 0 <= j < |f| => f[j].name)
  }

  predicate Distinct(ns: seq<string>) {
    forall i, j :: 0 <= i < j < |ns| ==> ns[i] != ns[j]
  }

  /** Position of the first `name` in `ns`. */
  function IndexOf(ns: seq<string>, name: string): (r: Option<nat>)
    ensures r.None? <==> name !in ns
    ensures r.Some? ==> r.value < |ns| && ns[r.value] == name && name !in ns[..r.value]
  {
    if ns == [] then None
    else if ns[0] == name then Some(0)
    else match IndexOf(ns[1..], name)
      case None => None
      case Some(i) => assert ns[1..][..i] == ns[1..i + 1]; Some(i + 1)
  }

  /** `out[name] = column`: replaces a column of that name in place,
      otherwise appends one at the right. */
  function Assign(f: Frame, name: string, c: Column): (g: Frame)
    ensures name !in Names(f) ==> g == f + [Named(name, c)]
    ensures name in Names(f) ==> |g| == |f| && Names(g) == Names(f)
    ensures name in Names(f) ==> var i := IndexOf(Names(f), name).value;
      g[i] == Named(name, c) && forall j :: 0 <= j < |f| && j != i ==> g[j] == f[j]
    ensures Distinct(Names(f)) ==> Distinct(Names(g))
    ensures name in Names(g)
  {
    match IndexOf(Names(f), name)
    case None =>
      assert Names(f + [Named(name, c)]) == Names(f) + [name];
      f + [Named(name, c)]
    case Some(i) =>
      assert Names(f[i := Named(name, c)]) == Names(f);
      f[i := Named(name, c)]
  }

  /** `out[names]`: the named columns in the requested order; pandas
      raises KeyError (here `None`) when a name is absent. */
  function Select(f: Frame, names: seq<string>): (r: Option<Frame>)
    ensures r.Some? <==> forall j :: 0 <= j < |names| ==> names[j] in Names(f)
    ensures r.Some? ==> Names(r.value) == names
  {
    if names == [] then Some([])
    else match IndexOf(Names(f), names[|names| - 1])
      case None => None
      case Some(i) =>
        match Select(f, names[..|names| - 1])
        case None => None
        case Some(g) => Some(g + [f[i]])
  }

  /** Each selected column is the first of the frame's columns with the
      requested name. */
  lemma {:induction false} SelectPicks(f: Frame, names: seq<string>)
    requires Select(f, names).Some?
    ensures forall j :: 0 <= j < |names| ==>
      Select(f, names).value[j] == f[IndexOf(Names(f), names[j]).value]
  {
    if names != [] {
      SelectPicks(f, names[..|names| - 1]);
    }
  }

  /** Selecting every column of a frame with distinct names, in its own
      order, gives the frame back. */
  lemma SelectOwnOrder(f: Frame)
    requires Distinct(Names(f))
    ensures Select(f, Names(f)) == Some(f)
  {
    var ns := Names(f);
    assert forall j :: 0 <= j < |ns| ==> ns[j] in ns;
    var r := Select(f, ns);
    assert r.Some?;
    SelectPicks(f, ns);
    forall j | 0 <= j < |f| ensures r.value[j] == f[j] {
      IndexOfUnique(ns, ns[j], j);
    }
    assert r.value == f;
  }

  lemma IndexOfUnique(ns: seq<string>, name: string, i: nat)
    requires Distinct(ns) && i < |ns| && ns[i] == name
    ensures IndexOf(ns, name) == Some(i)
  {
  }

  /** The output layout, left to right. */
  const FinalOrder: seq<string> := [
    "Time",
    "CE OI CHANGE", "CE OI", "CE MONEY", "CE BEP", "CE VWAP",
    "Strike Price",
    "PE VWAP", "PE BEP", "PE MONEY", "PE OI", "PE OI CHANGE"
  ]

  lemma FinalOrderDistinct()
    ensures |FinalOrder| == 12 && Distinct(FinalOrder)
  {
  }

  function MoneySeries(oiChange: seq<Value>, vwap: seq<Value>): (m: seq<Value>)
    requires |oiChange| == |vwap|
    ensures |m| == |vwap|
    ensures forall i :: 0 <= i < |m| ==> m[i] == Money(oiChange[i], vwap[i])
  {
    seq(|vwap|, i requires 0 <= i < |vwap| => Money(oiChange[i], vwap[i]))
  }

  function CallBreakevenSeries(strike: seq<Value>, vwap: seq<Value>): (b: seq<Value>)
    requires |strike| == |vwap|
    ensures |b| == |vwap|
    ensures forall i :: 0 <= i < |b| ==> b[i] == CallBreakeven(strike[i], vwap[i])
  {
    seq(|vwap|, i requires 0 <= i < |vwap| => CallBreakeven(strike[i], vwap[i]))
  }

  function PutBreakevenSeries(strike: seq<Value>, vwap: seq<Value>): (b: seq<Value>)
    requires |strike| == |vwap|
    ensures |b| == |vwap|
    ensures forall i :: 0 <= i < |b| ==> b[i] == PutBreakeven(strike[i], vwap[i])
  {
    seq(|vwap|, i requires 0 <= i < |vwap| => PutBreakeven(strike[i], vwap[i]))
  }

  /** The eight looked-up series, aligned on the data rows: Time raw,
      the rest coerced to numbers. */
  datatype Extracted = Extracted(
    time: seq<Cell>, strike: seq<Value>,
    ceOiChange: seq<Value>, ceOi: seq<Value>, ceVwap: seq<Value>,
    peVwap: seq<Value>, peOi: seq<Value>, peOiChange: seq<Value>)

  /** The series come from one data block, so they share its row count. */
  predicate Aligned(e: Extracted) {
    var n := |e.time|;
    |e.strike| == n && |e.ceOiChange| == n && |e.ceOi| == n && |e.ceVwap| == n
    && |e.peVwap| == n && |e.peOi| == n && |e.peOiChange| == n
  }

  /** The twelve column assignments of the source, in its order. */
  function Assignments(e: Extracted): (cs: Frame)
    requires Aligned(e)
    ensures Names(cs) == FinalOrder
  {
    [ Named("Time", Cells(e.time)),
      Named("CE OI CHANGE", Numbers(e.ceOiChange)),
      Named("CE OI", Numbers(e.ceOi)),
      Named("CE MONEY", Numbers(MoneySeries(e.ceOiChange, e.ceVwap))),
      Named("CE BEP", Numbers(CallBreakevenSeries(e.strike, e.ceVwap))),
      Named("CE VWAP", Numbers(e.ceVwap)),
      Named("Strike Price", Numbers(e.strike)),
      Named("PE VWAP", Numbers(e.peVwap)),
      Named("PE BEP", Numbers(PutBreakevenSeries(e.strike, e.peVwap))),
      Named("PE MONEY", Numbers(MoneySeries(e.peOiChange, e.peVwap))),
      Named("PE OI", Numbers(e.peOi)),
      Named("PE OI CHANGE", Numbers(e.peOiChange)) ]
  }

  /** Performs the assignments `out[name] = column` one after another;
      the frame's columns keep their names and places. */
  function AssignAll(f: Frame, cs: Frame): (g: Frame)
    ensures |f| <= |g| && Names(g)[..|f|] == Names(f)
    decreases |cs|
  {
    if cs == [] then f
    else
      var h := Assign(f, cs[0].name, cs[0].column);
      var g := AssignAll(h, cs[1..]);
      assert Names(g)[..|f|] == Names(g)[..|h|][..|f|];
      g
  }

  /** After the assignments every assigned name is a column. */
  lemma {:induction false} AssignAllCovers(f: Frame, cs: Frame)
    ensures forall j :: 0 <= j < |cs| ==> cs[j].name in Names(AssignAll(f, cs))
    decreases |cs|
  {
    if cs != [] {
      var h := Assign(f, cs[0].name, cs[0].column);
      var g := AssignAll(h, cs[1..]);
      assert AssignAll(f, cs) == g;
      AssignAllCovers(h, cs[1..]);
      var i :| 0 <= i < |Names(h)| && Names(h)[i] == cs[0].name;
      assert Names(g)[..|h|][i] == cs[0].name;
      forall j | 1 <= j < |cs| ensures cs[j].name in Names(g) {
        assert cs[j] == cs[1..][j - 1];
      }
    }
  }

  /** One assignment adds at most its own name. */
  lemma AssignNamesFrom(f: Frame, name: string, c: Column)
    ensures forall n :: n in Names(Assign(f, name, c)) ==> n in Names(f) || n == name
  {
    if name !in Names(f) {
      assert Names(Assign(f, name, c)) == Names(f) + [name];
    }
  }

  /** Every column name after the assignments was already there or was
      assigned. */
  lemma {:induction false} AssignAllNamesFrom(f: Frame, cs: Frame)
    ensures forall n :: n in Names(AssignAll(f, cs)) ==> n in Names(f) || n in Names(cs)
    decreases |cs|
  {
    if cs != [] {
      var x := cs[0].name;
      var h := Assign(f, x, cs[0].column);
      var g := AssignAll(h, cs[1..]);
      assert AssignAll(f, cs) == g;
      AssignAllNamesFrom(h, cs[1..]);
      AssignNamesFrom(f, x, cs[0].column);
      forall n | n in Names(g) && n !in Names(f) ensures n in Names(cs) {
        if n == x {
          assert Names(cs)[0] == n;
        } else {
          var k :| 0 <= k < |cs| - 1 && Names(cs[1..])[k] == n;
          assert Names(cs)[k + 1] == n;
        }
      }
    }
  }

  /** Assignments keep the column names pairwise different. */
  lemma {:induction false} AssignAllDistinct(f: Frame, cs: Frame)
    requires Distinct(Names(f))
    ensures Distinct(Names(AssignAll(f, cs)))
    decreases |cs|
  {
    if cs != [] {
      AssignAllDistinct(Assign(f, cs[0].name, cs[0].column), cs[1..]);
    }
  }

  /** Assigning fresh, pairwise different names appends the columns in order. */
  lemma {:induction false} AssignFreshAppends(f: Frame, cs: Frame)
    requires Distinct(Names(f + cs))
    ensures AssignAll(f, cs) == f + cs
    decreases |cs|
  {
    if cs != [] {
      var nf := Names(f + cs);
      assert nf[|f|] == cs[0].name;
      assert cs[0].name !in Names(f) by {
        forall i | 0 <= i < |f| ensures Names(f)[i] != cs[0].name {
          assert Names(f)[i] == nf[i];
        }
      }
      var g := Assign(f, cs[0].name, cs[0].column);
      assert g + cs[1..] == f + cs;
      AssignFreshAppends(g, cs[1..]);
    }
  }

  /** `out`, as the source builds it from an empty frame. */
  function Assemble(e: Extracted): (out: Frame)
    requires Aligned(e)
    ensures out == Assignments(e)
  {
    FinalOrderDistinct();
    assert [] + Assignments(e) == Assignments(e);
    AssignFreshAppends([], Assignments(e));
    AssignAll([], Assignments(e))
  }

  lemma SelectFinalOrder(e: Extracted)
    requires Aligned(e)
    ensures Select(Assemble(e), FinalOrder) == Some(Assemble(e))
  {
    FinalOrderDistinct();
    SelectOwnOrder(Assemble(e));
  }

  /** The output layout: the twelve names in the fixed order, every
      column `n` rows long. */
  predicate CanonicalShape(t: Frame, n: nat) {
    Names(t) == FinalOrder && forall j :: 0 <= j < |t| ==> Length(t[j].column) == n
  }

  /** `out[final_order]`: the assembled columns, picked in the fixed order. */
  function Canonical(e: Extracted): (t: Frame)
    requires Aligned(e)
    ensures Names(t) == FinalOrder
    ensures t == Assignments(e)
  {
    SelectFinalOrder(e);
    Select(Assemble(e), FinalOrder).value
  }

  /** The columns of the output, as the assignments give them: Time and
      the six looked-up numeric series pass through unchanged, and the
      four derived columns follow the formulas row by row. */
  predicate Layout(t: Frame, e: Extracted)
    requires Aligned(e)
  {
    && |t| == 12
    && (forall j :: 0 <= j < |t| ==> Length(t[j].column) == |e.time|)
    && t[0].column == Cells(e.time)
    && t[1].column == Numbers(e.ceOiChange)
    && t[2].column == Numbers(e.ceOi)
    && t[5].column == Numbers(e.ceVwap)
    && t[6].column == Numbers(e.strike)
    && t[7].column == Numbers(e.peVwap)
    && t[10].column == Numbers(e.peOi)
    && t[11].column == Numbers(e.peOiChange)
    && t[3].column.Numbers? && t[4].column.Numbers? && t[8].column.Numbers? && t[9].column.Numbers?
    && (forall i :: 0 <= i < |e.time| ==>
          && t[3].column.values[i] == Money(e.ceOiChange[i], e.ceVwap[i])
          && t[4].column.values[i] == CallBreakeven(e.strike[i], e.ceVwap[i])
          && t[8].column.values[i] == PutBreakeven(e.strike[i], e.peVwap[i])
          && t[9].column.values[i] == Money(e.peOiChange[i], e.peVwap[i]))
  }

  /** The output has exactly the twelve columns in the fixed order, each
      one entry per data row; Time and the six looked-up numeric series
      pass through unchanged, and the four derived columns follow the
      formulas row by row. */
  lemma CanonicalLayout(e: Extracted)
    requires Aligned(e)
    ensures Names(Canonical(e)) == FinalOrder && Layout(Canonical(e), e)
  {
    AssignmentsLayout(e);
  }

  lemma AssignmentsLayout(e: Extracted)
    requires Aligned(e)
    ensures Layout(Assignments(e), e)
  {
    var t := Assignments(e);
    AssignmentLengths(e);
    var n := |e.time|;
    assert forall i :: 0 <= i < n ==> t[3].column.values[i] == Money(e.ceOiChange[i], e.ceVwap[i]);
    assert forall i :: 0 <= i < n ==> t[9].column.values[i] == Money(e.peOiChange[i], e.peVwap[i]);
  }

  /** Every assigned column has one entry per data row. */
  lemma AssignmentLengths(e: Extracted)
    requires Aligned(e)
    ensures forall j :: 0 <= j < |Assignments(e)| ==> Length(Assignments(e)[j].column) == |e.time|
  {
    var t := Assignments(e);
    forall j | 0 <= j < |t| ensures Length(t[j].column) == |e.time| {
      if j < 3 {
        assert j == 0 || j == 1 || j == 2;
      } else if j < 6 {
        assert j == 3 || j == 4 || j == 5;
      } else if j < 9 {
        assert j == 6 || j == 7 || j == 8;
      } else {
        assert j == 9 || j == 10 || j == 11;
      }
    }
  }
}
