/** `validate_financial_integrity`: every row should satisfy
    Sales = cogs + Tax 5% up to numpy's `isclose` tolerance. The stage only
    reports; the table it returns is the one it was given. Numbers are
    `real` here, an exact stand-in for the floating-point values. */
module Integrity {
  import opened Table

  const CogsName: string := "cogs"
  const TaxName: string := "Tax 5%"
  const SalesName: string := "Sales"

  /** The absolute tolerance the stage passes, and numpy's default relative one. */
  const Atol: real := 0.01
  const Rtol: real := 0.00001

  function Abs(x: real): (r: real)
    ensures r >= 0.0 && (r == x || r == -x)
  {
    if x < 0.0 then -x else x
  }

  /** `np.isclose(a, b)`: the tolerance grows with the second argument only.
      Equal numbers are close, numbers within `Atol` are close, and for a
      second argument of at most one a gap beyond `Atol + Rtol` is not. */
  function IsClose(a: real, b: real): (r: bool)
    ensures a == b ==> r
    ensures Abs(a - b) <= Atol ==> r
    ensures Abs(b) <= 1.0 && Abs(a - b) > Atol + Rtol ==> !r
  {
    Abs(a - b) <= Atol + Rtol * Abs(b)
  }

  /** The number a cell holds; NaN and non-numbers have none. */
  function AsNumber(v: Value): (r: Option<real>)
    ensures r.Some? <==> v.Int? || v.Real?
  {
    match v
    case Int(i) => Some(i as real)
    case Real(x) => Some(x)
    case _ => None
  }

  /** One row's three amounts. */
  datatype Line = Line(sales: Value, cogs: Value, tax: Value)

  /** A row that passes: all three amounts present and Sales close to
      cogs + Tax 5%. NaN compares unequal to everything, so a row with a
      missing amount fails. */
  predicate Agrees(l: Line) {
    && AsNumber(l.sales).Some? && AsNumber(l.cogs).Some? && AsNumber(l.tax).Some?
    && IsClose(AsNumber(l.sales).value, AsNumber(l.cogs).value + AsNumber(l.tax).value)
  }

  predicate Disagrees(l: Line) {
    !Agrees(l)
  }

  function Lines(sales: seq<Value>, cogs: seq<Value>, tax: seq<Value>): (r: seq<Line>)
    requires |sales| == |cogs| == |tax|
    ensures |r| == |sales|
    ensures forall i :: 0 <= i < |r| ==> r[i] == Line(sales[i], cogs[i], tax[i])
  {
    seq(|sales|, i requires 0 <= i < |sales| => Line(sales[i], cogs[i], tax[i]))
  }

  /** What the stage reports: success, or the number of inconsistent rows. */
  datatype Report = Consistent | Inconsistent(discrepancies: nat)

  /** `np.allclose` over the rows, then the count of rows `np.isclose` rejects. */
  function Check(lines: seq<Line>): (r: Report)
    ensures r.Consistent? <==> forall i :: 0 <= i < |lines| ==> Agrees(lines[i])
    ensures r.Inconsistent? ==> r.discrepancies == |Where(lines, Disagrees)|
    ensures r.Inconsistent? ==> 1 <= r.discrepancies <= |lines|
  {
    if forall i :: 0 <= i < |lines| ==> Agrees(lines[i]) then Consistent
    else
      CountIfPositive(lines, Disagrees);
      Inconsistent(CountIf(lines, Disagrees))
  }

  /** A position where `p` holds makes the count positive. */
  lemma CountIfPositive<T>(xs: seq<T>, p: T -> bool)
    requires exists i :: 0 <= i < |xs| && p(xs[i])
    ensures CountIf(xs, p) >= 1
  {
    var i :| 0 <= i < |xs| && p(xs[i]);
    assert i in Where(xs, p);
  }

  /** The stage as the table sees it: `KeyError` on a missing `cogs`, then
      `Tax 5%`; `TypeError` when the two cannot be added (`AddRaises`);
      `KeyError` on a missing `Sales`; `TypeError` when `isclose` is handed
      a sum or a Sales column that is not numeric; otherwise the report. */
  function ValidateFinancialIntegrity(f: Frame): (r: Result<Report>)
    requires WellFormed(f)
    ensures r.Failure? ==> r.error.MissingColumn? || r.error.TypeMismatch?
  {
    match Lookup(f.columns, CogsName)
    case None => Failure(MissingColumn(CogsName))
    case Some(c) =>
      match Lookup(f.columns, TaxName)
      case None => Failure(MissingColumn(TaxName))
      case Some(t) =>
        if AddRaises(f.columns[c], f.columns[t]) then
          Failure(TypeMismatch(if IsNumeric(f.columns[c].dtype) then TaxName else CogsName))
        else
          match Lookup(f.columns, SalesName)
          case None => Failure(MissingColumn(SalesName))
          case Some(s) =>
            if !IsNumeric(f.columns[c].dtype) then Failure(TypeMismatch(CogsName))
            else if !IsNumeric(f.columns[t].dtype) then Failure(TypeMismatch(TaxName))
            else if !IsNumeric(f.columns[s].dtype) then Failure(TypeMismatch(SalesName))
            else Success(Check(Lines(f.columns[s].cells, f.columns[c].cells, f.columns[t].cells)))
  }

  // ---------------------------------------------------------------------------
  // Lemmas

  /** With the three numeric columns present, the stage reports success
      exactly when no row is inconsistent, and otherwise the number of rows
      where |Sales - (cogs + Tax 5%)| exceeds 0.01 + 1e-5 * |cogs + Tax 5%|
      or an amount is missing. */
  lemma ValidateCounts(f: Frame, s: nat, c: nat, t: nat)
    requires WellFormed(f)
    requires s < |f.columns| && f.columns[s].name == SalesName && IsNumeric(f.columns[s].dtype)
    requires c < |f.columns| && f.columns[c].name == CogsName && IsNumeric(f.columns[c].dtype)
    requires t < |f.columns| && f.columns[t].name == TaxName && IsNumeric(f.columns[t].dtype)
    ensures var r := ValidateFinancialIntegrity(f);
      var bad := set i: nat | i < f.rows && Disagrees(Line(f.columns[s].cells[i], f.columns[c].cells[i], f.columns[t].cells[i]));
      && r.Success?
      && (r.value.Consistent? <==> bad == {})
      && (r.value.Inconsistent? ==> r.value.discrepancies == |bad| && 1 <= |bad| <= f.rows)
  {
    LookupFinds(f.columns, s);
    LookupFinds(f.columns, c);
    LookupFinds(f.columns, t);
    var lines := Lines(f.columns[s].cells, f.columns[c].cells, f.columns[t].cells);
    var bad := set i: nat | i < f.rows && Disagrees(Line(f.columns[s].cells[i], f.columns[c].cells[i], f.columns[t].cells[i]));
    assert Where(lines, Disagrees) == bad;
  }

  /** A missing column is reported in the order the stage reads them: cogs,
      then Tax 5%, then (once the two have been added) Sales. */
  lemma ValidateMissing(f: Frame)
    requires WellFormed(f)
    ensures !HasColumn(f, CogsName) ==> ValidateFinancialIntegrity(f) == Failure(MissingColumn(CogsName))
    ensures HasColumn(f, CogsName) && !HasColumn(f, TaxName) ==> ValidateFinancialIntegrity(f) == Failure(MissingColumn(TaxName))
    ensures var c, t := Lookup(f.columns, CogsName), Lookup(f.columns, TaxName);
      c.Some? && t.Some? && !AddRaises(f.columns[c.value], f.columns[t.value]) && !HasColumn(f, SalesName) ==>
        ValidateFinancialIntegrity(f) == Failure(MissingColumn(SalesName))
  {
  }

  /** Text cogs beside a numeric Tax 5%: the sum raises a `TypeError`
      exactly when some row holds both a string and a number. Otherwise it
      is a text column of NaN, so a missing Sales raises a `KeyError` and a
      present one a `TypeError` in `isclose`. */
  lemma ValidateTextCogs(f: Frame, c: nat, t: nat)
    requires WellFormed(f)
    requires c < |f.columns| && f.columns[c].name == CogsName && f.columns[c].dtype.Object?
    requires t < |f.columns| && f.columns[t].name == TaxName && IsNumeric(f.columns[t].dtype)
    ensures var clash := exists i :: 0 <= i < f.rows && f.columns[c].cells[i].Str? && !f.columns[t].cells[i].Missing?;
      ValidateFinancialIntegrity(f) ==
        if !clash && !HasColumn(f, SalesName) then Failure(MissingColumn(SalesName))
        else Failure(TypeMismatch(CogsName))
  {
    LookupFinds(f.columns, c);
    LookupFinds(f.columns, t);
    var a, b := f.columns[c], f.columns[t];
    assert (exists i :: 0 <= i < f.rows && a.cells[i].Str? && !b.cells[i].Missing?)
      <==> (exists i :: 0 <= i < |a.cells| && Clashes(a.cells[i], b.cells[i]));
  }

  /** A row whose Sales is exactly cogs + Tax 5% is consistent. */
  lemma ExactRowAgrees(sales: real, cogs: real, tax: real)
    requires sales == cogs + tax
    ensures Agrees(Line(Real(sales), Real(cogs), Real(tax)))
  {
  }

  /** 10.00 + 0.50 against 10.50 passes; 10.52 is off by more than 0.01. */
  lemma ToleranceExamples()
    ensures Agrees(Line(Real(10.50), Real(10.00), Real(0.50)))
    ensures Disagrees(Line(Real(10.52), Real(10.00), Real(0.50)))
  {
  }

  /** The relative term matters: 1000.015 is within 0.01 + 1e-5 * 1000 of
      1000 although it is more than 0.01 away. */
  lemma RelativeToleranceExample()
    ensures Abs(1000.015 - 1000.0) > Atol
    ensures Agrees(Line(Real(1000.015), Real(990.0), Real(10.0)))
  {
  }

  /** `isclose` is not symmetric: the tolerance scales with cogs + Tax 5%. */
  lemma IsCloseAsymmetric()
    ensures IsClose(0.0, 1000.0) == false
    ensures exists a: real, b: real :: IsClose(a, b) && !IsClose(b, a)
  {
    assert IsClose(999989.99, 1000000.0);
    assert !IsClose(1000000.0, 999989.99);
  }

  /** A missing amount makes the row inconsistent whatever the others are. */
  lemma MissingDisagrees(a: Value, b: Value)
    ensures Disagrees(Line(Missing, a, b)) && Disagrees(Line(a, Missing, b)) && Disagrees(Line(a, b, Missing))
  {
  }
}
