/** The count columns of `generate_quality_summary`: one row per column of
    the table, holding its dtype, the table's row count, and per-column
    counts of present, missing, distinct, zero and negative values. */
module Summary {
  import opened Table

  /** One row of the quality report. `missingPercent` is `None` where pandas
      gets NaN (the mean of no rows); `negatives` is `None` for a column that
      is not numeric, which the report leaves empty. */
  datatype SummaryRow = SummaryRow(
    dtype: Dtype,
    totalRows: nat,
    nonNull: nat,
    missingPercent: Option<real>,
    unique: nat,
    zeros: nat,
    negatives: Option<nat>)

  predicate IsPresent(v: Value) { !v.Missing? }
  predicate IsAbsent(v: Value) { v.Missing? }

  /** `== 0`: true for a number equal to zero and for nothing else. */
  predicate IsZero(v: Value) { v == Int(0) || v == Real(0.0) }

  /** `.lt(0)`: NaN compares false. */
  predicate IsNegative(v: Value) { (v.Int? && v.i < 0) || (v.Real? && v.r < 0.0) }

  /** `df.isna().mean() * 100`, before rounding. */
  function MissingPercent(cells: seq<Value>): (r: Option<real>)
    ensures r.None? <==> |cells| == 0
  {
    if |cells| == 0 then None else Some(CountIf(cells, IsAbsent) as real / |cells| as real * 100.0)
  }

  /** The report row for column `c` of a table of `rows` rows. */
  function Row(c: Column, rows: nat): (r: SummaryRow)
    ensures r.dtype == c.dtype && r.totalRows == rows
    ensures r.unique <= r.nonNull <= |c.cells| && r.zeros <= r.nonNull
    ensures r.negatives.Some? <==> IsNumeric(c.dtype)
  {
    UniqueAtMostNonNull(c.cells);
    CountIfMono(c.cells, IsZero, IsPresent);
    SummaryRow(
      c.dtype,
      rows,
      CountIf(c.cells, IsPresent),
      MissingPercent(c.cells),
      |PresentValues(c.cells)|,
      CountIf(c.cells, IsZero),
      if IsNumeric(c.dtype) then Some(CountIf(c.cells, IsNegative)) else None)
  }

  /** The report, keyed by column name. */
  function QualitySummary(f: Frame): (r: map<string, SummaryRow>)
    requires WellFormed(f)
    ensures r.Keys == set k | 0 <= k < |f.columns| :: f.columns[k].name
    ensures forall k :: 0 <= k < |f.columns| ==> r[f.columns[k].name] == Row(f.columns[k], f.rows)
  {
    forall k | 0 <= k < |f.columns| ensures Lookup(f.columns, f.columns[k].name) == Some(k) {
      LookupFinds(f.columns, k);
    }
    map n | n in Names(f.columns) :: Row(f.columns[Lookup(f.columns, n).value], f.rows)
  }

  // ---------------------------------------------------------------------------
  // Lemmas

  /** The distinct values of a prefix, one element at a time. */
  lemma PresentValuesSnoc(xs: seq<Value>)
    requires |xs| > 0
    ensures var m := |xs| - 1;
      PresentValues(xs) == PresentValues(xs[..m]) + (if IsPresent(xs[m]) then {xs[m]} else {})
  {
    var m := |xs| - 1;
    assert xs == xs[..m] + [xs[m]];
  }

  /** There are no more distinct present values than present values. */
  lemma {:induction false} UniqueAtMostNonNull(xs: seq<Value>)
    ensures |PresentValues(xs)| <= CountIf(xs, IsPresent)
  {
    if |xs| == 0 {
      assert PresentValues(xs) == {};
    } else {
      var m := |xs| - 1;
      PresentValuesSnoc(xs);
      UniqueAtMostNonNull(xs[..m]);
    }
  }

  /** Missing values and present values make up the column. */
  lemma MissingIsRest(xs: seq<Value>)
    ensures CountIf(xs, IsAbsent) == |xs| - CountIf(xs, IsPresent)
  {
    CountIfComplement(xs, IsPresent, IsAbsent);
  }

  /** The bounds every report row keeps: the total is the table's row count;
      present, distinct, zero and negative counts never exceed it in that
      order; Missing (%) is (Total - Non-Null) / Total * 100; Negatives is
      given exactly for numeric columns; a text or timestamp column has no
      zeros. */
  lemma RowBounds(c: Column, rows: nat)
    requires ColumnOk(c, rows)
    ensures var r := Row(c, rows);
      && r.dtype == c.dtype
      && r.totalRows == rows
      && r.nonNull <= r.totalRows
      && r.unique <= r.nonNull
      && r.zeros <= r.nonNull
      && (r.negatives.Some? <==> IsNumeric(c.dtype))
      && (r.negatives.Some? ==> r.negatives.value <= r.nonNull)
      && (r.missingPercent.None? <==> rows == 0)
      && (r.missingPercent.Some? ==> r.missingPercent.value == (r.totalRows - r.nonNull) as real / r.totalRows as real * 100.0)
      && (c.dtype.Object? || c.dtype.DateTime64? ==> r.zeros == 0)
  {
    UniqueAtMostNonNull(c.cells);
    CountIfMono(c.cells, IsZero, IsPresent);
    CountIfMono(c.cells, IsNegative, IsPresent);
    MissingIsRest(c.cells);
    if c.dtype.Object? || c.dtype.DateTime64? {
      CountIfMono(c.cells, IsZero, (v: Value) => false);
      assert Where(c.cells, (v: Value) => false) == {};
    }
  }

  /** A sequence without repeats has as many distinct elements as positions. */
  lemma {:induction false} DistinctCard(names: seq<string>)
    requires forall j, k :: 0 <= j < k < |names| ==> names[j] != names[k]
    ensures |set n | n in names| == |names|
  {
    if |names| > 0 {
      var m := |names| - 1;
      DistinctCard(names[..m]);
      assert (set n | n in names) == (set n | n in names[..m]) + {names[m]};
    }
  }

  /** The report has exactly one row per column. */
  lemma SummaryShape(f: Frame)
    requires WellFormed(f)
    ensures |QualitySummary(f)| == |f.columns|
    ensures forall n :: n in QualitySummary(f) <==> HasColumn(f, n)
  {
    var names := Names(f.columns);
    DistinctCard(names);
    assert QualitySummary(f).Keys == set n | n in names;
  }

  /** A sample column: [0, 0, 5, -3, NaN]. */
  function ExampleCells(): (r: seq<Value>)
    ensures |r| == 5
  {
    [Real(0.0), Real(0.0), Real(5.0), Real(-3.0), Missing]
  }

  lemma ExampleCounts()
    ensures CountIf(ExampleCells(), IsPresent) == 4
    ensures CountIf(ExampleCells(), IsAbsent) == 1
  {
    var cells := ExampleCells();
    assert Where(cells, IsAbsent) == {4} by {
      forall i | i in Where(cells, IsAbsent) ensures i == 4 {
      }
    }
    MissingIsRest(cells);
  }

  lemma ExampleZeros()
    ensures CountIf(ExampleCells(), IsZero) == 2
    ensures CountIf(ExampleCells(), IsNegative) == 1
  {
    var cells := ExampleCells();
    assert Where(cells, IsZero) == {0, 1} by {
      forall i | i in Where(cells, IsZero) ensures i == 0 || i == 1 {
      }
    }
    assert Where(cells, IsNegative) == {3} by {
      forall i | i in Where(cells, IsNegative) ensures i == 3 {
      }
    }
  }

  lemma ExampleUnique()
    ensures |PresentValues(ExampleCells())| == 3
  {
    var cells := ExampleCells();
    assert PresentValues(cells) == {Real(0.0), Real(5.0), Real(-3.0)} by {
      forall v | v in PresentValues(cells) ensures v == Real(0.0) || v == Real(5.0) || v == Real(-3.0) {
      }
      assert cells[0] == Real(0.0) && cells[2] == Real(5.0) && cells[3] == Real(-3.0);
    }
  }

  /** The column [0, 0, 5, -3, NaN]: four present values (20% missing),
      three distinct values (NaN is not counted), two zeros, one negative. */
  lemma SummaryExample()
    ensures Row(Column("x", Float64, ExampleCells()), 5) == SummaryRow(Float64, 5, 4, Some(20.0), 3, 2, Some(1))
  {
    ExampleCounts();
    ExampleZeros();
    ExampleUnique();
  }
}
