/** `optimize_types`: retag six columns as categorical, parse `Date + " " +
    Time` into a new `Full_Date` column, and drop `Date` and `Time`. The
    functions here give the state the table is left in;
    `Frames.DataFrame.OptimizeTypes` performs it. */
module Optimize {
  import opened Table
  import DateTimeFormat

  const CategoryColumns: seq<string> := ["Branch", "City", "Customer type", "Gender", "Product line", "Payment"]
  const DateName: string := "Date"
  const TimeName: string := "Time"
  const FullDate: string := "Full_Date"

  // ---------------------------------------------------------------------------
  // Categorical columns

  /** `astype("category")`: the cells are kept, only the dtype changes; the
      categories are the column's distinct non-null values. */
  function AsCategory(c: Column): (r: Column)
    ensures r.name == c.name && r.cells == c.cells && r.dtype.Category?
  {
    if c.dtype.Category? then c else c.(dtype := Category(PresentValues(c.cells)))
  }

  /** The table with every column named in `names` retagged. */
  function Categorize(f: Frame, names: seq<string>): (g: Frame)
    ensures g.rows == f.rows && |g.columns| == |f.columns| && Names(g.columns) == Names(f.columns)
  {
    f.(columns := seq(|f.columns|, k requires 0 <= k < |f.columns| =>
      if f.columns[k].name in names then AsCategory(f.columns[k]) else f.columns[k]))
  }

  /** Index in `names` of the first name the table lacks, or |names|. */
  function FirstAbsent(f: Frame, names: seq<string>): (k: nat)
    ensures k <= |names|
    ensures forall j :: 0 <= j < k ==> HasColumn(f, names[j])
    ensures k < |names| ==> !HasColumn(f, names[k])
  {
    if |names| == 0 || !HasColumn(f, names[0]) then 0 else 1 + FirstAbsent(f, names[1..])
  }

  // ---------------------------------------------------------------------------
  // Date and Time into Full_Date

  /** `Date + " " + Time` on one row; NaN on either side gives NaN. */
  function JoinCell(d: Value, t: Value): (r: Value)
    ensures r.Str? <==> d.Str? && t.Str?
    ensures !r.Str? ==> r.Missing?
    ensures r.Str? ==> |r.s| == |d.s| + 1 + |t.s| && r.s[..|d.s|] == d.s && r.s[|d.s|] == ' ' && r.s[|d.s| + 1..] == t.s
  {
    if d.Str? && t.Str? then Str(d.s + " " + t.s) else Missing
  }

  function JoinCells(ds: seq<Value>, ts: seq<Value>): (r: seq<Value>)
    requires |ds| == |ts|
    ensures |r| == |ds|
  {
    seq(|ds|, i requires 0 <= i < |ds| => JoinCell(ds[i], ts[i]))
  }

  /** What `to_datetime` makes of one value: NaN stays NaT, a string is
      parsed with the format, and `None` means the value is rejected. */
  function ConvertCell(v: Value): (r: Option<Value>)
    ensures r.Some? ==> r.value.Stamp? || r.value.Missing?
    ensures r.Some? && r.value.Stamp? ==> v.Str? && DateTimeFormat.ValidDateTime(r.value.t)
    ensures !v.Str? ==> r == Some(Missing)
  {
    if v.Str? then
      match DateTimeFormat.ParseTimestamp(v.s)
      case Some(t) => Some(Stamp(t))
      case None => None
    else Some(Missing)
  }

  /** A value `to_datetime` accepts. */
  predicate Parses(v: Value) {
    ConvertCell(v).Some?
  }

  /** Convert every element, or report the first one that cannot be. */
  function ConvertAll<T, U>(xs: seq<T>, conv: T -> Option<U>): (r: Result<seq<U>>)
    ensures r.Success? ==> |r.value| == |xs|
    ensures r.Failure? ==> r.error.ParseError? && r.error.row < |xs|
  {
    if |xs| == 0 then Success([])
    else
      var m := |xs| - 1;
      match ConvertAll(xs[..m], conv)
      case Failure(e) => Failure(e)
      case Success(prefix) =>
        match conv(xs[m])
        case Some(y) => Success(prefix + [y])
        case None => Failure(ParseError(m))
  }

  /** `pd.to_datetime(cells, format=...)`: all values convert, or the call
      raises naming a value that does not, and nothing is produced
      (`ToDatetimeAllOrNothing` states which value). */
  function ToDatetime(cells: seq<Value>): (r: Result<seq<Value>>)
    ensures r.Success? ==> |r.value| == |cells|
  {
    ConvertAll(cells, ConvertCell)
  }

  /** `df["Date"] + " " + df["Time"]` then `to_datetime`. `Date` is looked up
      and added to " " before `Time` is looked up; adding a string to a
      column that is not text raises a `TypeError`. Adding `Time` raises
      as `AddRaises` says; a row where either side is NaN joins to NaN. */
  function FullDateCells(f: Frame): (r: Result<seq<Value>>)
    requires WellFormed(f)
    ensures r.Success? ==> |r.value| == f.rows
    ensures r.Failure? ==>
      || r.error in {MissingColumn(DateName), TypeMismatch(DateName), MissingColumn(TimeName), TypeMismatch(TimeName)}
      || (r.error.ParseError? && r.error.row < f.rows)
  {
    var d :- match Lookup(f.columns, DateName) case None => Failure(MissingColumn(DateName)) case Some(d) => Success(d);
    if !f.columns[d].dtype.Object? then Failure(TypeMismatch(DateName)) else
    var t :- match Lookup(f.columns, TimeName) case None => Failure(MissingColumn(TimeName)) case Some(t) => Success(t);
    if AddRaises(f.columns[d], f.columns[t]) then Failure(TypeMismatch(TimeName)) else
    ToDatetime(JoinCells(f.columns[d].cells, f.columns[t].cells))
  }

  /** `df[c.name] = ...`: replace the column of that name in place, or append. */
  function WithColumn(f: Frame, c: Column): Frame {
    match Lookup(f.columns, c.name)
    case Some(k) => f.(columns := f.columns[k := c])
    case None => f.(columns := f.columns + [c])
  }

  /** The columns whose names are not in `drop`, in order. */
  function Keep(cols: seq<Column>, drop: set<string>): (r: seq<Column>)
    ensures |r| <= |cols|
    ensures forall c :: c in r <==> c in cols && c.name !in drop
  {
    if |cols| == 0 then []
    else (if cols[0].name in drop then [] else [cols[0]]) + Keep(cols[1..], drop)
  }

  /** `df.drop(columns=drop)` with every dropped column present. */
  function DropColumns(f: Frame, drop: set<string>): Frame {
    f.(columns := Keep(f.columns, drop))
  }

  /** The names of `names` not in `drop`, in order. */
  function Without(names: seq<string>, drop: set<string>): seq<string> {
    if |names| == 0 then []
    else (if names[0] in drop then [] else [names[0]]) + Without(names[1..], drop)
  }

  /** The table after `optimize_types`, and whether it raised. A missing
      category column stops the loop with the earlier ones retagged; a
      failure on Date/Time leaves all six retagged and nothing else changed. */
  function OptimizeTypesEffect(f: Frame): (r: Effect)
    requires WellFormed(f)
    ensures r.frame.rows == f.rows
    ensures r.outcome.Fail? ==> r.frame == Categorize(f, CategoryColumns[..FirstAbsent(f, CategoryColumns)])
  {
    var k := FirstAbsent(f, CategoryColumns);
    var g := Categorize(f, CategoryColumns[..k]);
    if k < |CategoryColumns| then Effect(g, Fail(MissingColumn(CategoryColumns[k])))
    else
      CategorizeOk(f, CategoryColumns);
      match FullDateCells(g)
      case Failure(e) => Effect(g, Fail(e))
      case Success(cells) =>
        Effect(DropColumns(WithColumn(g, Column(FullDate, DateTime64, cells)), {DateName, TimeName}), Pass)
  }

  // ---------------------------------------------------------------------------
  // Lemmas

  /** `ConvertAll` succeeds exactly when every element converts, and then
      holds each converted element; otherwise it names the first element
      that does not convert. */
  lemma {:induction false} ConvertAllSpec<T, U>(xs: seq<T>, conv: T -> Option<U>)
    ensures var r := ConvertAll(xs, conv);
      && (r.Success? <==> forall i :: 0 <= i < |xs| ==> conv(xs[i]).Some?)
      && (r.Success? ==> forall i :: 0 <= i < |xs| ==> conv(xs[i]) == Some(r.value[i]))
      && (r.Failure? ==> conv(xs[r.error.row]).None? && forall i :: 0 <= i < r.error.row ==> conv(xs[i]).Some?)
  {
    if |xs| > 0 {
      var m := |xs| - 1;
      var init := xs[..m];
      ConvertAllSpec(init, conv);
      assert forall i :: 0 <= i < m ==> init[i] == xs[i];
      match ConvertAll(init, conv)
      case Failure(e) =>
      case Success(prefix) =>
        match conv(xs[m])
        case Some(y) =>
          var r := prefix + [y];
          assert forall i :: 0 <= i < m ==> r[i] == prefix[i];
        case None =>
    }
  }

  /** `to_datetime` succeeds exactly when every value parses, converting
      each as `ConvertCell` does; otherwise it names the first value that
      does not parse. */
  lemma ToDatetimeAllOrNothing(cells: seq<Value>)
    ensures var r := ToDatetime(cells);
      && (r.Success? <==> forall i :: 0 <= i < |cells| ==> Parses(cells[i]))
      && (r.Success? ==> forall i :: 0 <= i < |cells| ==> ConvertCell(cells[i]) == Some(r.value[i]))
      && (r.Failure? ==> (
            && r.error.ParseError? && r.error.row < |cells| && !Parses(cells[r.error.row])
            && forall i :: 0 <= i < r.error.row ==> Parses(cells[i])))
  {
    ConvertAllSpec(cells, ConvertCell);
  }

  /** `FirstAbsent` is the first absent name: the one the loop over the six
      names raises on. */
  lemma {:induction false} FirstAbsentIs(f: Frame, names: seq<string>, j: nat)
    requires j <= |names|
    requires forall i :: 0 <= i < j ==> HasColumn(f, names[i])
    requires j < |names| ==> !HasColumn(f, names[j])
    ensures FirstAbsent(f, names) == j
  {
    if j > 0 {
      FirstAbsentIs(f, names[1..], j - 1);
    }
  }

  lemma AsCategoryOk(c: Column, rows: nat)
    requires ColumnOk(c, rows)
    ensures ColumnOk(AsCategory(c), rows)
  {
  }

  lemma CategorizeOk(f: Frame, names: seq<string>)
    requires WellFormed(f)
    ensures WellFormed(Categorize(f, names))
  {
    var g := Categorize(f, names);
    forall k | 0 <= k < |f.columns| ensures ColumnOk(g.columns[k], g.rows) {
      AsCategoryOk(f.columns[k], f.rows);
    }
  }

  /** Retagging one more column: the loop step of `DataFrame.OptimizeTypes`. */
  lemma CategorizeStep(f: Frame, names: seq<string>, k: nat)
    requires DistinctNames(f.columns) && k < |f.columns|
    ensures var g := Categorize(f, names);
      Categorize(f, names + [f.columns[k].name]) ==
        g.(columns := g.columns[k := AsCategory(g.columns[k])])
    ensures Categorize(f, names + [f.columns[k].name]).columns[k] == AsCategory(f.columns[k])
  {
  }

  lemma {:induction false} KeepNames(cols: seq<Column>, drop: set<string>)
    ensures Names(Keep(cols, drop)) == Without(Names(cols), drop)
  {
    if |cols| > 0 {
      KeepNames(cols[1..], drop);
      var head: seq<Column> := if cols[0].name in drop then [] else [cols[0]];
      NamesAppend(head, Keep(cols[1..], drop));
      assert Names(cols)[0] == cols[0].name;
      assert Names(cols)[1..] == Names(cols[1..]);
    }
  }

  lemma NamesAppend(a: seq<Column>, b: seq<Column>)
    ensures Names(a + b) == Names(a) + Names(b)
  {
  }

  lemma {:induction false} KeepDistinct(cols: seq<Column>, drop: set<string>)
    requires DistinctNames(cols)
    ensures DistinctNames(Keep(cols, drop))
  {
    if |cols| > 0 {
      KeepDistinct(cols[1..], drop);
      var rest := Keep(cols[1..], drop);
      forall c | c in rest ensures c.name != cols[0].name {
        var j :| 0 <= j < |cols[1..]| && cols[1..][j] == c;
        assert cols[j + 1] == c;
      }
    }
  }

  lemma {:induction false} KeepSnoc(cols: seq<Column>, c: Column, drop: set<string>)
    requires c.name !in drop
    ensures Keep(cols + [c], drop) == Keep(cols, drop) + [c]
  {
    if |cols| == 0 {
      assert cols + [c] == [c];
    } else {
      assert (cols + [c])[1..] == cols[1..] + [c];
      KeepSnoc(cols[1..], c, drop);
    }
  }

  lemma {:induction false} WithoutSnoc(names: seq<string>, n: string, drop: set<string>)
    requires n !in drop
    ensures Without(names + [n], drop) == Without(names, drop) + [n]
  {
    if |names| == 0 {
      assert names + [n] == [n];
    } else {
      assert (names + [n])[1..] == names[1..] + [n];
      WithoutSnoc(names[1..], n, drop);
    }
  }

  lemma DropOk(f: Frame, drop: set<string>)
    requires WellFormed(f)
    ensures WellFormed(DropColumns(f, drop))
  {
    KeepDistinct(f.columns, drop);
    var r := Keep(f.columns, drop);
    forall k | 0 <= k < |r| ensures ColumnOk(r[k], f.rows) {
      assert r[k] in f.columns;
    }
  }

  lemma WithColumnOk(f: Frame, c: Column)
    requires WellFormed(f) && ColumnOk(c, f.rows)
    ensures WellFormed(WithColumn(f, c))
    ensures Lookup(WithColumn(f, c).columns, c.name).Some?
    ensures WithColumn(f, c).rows == f.rows
    ensures forall k :: 0 <= k < |f.columns| && f.columns[k].name != c.name ==> WithColumn(f, c).columns[k] == f.columns[k]
    ensures Names(WithColumn(f, c).columns) == if HasColumn(f, c.name) then Names(f.columns) else Names(f.columns) + [c.name]
    ensures forall d :: d in WithColumn(f, c).columns ==> d == c || d in f.columns
  {
    var g := WithColumn(f, c);
    match Lookup(f.columns, c.name)
    case Some(k) =>
      assert Names(g.columns) == Names(f.columns);
      assert g.columns[k] == c;
    case None =>
      assert g.columns[|f.columns|] == c;
      assert Names(g.columns) == Names(f.columns) + [c.name];
  }

  /** The Full_Date column built from a well-formed table fits its dtype. */
  lemma FullDateOk(f: Frame)
    requires WellFormed(f) && FullDateCells(f).Success?
    ensures ColumnOk(Column(FullDate, DateTime64, FullDateCells(f).value), f.rows)
  {
    var d := Lookup(f.columns, DateName).value;
    var t := Lookup(f.columns, TimeName).value;
    ToDatetimeAllOrNothing(JoinCells(f.columns[d].cells, f.columns[t].cells));
  }

  /** After `optimize_types` the table is still well formed with the same row
      count, whether or not it raised. */
  lemma OptimizeTypesShape(f: Frame)
    requires WellFormed(f)
    ensures WellFormed(OptimizeTypesEffect(f).frame)
    ensures OptimizeTypesEffect(f).frame.rows == f.rows
  {
    var k := FirstAbsent(f, CategoryColumns);
    var g := Categorize(f, CategoryColumns[..k]);
    CategorizeOk(f, CategoryColumns[..k]);
    if k == |CategoryColumns| && FullDateCells(g).Success? {
      FullDateOk(g);
      var c := Column(FullDate, DateTime64, FullDateCells(g).value);
      WithColumnOk(g, c);
      DropOk(WithColumn(g, c), {DateName, TimeName});
    }
  }

  /** A category column that is absent makes `optimize_types` raise a
      `KeyError` for the first absent one, with the earlier ones already
      retagged. Once the six are present, an absent Date raises a
      `KeyError`, a Date that is not text a `TypeError` (before Time is
      looked up), and then an absent Time a `KeyError`; each leaves the six
      retagged and nothing else changed. */
  lemma OptimizeTypesMissing(f: Frame)
    requires WellFormed(f)
    ensures var e := OptimizeTypesEffect(f);
      && (forall j :: 0 <= j < |CategoryColumns| && !HasColumn(f, CategoryColumns[j]) ==>
            var k := FirstAbsent(f, CategoryColumns);
            && k <= j
            && e == Effect(Categorize(f, CategoryColumns[..k]), Fail(MissingColumn(CategoryColumns[k]))))
      && (FirstAbsent(f, CategoryColumns) == |CategoryColumns| && !HasColumn(f, DateName) ==>
            e == Effect(Categorize(f, CategoryColumns), Fail(MissingColumn(DateName))))
    ensures var e, d := OptimizeTypesEffect(f), Lookup(f.columns, DateName);
      FirstAbsent(f, CategoryColumns) == |CategoryColumns| && d.Some? ==>
        && (!f.columns[d.value].dtype.Object? ==>
              e == Effect(Categorize(f, CategoryColumns), Fail(TypeMismatch(DateName))))
        && (f.columns[d.value].dtype.Object? && !HasColumn(f, TimeName) ==>
              e == Effect(Categorize(f, CategoryColumns), Fail(MissingColumn(TimeName))))
    ensures var e, d, t := OptimizeTypesEffect(f), Lookup(f.columns, DateName), Lookup(f.columns, TimeName);
      FirstAbsent(f, CategoryColumns) == |CategoryColumns| && d.Some? && t.Some? && f.columns[d.value].dtype.Object? ==>
        (e == Effect(Categorize(f, CategoryColumns), Fail(TypeMismatch(TimeName))) <==> AddRaises(f.columns[d.value], f.columns[t.value]))
  {
    assert CategoryColumns[..|CategoryColumns|] == CategoryColumns;
    var d := Lookup(f.columns, DateName);
    var t := Lookup(f.columns, TimeName);
    if FirstAbsent(f, CategoryColumns) == |CategoryColumns| && d.Some? {
      DateUntouched(f, d.value);
      if t.Some? {
        TimeUntouched(f, t.value);
      }
    }
  }

  /** The retagging leaves Time where it was, unchanged. */
  lemma TimeUntouched(f: Frame, t: nat)
    requires WellFormed(f) && Lookup(f.columns, TimeName) == Some(t)
    ensures var g := Categorize(f, CategoryColumns);
      Lookup(g.columns, TimeName) == Some(t) && g.columns[t] == f.columns[t]
  {
    var g := Categorize(f, CategoryColumns);
    assert Names(g.columns) == Names(f.columns);
    assert TimeName !in CategoryColumns;
  }

  /** A numeric Time column (one left empty in the CSV is read as float64
      NaN) beside a text Date: the addition raises a `TypeError` exactly
      when some row holds both a date and a number; otherwise every row joins
      to NaN and the stage completes with Full_Date all NaT. */
  lemma OptimizeTypesNumericTime(f: Frame, d: nat, t: nat)
    requires WellFormed(f)
    requires forall n :: n in CategoryColumns ==> HasColumn(f, n)
    requires d < |f.columns| && f.columns[d].name == DateName && f.columns[d].dtype.Object?
    requires t < |f.columns| && f.columns[t].name == TimeName && IsNumeric(f.columns[t].dtype)
    ensures var e := OptimizeTypesEffect(f);
      var clash := exists i :: 0 <= i < f.rows && f.columns[d].cells[i].Str? && !f.columns[t].cells[i].Missing?;
      && (clash ==> e == Effect(Categorize(f, CategoryColumns), Fail(TypeMismatch(TimeName))))
      && (!clash ==> e.outcome.Pass? && Column(FullDate, DateTime64, seq(f.rows, i => Missing)) in e.frame.columns)
  {
    var g := Categorize(f, CategoryColumns);
    EffectOnceRetagged(f);
    LookupFinds(f.columns, d);
    LookupFinds(f.columns, t);
    DateUntouched(f, d);
    TimeUntouched(f, t);
    FullDateNumericTime(g, d, t);
    if FullDateCells(g).Success? {
      FullDateOk(g);
      FullDateKept(g, FullDateCells(g).value);
    }
  }

  /** With the six category columns present, the stage ends as the Date and
      Time conversion on the retagged table does. */
  lemma EffectOnceRetagged(f: Frame)
    requires WellFormed(f)
    requires forall n :: n in CategoryColumns ==> HasColumn(f, n)
    ensures var g := Categorize(f, CategoryColumns);
      && WellFormed(g)
      && (FullDateCells(g).Failure? ==> OptimizeTypesEffect(f) == Effect(g, Fail(FullDateCells(g).error)))
      && (FullDateCells(g).Success? ==>
            OptimizeTypesEffect(f) ==
              Effect(DropColumns(WithColumn(g, Column(FullDate, DateTime64, FullDateCells(g).value)), {DateName, TimeName}), Pass))
  {
    var k := FirstAbsent(f, CategoryColumns);
    assert k == |CategoryColumns|;
    assert CategoryColumns[..k] == CategoryColumns;
    CategorizeOk(f, CategoryColumns);
  }

  /** The Full_Date column survives the drop of Date and Time. */
  lemma FullDateKept(g: Frame, cells: seq<Value>)
    requires WellFormed(g) && ColumnOk(Column(FullDate, DateTime64, cells), g.rows)
    ensures Column(FullDate, DateTime64, cells) in DropColumns(WithColumn(g, Column(FullDate, DateTime64, cells)), {DateName, TimeName}).columns
  {
    var c := Column(FullDate, DateTime64, cells);
    WithColumnHas(g, c);
    DropLeaves(WithColumn(g, c), {DateName, TimeName});
  }

  /** `FullDateCells` with a text Date and a numeric Time: a `TypeError`
      when some row holds both, and NaT on every row otherwise. */
  lemma FullDateNumericTime(g: Frame, d: nat, t: nat)
    requires WellFormed(g)
    requires Lookup(g.columns, DateName) == Some(d) && g.columns[d].dtype.Object?
    requires Lookup(g.columns, TimeName) == Some(t) && IsNumeric(g.columns[t].dtype)
    ensures var clash := exists i :: 0 <= i < g.rows && g.columns[d].cells[i].Str? && !g.columns[t].cells[i].Missing?;
      FullDateCells(g) == if clash then Failure(TypeMismatch(TimeName)) else Success(seq(g.rows, i => Missing))
  {
    var ds, ts := g.columns[d].cells, g.columns[t].cells;
    assert (exists i :: 0 <= i < g.rows && ds[i].Str? && !ts[i].Missing?) <==> AddRaises(g.columns[d], g.columns[t]);
    if !AddRaises(g.columns[d], g.columns[t]) {
      var joined := JoinCells(ds, ts);
      forall i | 0 <= i < g.rows ensures joined[i] == Missing {
        assert Fits(g.columns[t].dtype, ts[i]);
      }
      ToDatetimeAllOrNothing(joined);
      assert ToDatetime(joined).value == seq(g.rows, i => Missing);
    }
  }

  /** The retagging leaves Date where it was, unchanged, and keeps the names. */
  lemma DateUntouched(f: Frame, d: nat)
    requires WellFormed(f) && Lookup(f.columns, DateName) == Some(d)
    ensures var g := Categorize(f, CategoryColumns);
      && Lookup(g.columns, DateName) == Some(d) && g.columns[d] == f.columns[d]
      && (HasColumn(g, TimeName) <==> HasColumn(f, TimeName))
  {
    var g := Categorize(f, CategoryColumns);
    assert Names(g.columns) == Names(f.columns);
    assert DateName !in CategoryColumns;
  }

  /** With the six category columns present and Date and Time text columns,
      the conversion succeeds exactly when every row parses; otherwise it
      raises naming the first row that does not, and the table keeps Date and
      Time and gains no Full_Date column. */
  lemma OptimizeTypesAllOrNothing(f: Frame, d: nat, t: nat)
    requires WellFormed(f)
    requires forall n :: n in CategoryColumns ==> HasColumn(f, n)
    requires d < |f.columns| && f.columns[d].name == DateName && f.columns[d].dtype.Object?
    requires t < |f.columns| && f.columns[t].name == TimeName && f.columns[t].dtype.Object?
    ensures var e := OptimizeTypesEffect(f);
      var joined := JoinCells(f.columns[d].cells, f.columns[t].cells);
      && (e.outcome.Pass? <==> forall i :: 0 <= i < f.rows ==> Parses(joined[i]))
      && (e.outcome.Fail? ==>
            && e.frame == Categorize(f, CategoryColumns)
            && e.outcome.error.ParseError?
            && e.outcome.error.row < f.rows
            && !Parses(joined[e.outcome.error.row])
            && forall i :: 0 <= i < e.outcome.error.row ==> Parses(joined[i]))
  {
    var k := FirstAbsent(f, CategoryColumns);
    assert k == |CategoryColumns|;
    assert CategoryColumns[..k] == CategoryColumns;
    var g := Categorize(f, CategoryColumns);
    LookupFinds(f.columns, d);
    LookupFinds(f.columns, t);
    assert !(DateName in CategoryColumns) && !(TimeName in CategoryColumns);
    assert g.columns[d] == f.columns[d] && g.columns[t] == f.columns[t];
    ToDatetimeAllOrNothing(JoinCells(f.columns[d].cells, f.columns[t].cells));
  }

  /** The column a table's column becomes under the retagging. */
  function Retagged(c: Column): Column {
    if c.name in CategoryColumns then AsCategory(c) else c
  }

  /** The success path of `OptimizeTypesEffect`, spelled out. */
  lemma PassFrame(f: Frame)
    requires WellFormed(f) && OptimizeTypesEffect(f).outcome.Pass?
    ensures var g := Categorize(f, CategoryColumns);
      && WellFormed(g)
      && FullDateCells(g).Success?
      && OptimizeTypesEffect(f).frame ==
           DropColumns(WithColumn(g, Column(FullDate, DateTime64, FullDateCells(g).value)), {DateName, TimeName})
  {
    var k6 := FirstAbsent(f, CategoryColumns);
    assert k6 == |CategoryColumns|;
    assert CategoryColumns[..k6] == CategoryColumns;
    CategorizeOk(f, CategoryColumns);
  }

  /** Date and Time (not category columns) pass the retagging unchanged. */
  lemma PassDateTime(f: Frame, d: nat, t: nat)
    requires WellFormed(f)
    requires d < |f.columns| && f.columns[d].name == DateName
    requires t < |f.columns| && f.columns[t].name == TimeName
    requires FullDateCells(Categorize(f, CategoryColumns)).Success?
    ensures FullDateCells(Categorize(f, CategoryColumns)) == ToDatetime(JoinCells(f.columns[d].cells, f.columns[t].cells))
  {
    var g := Categorize(f, CategoryColumns);
    CategorizeOk(f, CategoryColumns);
    LookupFinds(f.columns, d);
    LookupFinds(f.columns, t);
    assert Names(g.columns) == Names(f.columns);
    assert Lookup(g.columns, DateName) == Some(d);
    assert Lookup(g.columns, TimeName) == Some(t);
    assert g.columns[d] == f.columns[d] && g.columns[t] == f.columns[t];
  }

  /** Columns after a drop: none of the dropped names is left, and every
      kept column survives. */
  lemma DropLeaves(w: Frame, drop: set<string>)
    ensures forall n :: n in drop ==> !HasColumn(DropColumns(w, drop), n)
    ensures forall c :: c in w.columns && c.name !in drop ==> c in DropColumns(w, drop).columns
  {
    var h := DropColumns(w, drop);
    forall n | n in drop ensures !HasColumn(h, n) {
      forall j | 0 <= j < |h.columns| ensures Names(h.columns)[j] != n {
        assert h.columns[j] in Keep(w.columns, drop);
      }
    }
  }

  /** The names after the success path. */
  lemma PassNames(g: Frame, c: Column, drop: set<string>)
    requires WellFormed(g) && ColumnOk(c, g.rows) && c.name !in drop
    ensures Names(DropColumns(WithColumn(g, c), drop).columns) ==
      Without(Names(g.columns), drop) + (if HasColumn(g, c.name) then [] else [c.name])
  {
    var w := WithColumn(g, c);
    WithColumnOk(g, c);
    KeepNames(w.columns, drop);
    if !HasColumn(g, c.name) {
      WithoutSnoc(Names(g.columns), c.name, drop);
    }
  }

  /** The new column is in the table `WithColumn` returns, and so are the
      columns of other names. */
  lemma WithColumnHas(g: Frame, c: Column)
    requires WellFormed(g) && ColumnOk(c, g.rows)
    ensures c in WithColumn(g, c).columns
    ensures forall k :: 0 <= k < |g.columns| && g.columns[k].name != c.name ==> g.columns[k] in WithColumn(g, c).columns
  {
    var w := WithColumn(g, c);
    WithColumnOk(g, c);
    forall k | 0 <= k < |g.columns| && g.columns[k].name != c.name ensures g.columns[k] in w.columns {
      assert w.columns[k] == g.columns[k];
    }
    match Lookup(g.columns, c.name)
    case Some(j) => assert w.columns[j] == c;
    case None => assert w.columns[|g.columns|] == c;
  }

  /** What the success path does to the retagged table `g`, given the
      converted cells: the shape, stated over any table. */
  lemma FinishShape(g: Frame, cells: seq<Value>)
    requires WellFormed(g) && ColumnOk(Column(FullDate, DateTime64, cells), g.rows)
    ensures var h := DropColumns(WithColumn(g, Column(FullDate, DateTime64, cells)), {DateName, TimeName});
      && !HasColumn(h, DateName) && !HasColumn(h, TimeName)
      && Names(h.columns) == Without(Names(g.columns), {DateName, TimeName}) + (if HasColumn(g, FullDate) then [] else [FullDate])
      && Column(FullDate, DateTime64, cells) in h.columns
      && forall k :: 0 <= k < |g.columns| && g.columns[k].name !in {DateName, TimeName, FullDate} ==> g.columns[k] in h.columns
  {
    var c := Column(FullDate, DateTime64, cells);
    var drop := {DateName, TimeName};
    PassNames(g, c, drop);
    WithColumnHas(g, c);
    DropLeaves(WithColumn(g, c), drop);
  }

  /** When `optimize_types` completes, Date and Time are gone, every other
      column keeps its cells (the six category columns retagged), and the
      column order is the old one minus Date and Time, with Full_Date at the
      end unless it already existed. */
  lemma OptimizeTypesColumns(f: Frame)
    requires WellFormed(f)
    requires OptimizeTypesEffect(f).outcome.Pass?
    ensures var h := OptimizeTypesEffect(f).frame;
      && !HasColumn(h, DateName) && !HasColumn(h, TimeName)
      && Names(h.columns) == Without(Names(f.columns), {DateName, TimeName}) + (if HasColumn(f, FullDate) then [] else [FullDate])
      && forall k :: 0 <= k < |f.columns| && f.columns[k].name !in {DateName, TimeName, FullDate} ==>
           Retagged(f.columns[k]) in h.columns
  {
    PassFrame(f);
    var g := Categorize(f, CategoryColumns);
    CategorizeAll(f);
    FullDateOk(g);
    FinishShape(g, FullDateCells(g).value);
  }

  /** The table after the retagging: the same names, each column retagged. */
  lemma CategorizeAll(f: Frame)
    ensures var g := Categorize(f, CategoryColumns);
      && Names(g.columns) == Names(f.columns)
      && HasColumn(g, FullDate) == HasColumn(f, FullDate)
      && forall k :: 0 <= k < |f.columns| ==> g.columns[k] == Retagged(f.columns[k])
  {
  }

  /** When `optimize_types` completes, Full_Date holds, row by row, the
      conversion of `Date + " " + Time`: the timestamp the format reads from
      it, or NaT where either is NaN. */
  lemma OptimizeTypesFullDate(f: Frame, d: nat, t: nat)
    requires WellFormed(f)
    requires d < |f.columns| && f.columns[d].name == DateName
    requires t < |f.columns| && f.columns[t].name == TimeName
    requires OptimizeTypesEffect(f).outcome.Pass?
    ensures var joined := JoinCells(f.columns[d].cells, f.columns[t].cells);
      exists cells ::
        && Column(FullDate, DateTime64, cells) in OptimizeTypesEffect(f).frame.columns
        && |cells| == f.rows
        && forall i :: 0 <= i < f.rows ==> ConvertCell(joined[i]) == Some(cells[i])
  {
    PassFrame(f);
    var g := Categorize(f, CategoryColumns);
    PassDateTime(f, d, t);
    ToDatetimeAllOrNothing(JoinCells(f.columns[d].cells, f.columns[t].cells));
    FullDateOk(g);
    FinishShape(g, FullDateCells(g).value);
  }

  /** A Date cell holding the first ten characters of a date-time written in
      the format and a Time cell holding the rest after the space join into
      a value `to_datetime` reads back as that date-time. */
  lemma JoinConvertFormat(t: DateTime)
    requires DateTimeFormat.ValidDateTime(t)
    ensures var s := DateTimeFormat.Format(t);
      ConvertCell(JoinCell(Str(s[..10]), Str(s[11..]))) == Some(Stamp(t))
  {
    var s := DateTimeFormat.Format(t);
    assert s[..10] + " " + s[11..] == s;
    DateTimeFormat.ParseFormat(t);
  }

  /** A NaN Date or Time gives NaT rather than an error. */
  lemma JoinConvertMissing(v: Value)
    ensures ConvertCell(JoinCell(Missing, v)) == Some(Missing)
    ensures ConvertCell(JoinCell(v, Missing)) == Some(Missing)
  {
  }
}
