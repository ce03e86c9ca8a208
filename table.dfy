/** The in-memory table the cleaning stages hand to one another: named,
    typed columns of optional cells, all of the same length. */
module Table {

  datatype Option<+T> = None | Some(value: T) {
    predicate IsFailure() { None? }
    function PropagateFailure<U>(): Option<U> requires None? { None }
    function Extract(): T requires Some? { value }
  }

  /** The exceptions a stage can raise: a `KeyError` on a column lookup, a
      `TypeError` from column arithmetic, and the `ValueError` of
      `to_datetime` for the first value that does not match the format, held
      here as that value's row. */
  datatype Error =
    | MissingColumn(name: string)
    | TypeMismatch(name: string)
    | ParseError(row: nat)

  datatype Result<+T> = Success(value: T) | Failure(error: Error) {
    predicate IsFailure() { Failure? }
    function PropagateFailure<U>(): Result<U> requires Failure? { Failure(error) }
    function Extract(): T requires Success? { value }
  }

  datatype Outcome = Pass | Fail(error: Error)

  /** The state a mutating stage leaves the table in, and whether it raised. */
  datatype Effect = Effect(frame: Frame, outcome: Outcome)

  datatype DateTime = DateTime(year: int, month: int, day: int, hour: int, minute: int, second: int)

  /** One cell; `Missing` is pandas' NaN / NaT. */
  datatype Value = Missing | Str(s: string) | Int(i: int) | Real(r: real) | Stamp(t: DateTime)

  /** Column dtypes: `object` (text), `int64`, `float64`, `category` with its
      category set, and `datetime64`. */
  datatype Dtype = Object | Int64 | Float64 | Category(categories: set<Value>) | DateTime64

  datatype Column = Column(name: string, dtype: Dtype, cells: seq<Value>)

  datatype Frame = Frame(columns: seq<Column>, rows: nat)

  predicate IsNumeric(d: Dtype) { d.Int64? || d.Float64? }

  /** What a column of dtype `d` can hold: an `int64` column has no NaN, a
      `category` column holds only its categories (or NaN). */
  predicate Fits(d: Dtype, v: Value) {
    match d
    case Object => v.Missing? || v.Str?
    case Int64 => v.Int?
    case Float64 => v.Missing? || v.Real?
    case Category(cats) => v.Missing? || v in cats
    case DateTime64 => v.Missing? || v.Stamp?
  }

  predicate ColumnOk(c: Column, rows: nat) {
    && |c.cells| == rows
    && (forall i :: 0 <= i < |c.cells| ==> Fits(c.dtype, c.cells[i]))
    && (c.dtype.Category? ==> Missing !in c.dtype.categories)
  }

  /** A row on which adding text to another column fails even when pandas
      retries: a string beside a present value that is not a string. */
  predicate Clashes(text: Value, other: Value) {
    text.Str? && !other.Missing? && !other.Str?
  }

  /** Whether `a + b` on two columns of the same length raises a
      `TypeError`. Two numeric columns add and two text columns concatenate.
      For text beside a numeric column numpy's element-wise add fails, and
      pandas retries on the rows where both sides are present (NaN on the
      others), so it raises only when such a row holds a string and a
      number. A categorical or datetime operand refuses the addition. */
  predicate AddRaises(a: Column, b: Column)
    requires |a.cells| == |b.cells|
  {
    if (IsNumeric(a.dtype) && IsNumeric(b.dtype)) || (a.dtype.Object? && b.dtype.Object?) then false
    else if a.dtype.Object? && IsNumeric(b.dtype) then
      exists i :: 0 <= i < |a.cells| && Clashes(a.cells[i], b.cells[i])
    else if IsNumeric(a.dtype) && b.dtype.Object? then
      exists i :: 0 <= i < |a.cells| && Clashes(b.cells[i], a.cells[i])
    else true
  }

  predicate DistinctNames(cols: seq<Column>) {
    forall j, k :: 0 <= j < k < |cols| ==> cols[j].name != cols[k].name
  }

  predicate WellFormed(f: Frame) {
    && (forall k :: 0 <= k < |f.columns| ==> ColumnOk(f.columns[k], f.rows))
    && DistinctNames(f.columns)
  }

  function Names(cols: seq<Column>): (r: seq<string>)
    ensures |r| == |cols|
    ensures forall k :: 0 <= k < |cols| ==> r[k] == cols[k].name
  {
    seq(|cols|, k requires 0 <= k < |cols| => cols[k].name)
  }

  /** Position of the first occurrence of `name`, as pandas' column index finds it. */
  function IndexOf(names: seq<string>, name: string): (r: Option<nat>)
    ensures r.Some? ==> r.value < |names| && names[r.value] == name
    ensures r.Some? ==> forall j :: 0 <= j < r.value ==> names[j] != name
    ensures r.None? <==> name !in names
  {
    if |names| == 0 then None
    else if names[0] == name then Some(0)
    else match IndexOf(names[1..], name)
      case None => None
      case Some(k) => Some(k + 1)
  }

  function Lookup(cols: seq<Column>, name: string): (r: Option<nat>)
    ensures r.Some? ==> r.value < |cols| && cols[r.value].name == name
    ensures r.None? <==> forall k :: 0 <= k < |cols| ==> cols[k].name != name
  {
    IndexOf(Names(cols), name)
  }

  /** The distinct non-null values of a column. */
  function PresentValues(cells: seq<Value>): set<Value> {
    set v | v in cells && v != Missing
  }

  predicate HasColumn(f: Frame, name: string) {
    name in Names(f.columns)
  }

  /** With distinct names, a column found anywhere is the one `Lookup` finds. */
  lemma LookupFinds(cols: seq<Column>, k: nat)
    requires DistinctNames(cols) && k < |cols|
    ensures Lookup(cols, cols[k].name) == Some(k)
  {
  }

  /** Number of positions of `xs` where `p` holds. */
  function CountIf<T>(xs: seq<T>, p: T -> bool): (n: nat)
    ensures n == |Where(xs, p)|
    ensures n <= |xs|
  {
    if |xs| == 0 then
      assert Where(xs, p) == {};
      0
    else
      var m := |xs| - 1;
      WhereSnoc(xs, p);
      CountIf(xs[..m], p) + (if p(xs[m]) then 1 else 0)
  }

  /** The positions of `xs` where `p` holds: the reference for `CountIf`. */
  function Where<T>(xs: seq<T>, p: T -> bool): set<nat> {
    set i: nat | i < |xs| && p(xs[i])
  }

  lemma WhereSnoc<T>(xs: seq<T>, p: T -> bool)
    requires |xs| > 0
    ensures var m := |xs| - 1;
      Where(xs, p) == Where(xs[..m], p) + (if p(xs[m]) then {m} else {})
    ensures |xs| - 1 !in Where(xs[..|xs| - 1], p)
  {
  }

  lemma SubsetCard<T>(a: set<T>, b: set<T>)
    requires a <= b
    ensures |a| <= |b|
  {
    assert b == a + (b - a);
  }

  /** `CountIf` is monotone in its predicate. */
  lemma CountIfMono<T>(xs: seq<T>, p: T -> bool, q: T -> bool)
    requires forall i :: 0 <= i < |xs| ==> p(xs[i]) ==> q(xs[i])
    ensures CountIf(xs, p) <= CountIf(xs, q)
  {
    assert Where(xs, p) <= Where(xs, q);
    SubsetCard(Where(xs, p), Where(xs, q));
  }

  /** Positions where `p` fails and positions where it holds make up all of `xs`. */
  lemma {:induction false} CountIfComplement<T>(xs: seq<T>, p: T -> bool, q: T -> bool)
    requires forall i :: 0 <= i < |xs| ==> (q(xs[i]) <==> !p(xs[i]))
    ensures CountIf(xs, p) + CountIf(xs, q) == |xs|
  {
    if |xs| > 0 {
      CountIfComplement(xs[..|xs| - 1], p, q);
    }
  }
}
