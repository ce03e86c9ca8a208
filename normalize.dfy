/** `clean_strings`: strip every text (`object`) column, then map the Gender
    and Customer type columns to one-letter codes. The functions here give the
    state the table is left in; `Frames.DataFrame.CleanStrings` performs it. */
module Normalize {
  import opened Table
  import Text

  const Gender: string := "Gender"
  const CustomerType: string := "Customer type"
  const GenderCodes: map<string, string> := map["Male" := "M", "Female" := "F"]
  const CustomerTypeCodes: map<string, string> := map["Member" := "M", "Normal" := "N"]

  /** `Series.str.strip()` on one cell: a string loses its surrounding
      whitespace, and any other value comes back as NaN. */
  function StripCell(v: Value): (r: Value)
    ensures v.Str? ==> r.Str? && Text.Trimmed(r.s)
    ensures !v.Str? ==> r.Missing?
  {
    match v
    case Str(s) => Str(Text.Strip(s))
    case _ => Missing
  }

  /** Only `object` columns are stripped. */
  function StripColumn(c: Column): (r: Column)
    ensures r.name == c.name && r.dtype == c.dtype && |r.cells| == |c.cells|
  {
    if c.dtype.Object? then c.(cells := seq(|c.cells|, i requires 0 <= i < |c.cells| => StripCell(c.cells[i])))
    else c
  }

  function StripText(f: Frame): (r: Frame)
    ensures r.rows == f.rows && |r.columns| == |f.columns|
    ensures forall k :: 0 <= k < |f.columns| ==> r.columns[k].name == f.columns[k].name && |r.columns[k].cells| == |f.columns[k].cells|
  {
    f.(columns := seq(|f.columns|, k requires 0 <= k < |f.columns| => StripColumn(f.columns[k])))
  }

  /** `Series.replace(codes)` on one cell: exact matches of a key are replaced. */
  function RecodeValue(v: Value, codes: map<string, string>): (r: Value)
    ensures v.Str? && v.s in codes ==> r.Str? && r.s in codes.Values
    ensures !(v.Str? && v.s in codes) ==> r == v
  {
    if v.Str? && v.s in codes then Str(codes[v.s]) else v
  }

  /** `Series.replace(codes)` on a column; a categorical column has its
      categories renamed the same way. */
  function Recode(c: Column, codes: map<string, string>): (r: Column)
    ensures r.name == c.name && |r.cells| == |c.cells|
    ensures r.dtype.Category? <==> c.dtype.Category?
    ensures !c.dtype.Category? ==> r.dtype == c.dtype
    ensures forall i :: 0 <= i < |c.cells| && !(c.cells[i].Str? && c.cells[i].s in codes) ==> r.cells[i] == c.cells[i]
  {
    Column(
      c.name,
      if c.dtype.Category? then Category(set v | v in c.dtype.categories :: RecodeValue(v, codes)) else c.dtype,
      seq(|c.cells|, i requires 0 <= i < |c.cells| => RecodeValue(c.cells[i], codes)))
  }

  /** `df[name] = df[name].replace(codes)`; `None` is the `KeyError`. */
  function RecodeAt(f: Frame, name: string, codes: map<string, string>): (r: Option<Frame>)
    ensures r.None? <==> !HasColumn(f, name)
    ensures r.Some? ==> r.value.rows == f.rows && |r.value.columns| == |f.columns|
    ensures r.Some? ==> forall k :: 0 <= k < |f.columns| ==> r.value.columns[k].name == f.columns[k].name && |r.value.columns[k].cells| == |f.columns[k].cells|
  {
    match Lookup(f.columns, name)
    case None => None
    case Some(k) => Some(f.(columns := f.columns[k := Recode(f.columns[k], codes)]))
  }

  /** The table after `clean_strings`, and whether it raised. The strip is
      assigned before Gender is looked up, and Gender is recoded before
      Customer type is looked up, so a missing column leaves those changes. */
  function CleanStringsEffect(f: Frame): (r: Effect)
    ensures r.frame.rows == f.rows && |r.frame.columns| == |f.columns|
    ensures forall k :: 0 <= k < |f.columns| ==> r.frame.columns[k].name == f.columns[k].name && |r.frame.columns[k].cells| == |f.columns[k].cells|
    ensures r.outcome.Fail? ==> r.outcome.error == MissingColumn(Gender) || r.outcome.error == MissingColumn(CustomerType)
  {
    var stripped := StripText(f);
    match RecodeAt(stripped, Gender, GenderCodes)
    case None => Effect(stripped, Fail(MissingColumn(Gender)))
    case Some(g) =>
      match RecodeAt(g, CustomerType, CustomerTypeCodes)
      case None => Effect(g, Fail(MissingColumn(CustomerType)))
      case Some(c) => Effect(c, Pass)
  }

  /** The value a cell of `c` has once stripping is done. */
  function Stripped(c: Column, i: nat): Value
    requires i < |c.cells|
  {
    StripColumn(c).cells[i]
  }

  // ---------------------------------------------------------------------------
  // Shape: rows, names, dtypes and untouched columns

  lemma StripColumnOk(c: Column, rows: nat)
    requires ColumnOk(c, rows)
    ensures ColumnOk(StripColumn(c), rows)
    ensures StripColumn(c).name == c.name && StripColumn(c).dtype == c.dtype
    ensures !c.dtype.Object? ==> StripColumn(c) == c
  {
  }

  lemma RecodeOk(c: Column, rows: nat, codes: map<string, string>)
    requires ColumnOk(c, rows)
    ensures ColumnOk(Recode(c, codes), rows)
    ensures Recode(c, codes).name == c.name
    ensures c.dtype.Category? <==> Recode(c, codes).dtype.Category?
    ensures !c.dtype.Category? ==> Recode(c, codes).dtype == c.dtype
    ensures !c.dtype.Object? && !c.dtype.Category? ==> Recode(c, codes) == c
  {
    var r := Recode(c, codes);
    forall i | 0 <= i < rows ensures Fits(r.dtype, r.cells[i]) {
      if c.dtype.Category? {
        if c.cells[i] != Missing {
          assert c.cells[i] in c.dtype.categories;
        }
      }
    }
    if c.dtype.Category? {
      assert Missing !in r.dtype.categories;
    }
    if !c.dtype.Object? && !c.dtype.Category? {
      assert r.cells == c.cells;
    }
  }

  lemma RecodeAtShape(f: Frame, name: string, codes: map<string, string>)
    requires WellFormed(f)
    ensures RecodeAt(f, name, codes).Some? <==> HasColumn(f, name)
    ensures RecodeAt(f, name, codes).Some? ==> var g := RecodeAt(f, name, codes).value;
      && WellFormed(g) && g.rows == f.rows && Names(g.columns) == Names(f.columns)
      && (forall k :: 0 <= k < |f.columns| && f.columns[k].name != name ==> g.columns[k] == f.columns[k])
      && (forall k :: 0 <= k < |f.columns| && IsNumeric(f.columns[k].dtype) ==> g.columns[k] == f.columns[k])
  {
    match Lookup(f.columns, name)
    case None =>
    case Some(k) =>
      RecodeOk(f.columns[k], f.rows, codes);
  }

  lemma StripTextShape(f: Frame)
    requires WellFormed(f)
    ensures var s := StripText(f);
      && WellFormed(s) && s.rows == f.rows && Names(s.columns) == Names(f.columns)
      && (forall k :: 0 <= k < |f.columns| ==> s.columns[k].dtype == f.columns[k].dtype)
      && (forall k :: 0 <= k < |f.columns| && !f.columns[k].dtype.Object? ==> s.columns[k] == f.columns[k])
  {
    forall k | 0 <= k < |f.columns| {
      StripColumnOk(f.columns[k], f.rows);
    }
  }

  /** `clean_strings` keeps the row count and the ordered column list, leaves
      numeric columns as they were, and raises exactly when Gender or
      Customer type is absent, naming the first one looked up. */
  lemma CleanStringsShape(f: Frame)
    requires WellFormed(f)
    ensures var e := CleanStringsEffect(f);
      && WellFormed(e.frame) && e.frame.rows == f.rows
      && Names(e.frame.columns) == Names(f.columns)
      && (forall k :: 0 <= k < |f.columns| && IsNumeric(f.columns[k].dtype) ==> e.frame.columns[k] == f.columns[k])
      && e.outcome == (if !HasColumn(f, Gender) then Fail(MissingColumn(Gender))
                       else if !HasColumn(f, CustomerType) then Fail(MissingColumn(CustomerType))
                       else Pass)
  {
    var s := StripText(f);
    StripTextShape(f);
    RecodeAtShape(s, Gender, GenderCodes);
    if g :| RecodeAt(s, Gender, GenderCodes) == Some(g) {
      RecodeAtShape(g, CustomerType, CustomerTypeCodes);
    }
  }

  // ---------------------------------------------------------------------------
  // Values after the call

  /** Every string left in a text column has no surrounding whitespace. */
  predicate TextTrimmed(f: Frame) {
    forall k, i ::
      (0 <= k < |f.columns| && 0 <= i < |f.columns[k].cells| && f.columns[k].dtype.Object? && f.columns[k].cells[i].Str?)
      ==> Text.Trimmed(f.columns[k].cells[i].s)
  }

  /** Every code a lookup table produces is trimmed. */
  predicate CodesTrimmed(codes: map<string, string>) {
    forall key :: key in codes ==> Text.Trimmed(codes[key])
  }

  lemma RecodeAtTrimmed(f: Frame, name: string, codes: map<string, string>)
    requires TextTrimmed(f) && CodesTrimmed(codes) && RecodeAt(f, name, codes).Some?
    ensures TextTrimmed(RecodeAt(f, name, codes).value)
  {
  }

  /** After `clean_strings` (whether or not it raised), no string in a text
      column starts or ends with whitespace. */
  lemma CleanStringsTrimmed(f: Frame)
    ensures TextTrimmed(CleanStringsEffect(f).frame)
  {
    var s := StripText(f);
    assert TextTrimmed(s);
    assert Text.Trimmed("M") && Text.Trimmed("F") && Text.Trimmed("N");
    assert CodesTrimmed(GenderCodes) && CodesTrimmed(CustomerTypeCodes);
    if RecodeAt(s, Gender, GenderCodes).Some? {
      var g := RecodeAt(s, Gender, GenderCodes).value;
      RecodeAtTrimmed(s, Gender, GenderCodes);
      if RecodeAt(g, CustomerType, CustomerTypeCodes).Some? {
        RecodeAtTrimmed(g, CustomerType, CustomerTypeCodes);
      }
    }
  }

  /** On success, each column is its stripped self, recoded when it is
      Gender or Customer type. */
  lemma CleanStringsColumns(f: Frame, k: nat)
    requires WellFormed(f) && CleanStringsEffect(f).outcome.Pass? && k < |f.columns|
    ensures var c := f.columns[k];
      CleanStringsEffect(f).frame.columns[k] ==
        if c.name == Gender then Recode(StripColumn(c), GenderCodes)
        else if c.name == CustomerType then Recode(StripColumn(c), CustomerTypeCodes)
        else StripColumn(c)
  {
    var s := StripText(f);
    StripTextShape(f);
    RecodeAtShape(s, Gender, GenderCodes);
    var g := RecodeAt(s, Gender, GenderCodes).value;
    RecodeAtShape(g, CustomerType, CustomerTypeCodes);
    var name := f.columns[k].name;
    if name == Gender {
      LookupFinds(s.columns, k);
      assert g.columns[k] == Recode(s.columns[k], GenderCodes);
    } else if name == CustomerType {
      LookupFinds(g.columns, k);
    }
  }

  /** On success, a Gender value that is "Male" or "Female" once stripped
      becomes "M" or "F", a Customer type value "Member" or "Normal" becomes
      "M" or "N", every other value of those columns is the stripped value, and
      every other column is just stripped. */
  lemma CleanStringsCodes(f: Frame, k: nat, i: nat)
    requires WellFormed(f) && CleanStringsEffect(f).outcome.Pass?
    requires k < |f.columns| && i < f.rows
    ensures var before := Stripped(f.columns[k], i);
      var after := CleanStringsEffect(f).frame.columns[k].cells[i];
      && (f.columns[k].name == Gender ==>
            && (before == Str("Male") ==> after == Str("M"))
            && (before == Str("Female") ==> after == Str("F"))
            && (before != Str("Male") && before != Str("Female") ==> after == before))
      && (f.columns[k].name == CustomerType ==>
            && (before == Str("Member") ==> after == Str("M"))
            && (before == Str("Normal") ==> after == Str("N"))
            && (before != Str("Member") && before != Str("Normal") ==> after == before))
      && (f.columns[k].name != Gender && f.columns[k].name != CustomerType ==> after == before)
  {
    CleanStringsColumns(f, k);
    var before := Stripped(f.columns[k], i);
    if f.columns[k].name == Gender {
      GenderCodesMap(before);
    } else if f.columns[k].name == CustomerType {
      CustomerTypeCodesMap(before);
    }
  }

  lemma GenderCodesMap(v: Value)
    ensures v == Str("Male") ==> RecodeValue(v, GenderCodes) == Str("M")
    ensures v == Str("Female") ==> RecodeValue(v, GenderCodes) == Str("F")
    ensures v != Str("Male") && v != Str("Female") ==> RecodeValue(v, GenderCodes) == v
  {
    assert GenderCodes.Keys == {"Male", "Female"};
  }

  lemma CustomerTypeCodesMap(v: Value)
    ensures v == Str("Member") ==> RecodeValue(v, CustomerTypeCodes) == Str("M")
    ensures v == Str("Normal") ==> RecodeValue(v, CustomerTypeCodes) == Str("N")
    ensures v != Str("Member") && v != Str("Normal") ==> RecodeValue(v, CustomerTypeCodes) == v
  {
    assert CustomerTypeCodes.Keys == {"Member", "Normal"};
  }

  /** Stripping happens first: "Male" with whitespace around it in a text
      Gender column ends up "M". */
  lemma StripThenRecode(pre: string, post: string)
    requires Text.AllSpace(pre) && Text.AllSpace(post)
    ensures RecodeValue(StripCell(Str(pre + "Male" + post)), GenderCodes) == Str("M")
  {
    var s := pre + "Male" + post;
    var i, j := |pre|, |pre| + 4;
    assert s[..i] == pre && s[j..] == post && s[i..j] == "Male";
    assert Text.Trimmed("Male") by {
      assert "Male"[0] == 'M' && "Male"[3] == 'e';
    }
    Text.StripIsMiddle(s, i, j);
    GenderCodesMap(Str("Male"));
  }

  // ---------------------------------------------------------------------------
  // Idempotence

  /** No code is itself a key: "M", "F" and "N" are not looked up again. */
  predicate CodesStable(codes: map<string, string>) {
    forall key :: key in codes ==> codes[key] !in codes
  }

  lemma CodeTablesStable()
    ensures CodesStable(GenderCodes) && CodesStable(CustomerTypeCodes)
  {
    assert GenderCodes.Keys == {"Male", "Female"};
    assert CustomerTypeCodes.Keys == {"Member", "Normal"};
  }

  lemma RecodeTwice(c: Column, codes: map<string, string>)
    requires CodesStable(codes)
    ensures Recode(Recode(c, codes), codes) == Recode(c, codes)
  {
    var once := Recode(c, codes);
    var twice := Recode(once, codes);
    assert twice.cells == once.cells;
    if c.dtype.Category? {
      assert twice.dtype.categories == once.dtype.categories;
    }
  }

  lemma StripColumnFixed(c: Column, rows: nat)
    requires ColumnOk(c, rows)
    requires forall i :: 0 <= i < |c.cells| && c.dtype.Object? && c.cells[i].Str? ==> Text.Trimmed(c.cells[i].s)
    ensures StripColumn(c) == c
  {
    if c.dtype.Object? {
      forall i | 0 <= i < |c.cells| ensures StripCell(c.cells[i]) == c.cells[i] {
        if c.cells[i].Str? {
          Text.StripTrimmed(c.cells[i].s);
        }
      }
      assert StripColumn(c).cells == c.cells;
    }
  }

  /** A well-formed table whose text is already trimmed is not changed by stripping. */
  lemma StripTextFixed(f: Frame)
    requires WellFormed(f) && TextTrimmed(f)
    ensures StripText(f) == f
  {
    forall k | 0 <= k < |f.columns| ensures StripColumn(f.columns[k]) == f.columns[k] {
      StripColumnFixed(f.columns[k], f.rows);
    }
  }

  /** Recoding Gender or Customer type again in the output of a successful
      `clean_strings` changes nothing. */
  lemma RecodeAgain(f: Frame, name: string, codes: map<string, string>)
    requires WellFormed(f) && CleanStringsEffect(f).outcome.Pass?
    requires (name == Gender && codes == GenderCodes) || (name == CustomerType && codes == CustomerTypeCodes)
    ensures RecodeAt(CleanStringsEffect(f).frame, name, codes) == Some(CleanStringsEffect(f).frame)
  {
    var e := CleanStringsEffect(f).frame;
    CleanStringsShape(f);
    var k := Lookup(e.columns, name).value;
    assert Names(e.columns)[k] == Names(f.columns)[k];
    CleanStringsColumns(f, k);
    CodeTablesStable();
    RecodeAtFixed(e, name, codes, k, StripColumn(f.columns[k]));
  }

  /** A column that is already recoded is left as it is by recoding it again. */
  lemma RecodeAtFixed(e: Frame, name: string, codes: map<string, string>, k: nat, c: Column)
    requires CodesStable(codes) && Lookup(e.columns, name) == Some(k) && k < |e.columns|
    requires e.columns[k] == Recode(c, codes)
    ensures RecodeAt(e, name, codes) == Some(e)
  {
    RecodeTwice(c, codes);
    assert e.columns[k := Recode(e.columns[k], codes)] == e.columns;
  }

  /** Running `clean_strings` on its own successful output changes nothing. */
  lemma CleanStringsIdempotent(f: Frame)
    requires WellFormed(f) && CleanStringsEffect(f).outcome.Pass?
    ensures CleanStringsEffect(CleanStringsEffect(f).frame) == Effect(CleanStringsEffect(f).frame, Pass)
  {
    var e := CleanStringsEffect(f).frame;
    CleanStringsShape(f);
    CleanStringsTrimmed(f);
    StripTextFixed(e);
    RecodeAgain(f, Gender, GenderCodes);
    RecodeAgain(f, CustomerType, CustomerTypeCodes);
  }
}
