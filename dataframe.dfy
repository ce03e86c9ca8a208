/** The table object the two in-place stages mutate. `CleanStrings` and
    `OptimizeTypes` change its columns step by step and are proved to leave
    it in the state `Normalize.CleanStringsEffect` and
    `Optimize.OptimizeTypesEffect` describe, including the partial changes
    left behind when a lookup raises. */
module Frames {
  import opened Table
  import Normalize
  import Optimize

  class DataFrame {
    var columns: seq<Column>
    var rows: nat

    ghost predicate Valid()
      reads this
    {
      WellFormed(Frame(columns, rows))
    }

    /** The table as a value. */
    function Snapshot(): (f: Frame)
      reads this
      ensures f.columns == columns && f.rows == rows
    {
      Frame(columns, rows)
    }

    constructor (f: Frame)
      requires WellFormed(f)
      ensures Valid() && Snapshot() == f
    {
      columns := f.columns;
      rows := f.rows;
    }

    /** `clean_strings`: strip every text column, one column at a time, then
        recode Gender and Customer type. */
    method CleanStrings() returns (r: Outcome)
      requires Valid()
      modifies this
      ensures Valid()
      ensures Effect(Snapshot(), r) == Normalize.CleanStringsEffect(old(Snapshot()))
    {
      ghost var f := Snapshot();
      var i := 0;
      while i < |columns|
        invariant 0 <= i <= |columns| == |f.columns| && rows == f.rows
        invariant forall k :: 0 <= k < |columns| ==>
          columns[k] == if k < i then Normalize.StripColumn(f.columns[k]) else f.columns[k]
      {
        if columns[i].dtype.Object? {
          columns := columns[i := Normalize.StripColumn(columns[i])];
        }
        i := i + 1;
      }
      assert Snapshot() == Normalize.StripText(f);
      Normalize.StripTextShape(f);
      var g := Lookup(columns, Normalize.Gender);
      if g.None? {
        return Fail(MissingColumn(Normalize.Gender));
      }
      columns := columns[g.value := Normalize.Recode(columns[g.value], Normalize.GenderCodes)];
      Normalize.RecodeAtShape(Normalize.StripText(f), Normalize.Gender, Normalize.GenderCodes);
      var c := Lookup(columns, Normalize.CustomerType);
      if c.None? {
        return Fail(MissingColumn(Normalize.CustomerType));
      }
      Normalize.RecodeAtShape(Snapshot(), Normalize.CustomerType, Normalize.CustomerTypeCodes);
      columns := columns[c.value := Normalize.Recode(columns[c.value], Normalize.CustomerTypeCodes)];
      return Pass;
    }

    /** `optimize_types`: retag the six category columns in order, stopping
        at the first one that is missing; then build Full_Date from Date and
        Time and drop those two. */
    method OptimizeTypes() returns (r: Outcome)
      requires Valid()
      modifies this
      ensures Valid()
      ensures Effect(Snapshot(), r) == Optimize.OptimizeTypesEffect(old(Snapshot()))
    {
      ghost var f := Snapshot();
      var names := Optimize.CategoryColumns;
      for j := 0 to |names|
        invariant rows == f.rows
        invariant columns == Optimize.Categorize(f, names[..j]).columns
        invariant forall i :: 0 <= i < j ==> HasColumn(f, names[i])
      {
        Optimize.CategorizeOk(f, names[..j]);
        var k := Lookup(columns, names[j]);
        if k.None? {
          Optimize.FirstAbsentIs(f, names, j);
          return Fail(MissingColumn(names[j]));
        }
        assert f.columns[k.value].name == names[j];
        Optimize.CategorizeStep(f, names[..j], k.value);
        assert names[..j + 1] == names[..j] + [names[j]];
        columns := columns[k.value := Optimize.AsCategory(columns[k.value])];
      }
      assert names[..|names|] == names;
      Optimize.FirstAbsentIs(f, names, |names|);
      Optimize.CategorizeOk(f, names);
      match Optimize.FullDateCells(Snapshot())
      case Failure(e) =>
        return Fail(e);
      case Success(cells) =>
        var full := Column(Optimize.FullDate, DateTime64, cells);
        Optimize.FullDateOk(Snapshot());
        Optimize.WithColumnOk(Snapshot(), full);
        columns := Optimize.WithColumn(Snapshot(), full).columns;
        Optimize.DropOk(Snapshot(), {Optimize.DateName, Optimize.TimeName});
        columns := Optimize.Keep(columns, {Optimize.DateName, Optimize.TimeName});
        return Pass;
    }
  }
}
