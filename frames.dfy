/** The data frame the dashboard mutates: `normalize_columns` overwrites its
    column names, and `prepare` overwrites four of its columns and sets
    `country_name` before it builds the filtered copy. */
module Frames {
  import opened Wrappers
  import opened Cells
  import opened Countries
  import opened Schema
  import opened Cleaning

  class Frame {
    var columns: seq<string>
    var data: seq<seq<Value>>
    var height: nat

    ghost predicate Valid()
      reads this
    {
      Rectangular(View())
    }

    /** The frame as a table value. */
    function View(): Table
      reads this
    {
      Table(columns, data, height)
    }

    constructor (t: Table)
      requires Rectangular(t)
      ensures Valid() && View() == t
    {
      columns, data, height := t.columns, t.data, t.height;
    }

    /** `normalize_columns`: every column is renamed by `NormalizeName`, in
        place; the cells do not move. */
    method NormalizeColumns()
      requires Valid()
      modifies this
      ensures Valid()
      ensures columns == NormalizedNames(old(columns))
      ensures data == old(data) && height == old(height)
    {
      var names: seq<string> := [];
      var k := 0;
      while k < |columns|
        invariant 0 <= k <= |columns|
        invariant |names| == k
        invariant forall j :: 0 <= j < k ==> names[j] == NormalizeName(columns[j])
      {
        names := names + [NormalizeName(columns[k])];
        k := k + 1;
      }
      columns := names;
    }

    /** `df[c] = f(df[c])` for the column at position `j`. */
    method ApplyToColumn(j: nat, f: Value -> Value)
      requires Valid() && j < |columns|
      modifies this
      ensures Valid() && View() == MapColumn(old(View()), j, f)
    {
      var h, column := height, data[j];
      var converted := seq(h, i requires 0 <= i < h => f(column[i]));
      ghost var expected := MapColumn(old(View()), j, f);
      forall i | 0 <= i < h
        ensures converted[i] == expected.data[j][i]
      {
      }
      assert converted == expected.data[j];
      data := data[j := converted];
    }

    /** `df[name] = vals` */
    method AssignColumn(name: string, vals: seq<Value>)
      requires Valid() && |vals| == height
      modifies this
      ensures Valid() && View() == SetColumn(old(View()), name, vals)
    {
      if name in columns {
        data := data[IndexOf(columns, name) := vals];
      } else {
        columns, data := columns + [name], data + [vals];
      }
    }

    /** The in-place part of `prepare`: the date, coordinate and AQI columns
        are coerced cell by cell, then `country_name` is set from `country`. */
    method Coerce(p: Parsers)
      requires Valid() && HasRequired(columns)
      modifies this
      ensures Valid() && View() == Coerced(old(View()), p)
    {
      ghost var t := View();
      var cols := columns;
      ApplyToColumn(IndexOf(cols, "date"), DateCoercion(p));
      ApplyToColumn(IndexOf(cols, "latitude"), NumberCoercion(p));
      ApplyToColumn(IndexOf(cols, "longitude"), NumberCoercion(p));
      ApplyToColumn(IndexOf(cols, "european_aqi"), NumberCoercion(p));
      assert View() == Converted(t, p);
      AssignColumn("country_name", CountryNames(View()));
    }

    /** `df.dropna(subset=[...])` on the coerced frame, read into records:
        the present outcomes of `Extract` on its rows, in row order. */
    method CompleteRows() returns (kept: seq<Record>)
      requires Valid() && HasRequired(columns) && "country_name" in columns
      ensures kept == Present(Extracted(View()))
    {
      var c := View();
      ghost var rs := Extracted(c);
      var i := 0;
      kept := [];
      while i < c.height
        invariant 0 <= i <= c.height == |rs|
        invariant kept == Present(rs[..i])
      {
        var row := Extract(c, i);
        PresentStep(rs, i);
        if row.Some? {
          kept := kept + [row.value];
        }
        i := i + 1;
      }
      assert rs[..i] == rs;
    }

    /** `prepare`. When a required column is missing it fails with the sorted
        missing names and the columns found, and leaves the frame alone.
        Otherwise it coerces the frame in place (`Coerced`) and returns the
        records of its complete rows, in order (`Clean`). */
    method Prepare(p: Parsers) returns (r: Result<seq<Record>, SchemaError>)
      requires Valid()
      modifies this
      ensures Valid()
      ensures r == Clean(old(View()), p)
      ensures r.Failure? ==> View() == old(View())
      ensures r.Success? ==> HasRequired(old(columns)) && View() == Coerced(old(View()), p)
    {
      var missing := MissingColumns(columns);
      if missing != [] {
        return Failure(SchemaError(missing, columns));
      }
      ghost var t := View();
      Coerce(p);
      ExtractedCoerced(t, p);
      var kept := CompleteRows();
      r := Success(kept);
    }
  }
}
