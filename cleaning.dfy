/** Row validation (`prepare`): the schema check, the coercion of the date,
    coordinate and AQI columns to typed values, the derived `country_name`
    column, and the dropping of incomplete rows. */
module Cleaning {
  import opened Wrappers
  import opened Text
  import opened Cells
  import opened Countries
  import opened Schema

  /** The text parsers inside `pd.to_datetime` and `pd.to_numeric`. Their
      format rules are pandas' own; the model only needs that each yields a
      value or "absent". */
  datatype Parsers = Parsers(
    dateOfText: string -> Option<Date>,
    dateOfNumber: real -> Option<Date>,
    numberOfText: string -> Option<real>)

  /** `pd.to_datetime(cell, errors="coerce").date()`: NA stays absent, a date
      cell is its own day, anything else goes through the parser. */
  function ToDate(v: Value, p: Parsers): (r: Option<Date>)
    ensures v.Na? ==> r.None?
    ensures v.Stamp? ==> r == Some(v.d)
  {
    match v
    case Na => None
    case Stamp(d) => Some(d)
    case Str(s) => p.dateOfText(s)
    case Num(x) => p.dateOfNumber(x)
  }

  /** `pd.to_numeric(cell, errors="coerce")`: NA and dates are absent, a
      number is itself, a string goes through the parser. */
  function ToNumber(v: Value, p: Parsers): (r: Option<real>)
    ensures v.Na? || v.Stamp? ==> r.None?
    ensures v.Num? ==> r == Some(v.x)
  {
    match v
    case Na => None
    case Num(x) => Some(x)
    case Str(s) => p.numberOfText(s)
    case Stamp(_) => None
  }

  /** The cell a coerced value is stored as: absent becomes NA (NaT / NaN). */
  function DateCell(d: Option<Date>): Value {
    if d.Some? then Stamp(d.value) else Na
  }

  function NumberCell(x: Option<real>): Value {
    if x.Some? then Num(x.value) else Na
  }

  /** Coercing an already coerced cell changes nothing, so a second
      `prepare` pass keeps every date and number. */
  lemma CoercionIdempotent(v: Value, p: Parsers)
    ensures ToDate(DateCell(ToDate(v, p)), p) == ToDate(v, p)
    ensures ToNumber(NumberCell(ToNumber(v, p)), p) == ToNumber(v, p)
  {
  }

  /** The cell-wise conversions `prepare` assigns to its columns. */
  function DateCoercion(p: Parsers): Value -> Value {
    v => DateCell(ToDate(v, p))
  }

  function NumberCoercion(p: Parsers): Value -> Value {
    v => NumberCell(ToNumber(v, p))
  }

  /** The six required columns, in Python's sorted order. */
  const RequiredSorted: seq<string> := ["city", "country", "date", "european_aqi", "latitude", "longitude"]

  predicate HasRequired(cols: seq<string>) {
    && "city" in cols && "country" in cols && "date" in cols
    && "latitude" in cols && "longitude" in cols && "european_aqi" in cols
  }

  ghost predicate StrictlySorted(names: seq<string>) {
    forall i, j :: 0 <= i < j < |names| ==> StrLt(names[i], names[j])
  }

  /** The names of `names` that are not columns, in their order in `names`. */
  function Absent(names: seq<string>, cols: seq<string>): (r: seq<string>)
    ensures forall n :: n in r <==> n in names && n !in cols
  {
    if names == [] then []
    else
      var rest := Absent(names[1..], cols);
      if names[0] in cols then rest else [names[0]] + rest
  }

  /** Keeping some names of a sorted list keeps it sorted. */
  lemma {:induction false} AbsentSorted(names: seq<string>, cols: seq<string>)
    requires StrictlySorted(names)
    ensures StrictlySorted(Absent(names, cols))
  {
    if names != [] {
      var rest := Absent(names[1..], cols);
      assert StrictlySorted(names[1..]);
      AbsentSorted(names[1..], cols);
      if names[0] !in cols {
        forall j | 0 <= j < |rest|
          ensures StrLt(names[0], rest[j])
        {
          assert rest[j] in names[1..];
          var k :| 0 <= k < |names[1..]| && names[1..][k] == rest[j];
          assert names[k + 1] == rest[j];
        }
      }
    }
  }

  lemma RequiredSortedIsSorted()
    ensures StrictlySorted(RequiredSorted)
  {
    assert StrLt("city", "country");
    assert StrLt("country", "date");
    assert StrLt("date", "european_aqi");
    assert StrLt("european_aqi", "latitude");
    assert StrLt("latitude", "longitude");
    assert StrLt("city", "date") && StrLt("city", "european_aqi") && StrLt("city", "latitude") && StrLt("city", "longitude");
    assert StrLt("country", "european_aqi") && StrLt("country", "latitude") && StrLt("country", "longitude");
    assert StrLt("date", "latitude") && StrLt("date", "longitude");
    assert StrLt("european_aqi", "longitude");
  }

  /** `sorted(needed - set(df.columns))`: exactly the required names that are
      not columns, in strictly increasing order; empty exactly when every
      required column is present. */
  function MissingColumns(cols: seq<string>): (m: seq<string>)
    ensures forall n :: n in m <==> n in RequiredSorted && n !in cols
    ensures StrictlySorted(m)
    ensures m == [] <==> HasRequired(cols)
  {
    RequiredSortedIsSorted();
    AbsentSorted(RequiredSorted, cols);
    MissingIffIncomplete(cols);
    Absent(RequiredSorted, cols)
  }

  lemma MissingIffIncomplete(cols: seq<string>)
    ensures Absent(RequiredSorted, cols) == [] <==> HasRequired(cols)
  {
    var m := Absent(RequiredSorted, cols);
    if m != [] {
      assert m[0] in RequiredSorted && m[0] !in cols;
    }
    if !HasRequired(cols) {
      var n :| n in RequiredSorted && n !in cols;
      assert n in m;
    }
  }

  /** A strictly sorted list holds no name twice. */
  lemma StrictlySortedDistinct(names: seq<string>)
    requires StrictlySorted(names)
    ensures forall i, j :: 0 <= i < j < |names| ==> names[i] != names[j]
  {
    forall i, j | 0 <= i < j < |names|
      ensures names[i] != names[j]
    {
      if names[i] == names[j] {
        StrLtIrreflexive(names[i]);
      }
    }
  }

  /** The `ValueError` raised when columns are missing. */
  datatype SchemaError = SchemaError(missing: seq<string>, found: seq<string>)

  /** One row of the cleaned table, with the columns the dashboard reads. */
  datatype Record = Record(
    city: Value, country: Value, countryName: string,
    date: Date, latitude: real, longitude: real, aqi: real)

  /** The cell of row `i` in the (first) column called `name`. */
  function Cell(t: Table, name: string, i: nat): Value
    requires Rectangular(t) && name in t.columns && i < t.height
  {
    t.data[IndexOf(t.columns, name)][i]
  }

  /** A row survives `dropna`: its date, coordinates and AQI parse, and its
      city and country are not NA. */
  predicate Complete(t: Table, i: nat, p: Parsers)
    requires Rectangular(t) && HasRequired(t.columns) && i < t.height
  {
    && ToDate(Cell(t, "date", i), p).Some?
    && ToNumber(Cell(t, "latitude", i), p).Some?
    && ToNumber(Cell(t, "longitude", i), p).Some?
    && ToNumber(Cell(t, "european_aqi", i), p).Some?
    && Cell(t, "city", i) != Na
    && Cell(t, "country", i) != Na
  }

  /** The record a row with these date, coordinate, AQI, city and country
      cells becomes, when all of them are present after coercion. */
  function CleanCells(date: Value, lat: Value, lon: Value, aqi: Value,
                      city: Value, country: Value, p: Parsers): (r: Option<Record>)
    ensures r.Some? <==> ToDate(date, p).Some? && ToNumber(lat, p).Some? && ToNumber(lon, p).Some?
                         && ToNumber(aqi, p).Some? && city != Na && country != Na
  {
    var d := ToDate(date, p);
    var x := ToNumber(lat, p);
    var y := ToNumber(lon, p);
    var a := ToNumber(aqi, p);
    if d.Some? && x.Some? && y.Some? && a.Some? && city != Na && country != Na
    then Some(Record(city, country, CountryName(country), d.value, x.value, y.value, a.value))
    else None
  }

  /** What row `i` of the raw table becomes in the cleaned table. */
  function CleanRow(t: Table, i: nat, p: Parsers): (r: Option<Record>)
    requires Rectangular(t) && HasRequired(t.columns) && i < t.height
    ensures r.Some? <==> Complete(t, i, p)
    ensures r.Some? ==> r.value.city != Na && r.value.country != Na
                        && r.value.countryName == CountryName(r.value.country)
  {
    CleanCells(Cell(t, "date", i), Cell(t, "latitude", i), Cell(t, "longitude", i),
               Cell(t, "european_aqi", i), Cell(t, "city", i), Cell(t, "country", i), p)
  }

  /** What each row of the raw table becomes, in row order. */
  function RowResults(t: Table, p: Parsers): (rs: seq<Option<Record>>)
    requires Rectangular(t) && HasRequired(t.columns)
    ensures |rs| == t.height && forall i :: 0 <= i < t.height ==> rs[i] == CleanRow(t, i, p)
  {
    seq(t.height, i requires 0 <= i < t.height => CleanRow(t, i, p))
  }

  /** The present values of `rs`, in order: what `dropna` keeps. */
  function Present(rs: seq<Option<Record>>): (r: seq<Record>)
    ensures |r| <= |rs|
    ensures forall x :: multiset(r)[x] == multiset(rs)[Some(x)]
  {
    if rs == [] then []
    else
      var last := rs[|rs| - 1];
      assert rs == rs[..|rs| - 1] + [last];
      Present(rs[..|rs| - 1]) + (if last.Some? then [last.value] else [])
  }

  /** Reading one more value. */
  lemma PresentStep(rs: seq<Option<Record>>, i: nat)
    requires i < |rs|
    ensures Present(rs[..i + 1]) == Present(rs[..i]) + (if rs[i].Some? then [rs[i].value] else [])
  {
    assert rs[..i + 1][..i] == rs[..i];
  }

  /** The positions of the present values of `rs`. */
  function PresentAt(rs: seq<Option<Record>>): seq<nat> {
    if rs == [] then []
    else PresentAt(rs[..|rs| - 1]) + (if rs[|rs| - 1].Some? then [|rs| - 1] else [])
  }

  /** The positions and the values kept match one to one. */
  lemma {:induction false} PresentRecords(rs: seq<Option<Record>>)
    ensures |PresentAt(rs)| == |Present(rs)|
    ensures forall j :: 0 <= j < |PresentAt(rs)| ==>
              PresentAt(rs)[j] < |rs| && rs[PresentAt(rs)[j]] == Some(Present(rs)[j])
  {
    if rs != [] {
      var front := rs[..|rs| - 1];
      PresentRecords(front);
      var k0, c0 := PresentAt(front), Present(front);
      var k, c := PresentAt(rs), Present(rs);
      if rs[|rs| - 1].Some? {
        assert k == k0 + [|rs| - 1] && c == c0 + [rs[|rs| - 1].value];
        forall j | 0 <= j < |k|
          ensures k[j] < |rs| && rs[k[j]] == Some(c[j])
        {
          if j < |k0| {
            assert k[j] == k0[j] && c[j] == c0[j] && rs[k0[j]] == front[k0[j]];
          }
        }
      } else {
        assert k == k0 && c == c0;
        forall j | 0 <= j < |k|
          ensures k[j] < |rs| && rs[k[j]] == Some(c[j])
        {
          assert rs[k0[j]] == front[k0[j]];
        }
      }
    }
  }

  /** The kept positions increase, and every present value's position is kept. */
  lemma {:induction false} PresentPositions(rs: seq<Option<Record>>)
    ensures forall j :: 0 <= j < |PresentAt(rs)| ==> PresentAt(rs)[j] < |rs|
    ensures forall j, l :: 0 <= j < l < |PresentAt(rs)| ==> PresentAt(rs)[j] < PresentAt(rs)[l]
    ensures forall i :: 0 <= i < |rs| && rs[i].Some? ==> i in PresentAt(rs)
  {
    if rs != [] {
      var front := rs[..|rs| - 1];
      PresentPositions(front);
      var k0 := PresentAt(front);
      var k := PresentAt(rs);
      assert k == k0 + (if rs[|rs| - 1].Some? then [|rs| - 1] else []);
      forall j, l | 0 <= j < l < |k|
        ensures k[j] < k[l]
      {
        assert k[j] == k0[j];
        if l < |k0| {
          assert k[l] == k0[l];
        }
      }
      forall i | 0 <= i < |rs| && rs[i].Some?
        ensures i in k
      {
        if i < |front| {
          assert front[i] == rs[i];
        }
      }
    }
  }

  /** The cleaned table is exactly the complete rows, in their original
      order: the kept positions increase, each kept position is complete and
      yields the record at that place, and every complete row is kept. */
  lemma KeptRowsInOrder(t: Table, p: Parsers)
    requires Rectangular(t) && HasRequired(t.columns)
    ensures Clean(t, p).Success?
    ensures var k := PresentAt(RowResults(t, p)); var c := Clean(t, p).value;
      && |k| == |c|
      && (forall j :: 0 <= j < |k| ==> k[j] < t.height && Complete(t, k[j], p) && CleanRow(t, k[j], p) == Some(c[j]))
      && (forall j, l :: 0 <= j < l < |k| ==> k[j] < k[l])
      && (forall i :: 0 <= i < t.height && Complete(t, i, p) ==> i in k)
  {
    var rs := RowResults(t, p);
    assert Clean(t, p) == Success(Present(rs));
    PresentRecords(rs);
    PresentPositions(rs);
  }

  /** `prepare`: the schema error when a required column is missing,
      otherwise the cleaned records of every row. */
  function Clean(t: Table, p: Parsers): (r: Result<seq<Record>, SchemaError>)
    requires Rectangular(t)
    ensures r.Failure? <==> !HasRequired(t.columns)
    ensures r.Failure? ==> r.error.found == t.columns && StrictlySorted(r.error.missing)
                           && forall n :: n in r.error.missing <==> n in RequiredSorted && n !in t.columns
    ensures r.Success? ==> forall j :: 0 <= j < |r.value| ==> r.value[j].countryName == CountryName(r.value[j].country)
  {
    var missing := MissingColumns(t.columns);
    if missing != [] then Failure(SchemaError(missing, t.columns))
    else
      PresentRecords(RowResults(t, p));
      Success(Present(RowResults(t, p)))
  }

  /** A table lacking only `latitude` is rejected with `["latitude"]`. */
  lemma MissingLatitudeExample(cols: seq<string>)
    requires "latitude" !in cols
    requires "city" in cols && "country" in cols && "date" in cols
    requires "longitude" in cols && "european_aqi" in cols
    ensures MissingColumns(cols) == ["latitude"]
  {
    var r := RequiredSorted;
    assert r[5..][1..] == r[6..] && r[4..][1..] == r[5..] && r[3..][1..] == r[4..];
    assert r[2..][1..] == r[3..] && r[1..][1..] == r[2..] && r[1..] == r[..][1..];
    assert r[6..] == [] && r[5..][0] == "longitude" && r[4..][0] == "latitude";
    assert Absent(r[5..], cols) == [];
    assert Absent(r[4..], cols) == ["latitude"];
    assert Absent(r[3..], cols) == ["latitude"];
    assert Absent(r[2..], cols) == ["latitude"];
    assert Absent(r[1..], cols) == ["latitude"];
  }

  /** The table after `prepare` has coerced its date, coordinate and AQI
      columns in place. */
  function Converted(t: Table, p: Parsers): (r: Table)
    requires Rectangular(t) && HasRequired(t.columns)
    ensures Rectangular(r) && r.height == t.height && r.columns == t.columns
  {
    var c := t.columns;
    var t1 := MapColumn(t, IndexOf(c, "date"), DateCoercion(p));
    var t2 := MapColumn(t1, IndexOf(c, "latitude"), NumberCoercion(p));
    var t3 := MapColumn(t2, IndexOf(c, "longitude"), NumberCoercion(p));
    MapColumn(t3, IndexOf(c, "european_aqi"), NumberCoercion(p))
  }

  /** The table `prepare` leaves behind in place: the converted table with a
      `country_name` column holding the display name of each row's country. */
  function Coerced(t: Table, p: Parsers): (r: Table)
    requires Rectangular(t) && HasRequired(t.columns)
    ensures Rectangular(r) && r.height == t.height
    ensures HasRequired(r.columns) && "country_name" in r.columns
  {
    var t4 := Converted(t, p);
    SetColumn(t4, "country_name", CountryNames(t4))
  }

  /** `df["country"].apply(country_name)` */
  function CountryNames(t: Table): (names: seq<Value>)
    requires Rectangular(t) && "country" in t.columns
    ensures |names| == t.height
    ensures forall i :: 0 <= i < t.height ==> names[i] == Str(CountryName(Cell(t, "country", i)))
  {
    seq(t.height, i requires 0 <= i < t.height => Str(CountryName(Cell(t, "country", i))))
  }

  /** `dropna` on one row of already coerced cells, and the record the row
      then contributes. */
  function ExtractCells(date: Value, lat: Value, lon: Value, aqi: Value,
                        city: Value, country: Value, name: Value): Option<Record>
  {
    match (date, lat, lon, aqi)
    case (Stamp(d), Num(x), Num(y), Num(a)) =>
      if city != Na && country != Na && name.Str?
      then Some(Record(city, country, name.s, d, x, y, a))
      else None
    case _ => None
  }

  /** `dropna` on row `i` of the coerced table. */
  function Extract(t: Table, i: nat): Option<Record>
    requires Rectangular(t) && HasRequired(t.columns) && "country_name" in t.columns && i < t.height
  {
    ExtractCells(Cell(t, "date", i), Cell(t, "latitude", i), Cell(t, "longitude", i),
                 Cell(t, "european_aqi", i), Cell(t, "city", i), Cell(t, "country", i),
                 Cell(t, "country_name", i))
  }

  /** `dropna` on every row of an already coerced table, in row order. */
  function Extracted(t: Table): (rs: seq<Option<Record>>)
    requires Rectangular(t) && HasRequired(t.columns) && "country_name" in t.columns
    ensures |rs| == t.height && forall i :: 0 <= i < t.height ==> rs[i] == Extract(t, i)
  {
    seq(t.height, i requires 0 <= i < t.height => Extract(t, i))
  }

  /** Coercing the cells of a row, then dropping it when a coerced cell is
      absent, gives the same record as cleaning the raw cells. */
  lemma ExtractConverted(date: Value, lat: Value, lon: Value, aqi: Value,
                         city: Value, country: Value, p: Parsers)
    ensures ExtractCells(DateCell(ToDate(date, p)), NumberCell(ToNumber(lat, p)),
                         NumberCell(ToNumber(lon, p)), NumberCell(ToNumber(aqi, p)),
                         city, country, Str(CountryName(country)))
            == CleanCells(date, lat, lon, aqi, city, country, p)
  {
  }

  /** A cell after `df[c] = f(df[c])`. */
  lemma MapColumnCell(t: Table, j: nat, f: Value -> Value, name: string, i: nat)
    requires Rectangular(t) && j < |t.columns| && name in t.columns && i < t.height
    ensures Cell(MapColumn(t, j, f), name, i) == if IndexOf(t.columns, name) == j then f(Cell(t, name, i)) else Cell(t, name, i)
  {
  }

  /** The cells of the converted table, column by column. */
  lemma ConvertedCell(t: Table, p: Parsers, name: string, i: nat)
    requires Rectangular(t) && HasRequired(t.columns) && i < t.height && name in t.columns
    ensures Cell(Converted(t, p), name, i) ==
      if name == "date" then DateCell(ToDate(Cell(t, name, i), p))
      else if name == "latitude" || name == "longitude" || name == "european_aqi" then NumberCell(ToNumber(Cell(t, name, i), p))
      else Cell(t, name, i)
  {
    var c := t.columns;
    var t1 := MapColumn(t, IndexOf(c, "date"), DateCoercion(p));
    var t2 := MapColumn(t1, IndexOf(c, "latitude"), NumberCoercion(p));
    var t3 := MapColumn(t2, IndexOf(c, "longitude"), NumberCoercion(p));
    MapColumnCell(t, IndexOf(c, "date"), DateCoercion(p), name, i);
    MapColumnCell(t1, IndexOf(c, "latitude"), NumberCoercion(p), name, i);
    MapColumnCell(t2, IndexOf(c, "longitude"), NumberCoercion(p), name, i);
    MapColumnCell(t3, IndexOf(c, "european_aqi"), NumberCoercion(p), name, i);
  }

  /** The cells of one row of the coerced table. */
  lemma CoercedCells(t: Table, p: Parsers, i: nat)
    requires Rectangular(t) && HasRequired(t.columns) && i < t.height
    ensures var c := Coerced(t, p);
      && HasRequired(c.columns) && "country_name" in c.columns && i < c.height
      && Cell(c, "date", i) == DateCell(ToDate(Cell(t, "date", i), p))
      && Cell(c, "latitude", i) == NumberCell(ToNumber(Cell(t, "latitude", i), p))
      && Cell(c, "longitude", i) == NumberCell(ToNumber(Cell(t, "longitude", i), p))
      && Cell(c, "european_aqi", i) == NumberCell(ToNumber(Cell(t, "european_aqi", i), p))
      && Cell(c, "city", i) == Cell(t, "city", i)
      && Cell(c, "country", i) == Cell(t, "country", i)
      && Cell(c, "country_name", i) == Str(CountryName(Cell(t, "country", i)))
  {
    var t4 := Converted(t, p);
    ConvertedCell(t, p, "date", i);
    ConvertedCell(t, p, "latitude", i);
    ConvertedCell(t, p, "longitude", i);
    ConvertedCell(t, p, "european_aqi", i);
    ConvertedCell(t, p, "city", i);
    ConvertedCell(t, p, "country", i);
  }

  /** Dropping the incomplete rows of the coerced table keeps the same rows
      as the cleaning of the raw table, with the same records. */
  lemma ExtractCoerced(t: Table, p: Parsers, i: nat)
    requires Rectangular(t) && HasRequired(t.columns) && i < t.height
    ensures var c := Coerced(t, p);
      HasRequired(c.columns) && "country_name" in c.columns && i < c.height
      && Extract(c, i) == RowResults(t, p)[i]
  {
    CoercedCells(t, p, i);
    ExtractConverted(Cell(t, "date", i), Cell(t, "latitude", i), Cell(t, "longitude", i),
                     Cell(t, "european_aqi", i), Cell(t, "city", i), Cell(t, "country", i), p);
  }

  /** Coercing the whole table in place and then dropping its incomplete
      rows gives, row for row, what cleaning the raw table gives. */
  lemma ExtractedCoerced(t: Table, p: Parsers)
    requires Rectangular(t) && HasRequired(t.columns)
    ensures Extracted(Coerced(t, p)) == RowResults(t, p)
  {
    var c := Coerced(t, p);
    forall i | 0 <= i < t.height
      ensures Extracted(c)[i] == RowResults(t, p)[i]
    {
      ExtractCoerced(t, p, i);
    }
  }
}
