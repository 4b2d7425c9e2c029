/** The body of the dashboard script: the day picker and its default, the
    narrowing of the cleaned table to one day and to the selected countries,
    the per-city points, and the four headline figures. */
module Dashboard {
  import opened Wrappers
  import opened Cells
  import opened Cleaning
  import opened Aggregation
  import opened Rows

  /** Strictly increasing days, as `sorted(...unique())` produces them. */
  ghost predicate Increasing(ds: seq<Date>) {
    forall i, j :: 0 <= i < j < |ds| ==> DateLt(ds[i], ds[j])
  }

  /** `d` inserted at its place in an increasing list, unless already there. */
  function InsertDate(ds: seq<Date>, d: Date): (r: seq<Date>)
    requires Increasing(ds)
    ensures Increasing(r)
    ensures forall x :: x in r <==> x in ds || x == d
  {
    if ds == [] then [d]
    else if d == ds[0] then ds
    else if DateLt(d, ds[0]) then
      assert forall j :: 0 <= j < |ds| ==> DateLt(d, ds[j]) by {
        forall j | 0 <= j < |ds| ensures DateLt(d, ds[j]) {
          DateOrder(d, ds[0], ds[j]);
        }
      }
      [d] + ds
    else
      DateOrder(d, ds[0], d);
      var rest := InsertDate(ds[1..], d);
      assert forall j :: 0 <= j < |rest| ==> DateLt(ds[0], rest[j]) by {
        forall j | 0 <= j < |rest| ensures DateLt(ds[0], rest[j]) {
          if rest[j] != d {
            assert rest[j] in rest && rest[j] in ds[1..];
            var k :| 0 <= k < |ds[1..]| && ds[1..][k] == rest[j];
            assert ds[k + 1] == rest[j];
          }
        }
      }
      [ds[0]] + rest
  }

  /** `sorted(df["date"].unique())`: the days of the rows, each once, in
      increasing order. */
  function SortedDates(rows: seq<Record>): (ds: seq<Date>)
    ensures Increasing(ds)
    ensures forall d :: d in ds <==> exists j :: 0 <= j < |rows| && rows[j].date == d
  {
    if rows == [] then []
    else
      var front := rows[..|rows| - 1];
      assert forall j :: 0 <= j < |front| ==> front[j] == rows[j];
      InsertDate(SortedDates(front), rows[|rows| - 1].date)
  }

  /** The day the picker starts on: the last of the sorted days, none when
      the table is empty. */
  function DefaultDay(rows: seq<Record>): (r: Option<Date>)
    ensures r.None? <==> SortedDates(rows) == []
    ensures r.Some? ==> r.value in SortedDates(rows)
                        && forall d :: d in SortedDates(rows) ==> DateLe(d, r.value)
  {
    var ds := SortedDates(rows);
    if ds == [] then None
    else
      assert forall d :: d in ds ==> DateLe(d, ds[|ds| - 1]) by {
        forall d | d in ds ensures DateLe(d, ds[|ds| - 1]) {
          var k :| 0 <= k < |ds| && ds[k] == d;
          if k < |ds| - 1 {
            assert DateLt(ds[k], ds[|ds| - 1]);
          }
        }
      }
      Some(ds[|ds| - 1])
  }

  /** The default day is the latest day of the table, and there is one
      exactly when the table has a row. */
  lemma DefaultDayIsLatest(rows: seq<Record>)
    ensures DefaultDay(rows).None? <==> rows == []
    ensures DefaultDay(rows).Some? ==>
              (exists j :: 0 <= j < |rows| && rows[j].date == DefaultDay(rows).value)
              && forall j :: 0 <= j < |rows| ==> DateLe(rows[j].date, DefaultDay(rows).value)
  {
    var ds := SortedDates(rows);
    if rows != [] {
      assert rows[0].date in ds;
      var last := ds[|ds| - 1];
      assert last in ds;
      forall j | 0 <= j < |rows|
        ensures DateLe(rows[j].date, last)
      {
        assert rows[j].date in ds;
        var k :| 0 <= k < |ds| && ds[k] == rows[j].date;
        if k < |ds| - 1 {
          assert DateLt(ds[k], ds[|ds| - 1]);
        }
      }
    }
  }

  /** `df["date"] == selected_date`; no row matches when no day is selected. */
  function OnDay(day: Option<Date>): Record -> bool {
    (r: Record) => day == Some(r.date)
  }

  /** `df_day["country_name"].isin(selected_countries)` */
  function InSelection(selected: seq<string>): Record -> bool {
    (r: Record) => r.countryName in selected
  }

  /** The country names offered by the multiselect for the rows of the day. */
  function CountryOptions(dayRows: seq<Record>): set<string> {
    set r | r in dayRows :: r.countryName
  }

  /** The rows handed to `city_means_for_day`: those of the day, then, when
      the selection is not empty, those of a selected country. */
  function Narrowed(clean: seq<Record>, day: Option<Date>, selected: seq<string>): (r: seq<Record>)
    ensures forall x :: multiset(r)[x] ==
              if day == Some(x.date) && (selected != [] ==> x.countryName in selected)
              then multiset(clean)[x] else 0
  {
    var dayRows := Filter(clean, OnDay(day));
    if selected != [] then Filter(dayRows, InSelection(selected)) else dayRows
  }

  /** Every row kept is on the day and, when countries are selected, in one
      of them; every such row of the cleaned table is kept. An empty selection
      removes nothing from the rows of the day. */
  lemma NarrowedRows(clean: seq<Record>, day: Option<Date>, selected: seq<string>)
    ensures forall r :: r in Narrowed(clean, day, selected) <==>
              r in clean && day == Some(r.date) && (selected != [] ==> r.countryName in selected)
    ensures selected == [] ==> Narrowed(clean, day, selected) == Filter(clean, OnDay(day))
  {
    var dayRows := Filter(clean, OnDay(day));
    assert forall r :: r in dayRows <==> r in clean && day == Some(r.date);
    if selected != [] {
      var kept := Filter(dayRows, InSelection(selected));
      assert forall r :: r in kept <==> r in dayRows && r.countryName in selected;
    }
  }

  /** Choosing any offered country leaves at least one row to show. */
  lemma OfferedSelectionNotEmpty(clean: seq<Record>, day: Option<Date>, selected: seq<string>)
    requires exists c :: c in selected && c in CountryOptions(Filter(clean, OnDay(day)))
    ensures Narrowed(clean, day, selected) != []
  {
    var dayRows := Filter(clean, OnDay(day));
    var c :| c in selected && c in CountryOptions(dayRows);
    var r :| r in dayRows && r.countryName == c;
    NarrowedRows(clean, day, selected);
    assert r in Narrowed(clean, day, selected);
  }

  /** Selecting every offered country is the same as selecting none. */
  lemma AllOptionsSelected(clean: seq<Record>, day: Option<Date>, selected: seq<string>)
    requires forall c :: c in CountryOptions(Filter(clean, OnDay(day))) ==> c in selected
    ensures Narrowed(clean, day, selected) == Filter(clean, OnDay(day))
  {
    var dayRows := Filter(clean, OnDay(day));
    forall r | r in dayRows
      ensures InSelection(selected)(r)
    {
      assert r.countryName in CountryOptions(dayRows);
    }
    if selected != [] {
      FilterKeepsAll(dayRows, InSelection(selected));
    }
  }

  /** The four figures above the map. */
  datatype Summary = Summary(day: Option<Date>, points: seq<Point>,
                             cities: nat, countries: nat, meanAqi: real)

  /** `points["european_aqi"]` */
  function Aqis(points: seq<Point>): (xs: seq<real>)
    ensures |xs| == |points| && forall i :: 0 <= i < |points| ==> xs[i] == points[i].aqi
  {
    seq(|points|, i requires 0 <= i < |points| => points[i].aqi)
  }

  /** The mean-AQI figure: the mean over the points, 0.0 when there are none. */
  function MeanKpi(points: seq<Point>): (m: real)
    ensures points == [] ==> m == 0.0
    ensures points != [] ==> Min(Aqis(points)) <= m <= Max(Aqis(points))
  {
    if |points| > 0 then Mean(Aqis(points)) else 0.0
  }

  /** The mean-AQI figure is 0.0 without points, and otherwise lies between
      the smallest and the largest point AQI. */
  lemma MeanKpiBounds(points: seq<Point>)
    ensures points == [] ==> MeanKpi(points) == 0.0
    ensures points != [] ==>
              (exists i :: 0 <= i < |points| && points[i].aqi <= MeanKpi(points))
              && (exists i :: 0 <= i < |points| && MeanKpi(points) <= points[i].aqi)
  {
    if points != [] {
      var xs := Aqis(points);
      var lo :| 0 <= lo < |xs| && xs[lo] == Min(xs);
      var hi :| 0 <= hi < |xs| && xs[hi] == Max(xs);
      assert points[lo].aqi <= MeanKpi(points) <= points[hi].aqi;
    }
  }

  /** `points["city"].unique()` and `points["country"].unique()` */
  function Cities(points: seq<Point>): set<Value> {
    set p | p in points :: p.key.city
  }

  function Countries(points: seq<Point>): set<Value> {
    set p | p in points :: p.key.country
  }

  /** There are at least one and at most as many distinct cities as there
      are points. */
  lemma {:induction false} CitiesCount(points: seq<Point>)
    ensures |Cities(points)| <= |points|
    ensures points != [] ==> 1 <= |Cities(points)|
  {
    if points != [] {
      var rest := points[1..];
      CitiesCount(rest);
      var c := Cities(points);
      var r := Cities(rest);
      assert forall p :: p in points <==> p == points[0] || p in rest by {
        assert points == [points[0]] + rest;
      }
      assert c == r + {points[0].key.city};
    }
  }

  /** The same for the distinct countries. */
  lemma {:induction false} CountriesCount(points: seq<Point>)
    ensures |Countries(points)| <= |points|
    ensures points != [] ==> 1 <= |Countries(points)|
  {
    if points != [] {
      var rest := points[1..];
      CountriesCount(rest);
      var c := Countries(points);
      var r := Countries(rest);
      assert forall p :: p in points <==> p == points[0] || p in rest by {
        assert points == [points[0]] + rest;
      }
      assert c == r + {points[0].key.country};
    }
  }

  /** What the page shows for the cleaned table, the picked day (`None`
      while the picker is left on its default) and the selected countries. */
  function Page(clean: seq<Record>, pick: Option<Date>, selected: seq<string>): (s: Summary)
    ensures pick.Some? ==> s.day == pick
    ensures s.points == [] ==> s.cities == 0 && s.countries == 0 && s.meanAqi == 0.0
  {
    var day := if pick.Some? then pick else DefaultDay(clean);
    var points := CityMeans(Narrowed(clean, day, selected));
    assert points == [] ==> Cities(points) == {} && Countries(points) == {};
    Summary(day, points, |Cities(points)|, |Countries(points)|, MeanKpi(points))
  }

  /** The page's day, points and figures: the picked day or else the latest;
      no points exactly when no row survives the narrowing, and then every
      figure is zero; otherwise between one and one per point cities and
      countries. */
  lemma PageFigures(clean: seq<Record>, pick: Option<Date>, selected: seq<string>)
    ensures var s := Page(clean, pick, selected);
      && (pick.None? ==> s.day == DefaultDay(clean))
      && (pick.Some? ==> s.day == pick)
      && s.points == CityMeans(Narrowed(clean, s.day, selected))
      && (s.points == [] <==> Narrowed(clean, s.day, selected) == [])
      && (s.points == [] ==> s.cities == 0 && s.countries == 0 && s.meanAqi == 0.0)
      && (s.points != [] ==> 1 <= s.cities <= |s.points| && 1 <= s.countries <= |s.points|)
  {
    var day := if pick.Some? then pick else DefaultDay(clean);
    var rows := Narrowed(clean, day, selected);
    var points := CityMeans(rows);
    CityMeansEmpty(rows);
    CitiesCount(points);
    CountriesCount(points);
  }

  /** The script body, narrowing `df_day` step by step. */
  method Render(clean: seq<Record>, pick: Option<Date>, selected: seq<string>) returns (s: Summary)
    ensures s == Page(clean, pick, selected)
  {
    var day := pick;
    if day.None? {
      var dates := SortedDates(clean);
      if |dates| > 0 {
        day := Some(dates[|dates| - 1]);
      }
    }
    var dfDay := Filter(clean, OnDay(day));
    if selected != [] {
      dfDay := Filter(dfDay, InSelection(selected));
    }
    var points := CityMeansForDay(dfDay);
    var mean := if |points| > 0 then Mean(Aqis(points)) else 0.0;
    s := Summary(day, points, |Cities(points)|, |Countries(points)|, mean);
  }
}
