/** `city_means_for_day`: the cleaned rows of one day are grouped by city,
    country, display name and coordinates, each group is reduced to the mean
    of its AQI values, and each mean is classified by label and colour. */
module Aggregation {
  import opened Wrappers
  import opened Cells
  import opened Eaqi
  import opened Cleaning
  import opened Rows

  /** The grouping key: `["city", "country", "country_name", "latitude", "longitude"]`. */
  datatype GroupKey = GroupKey(city: Value, country: Value, countryName: string,
                               latitude: real, longitude: real)

  /** One row of the aggregated table, with the `label` and `color` columns. */
  datatype Point = Point(key: GroupKey, aqi: real, tier: string, color: string)

  function KeyOf(r: Record): GroupKey {
    GroupKey(r.city, r.country, r.countryName, r.latitude, r.longitude)
  }

  /** True when some row of `rows` has key `k`. */
  ghost predicate Occurs(rows: seq<Record>, k: GroupKey) {
    exists j :: 0 <= j < |rows| && KeyOf(rows[j]) == k
  }

  /** The distinct keys of `rows`, in order of first appearance: each key
      occurring in the rows appears exactly once, and no other key appears. */
  function Keys(rows: seq<Record>): (ks: seq<GroupKey>)
    ensures forall i, j :: 0 <= i < j < |ks| ==> ks[i] != ks[j]
    ensures forall k :: k in ks <==> Occurs(rows, k)
  {
    if rows == [] then []
    else
      var front := rows[..|rows| - 1];
      var ks := Keys(front);
      var k := KeyOf(rows[|rows| - 1]);
      assert forall k' :: Occurs(front, k') ==> Occurs(rows, k') by {
        forall k' | Occurs(front, k') ensures Occurs(rows, k') {
          var j :| 0 <= j < |front| && KeyOf(front[j]) == k';
          assert rows[j] == front[j];
        }
      }
      assert forall k' :: Occurs(rows, k') ==> Occurs(front, k') || k' == k by {
        forall k' | Occurs(rows, k') ensures Occurs(front, k') || k' == k {
          var j :| 0 <= j < |rows| && KeyOf(rows[j]) == k';
          if j < |front| {
            assert front[j] == rows[j];
          }
        }
      }
      if k in ks then ks else ks + [k]
  }

  /** The mask `df[key] == k`. */
  function WithKey(k: GroupKey): Record -> bool {
    (r: Record) => KeyOf(r) == k
  }

  /** The mask selecting the rows with key `k` and AQI value `x`. */
  function WithKeyAndAqi(k: GroupKey, x: real): Record -> bool {
    (r: Record) => KeyOf(r) == k && r.aqi == x
  }

  /** `rows["european_aqi"]` */
  function AqiColumn(rows: seq<Record>): (xs: seq<real>)
    ensures |xs| == |rows| && forall i :: 0 <= i < |rows| ==> xs[i] == rows[i].aqi
  {
    seq(|rows|, i requires 0 <= i < |rows| => rows[i].aqi)
  }

  lemma AqiColumnAppend(a: seq<Record>, b: seq<Record>)
    ensures AqiColumn(a + b) == AqiColumn(a) + AqiColumn(b)
  {
  }

  /** The AQI values of the rows with key `k`, in row order. */
  function GroupAqi(rows: seq<Record>, k: GroupKey): (xs: seq<real>)
    ensures |xs| <= |rows|
  {
    if rows == [] then []
    else
      var last := rows[|rows| - 1];
      GroupAqi(rows[..|rows| - 1], k) + (if KeyOf(last) == k then [last.aqi] else [])
  }

  /** A group is the AQI column of the rows the mask `df[key] == k` keeps,
      repetitions and order included. */
  lemma {:induction false} GroupAqiIsMasked(rows: seq<Record>, k: GroupKey)
    ensures GroupAqi(rows, k) == AqiColumn(Filter(rows, WithKey(k)))
  {
    if rows != [] {
      var front := rows[..|rows| - 1];
      var last := rows[|rows| - 1];
      var tail := if KeyOf(last) == k then [last] else [];
      GroupAqiIsMasked(front, k);
      assert Filter(rows, WithKey(k)) == Filter(front, WithKey(k)) + tail;
      AqiColumnAppend(Filter(front, WithKey(k)), tail);
    }
  }

  /** A value occurs in a group exactly as often as the rows with that key
      carry it, so the group's mean counts every reading. */
  lemma {:induction false} GroupAqiCounts(rows: seq<Record>, k: GroupKey, x: real)
    ensures multiset(GroupAqi(rows, k))[x] == |Filter(rows, WithKeyAndAqi(k, x))|
  {
    if rows != [] {
      var front := rows[..|rows| - 1];
      var last := rows[|rows| - 1];
      GroupAqiCounts(front, k, x);
      assert GroupAqi(rows, k) == GroupAqi(front, k) + (if KeyOf(last) == k then [last.aqi] else []);
      assert Filter(rows, WithKeyAndAqi(k, x)) ==
             Filter(front, WithKeyAndAqi(k, x)) + (if KeyOf(last) == k && last.aqi == x then [last] else []);
    }
  }

  /** The members of a group are exactly the AQI values of the rows with
      that key; a group is non-empty exactly when its key occurs. */
  lemma {:induction false} GroupAqiMembers(rows: seq<Record>, k: GroupKey)
    ensures forall x :: x in GroupAqi(rows, k) <==>
              exists j :: 0 <= j < |rows| && KeyOf(rows[j]) == k && rows[j].aqi == x
    ensures |GroupAqi(rows, k)| > 0 <==> Occurs(rows, k)
  {
    if rows != [] {
      var front := rows[..|rows| - 1];
      var last := rows[|rows| - 1];
      GroupAqiMembers(front, k);
      var xs := GroupAqi(rows, k);
      assert xs == GroupAqi(front, k) + (if KeyOf(last) == k then [last.aqi] else []);
      forall x | x in xs
        ensures exists j :: 0 <= j < |rows| && KeyOf(rows[j]) == k && rows[j].aqi == x
      {
        if x in GroupAqi(front, k) {
          var j :| 0 <= j < |front| && KeyOf(front[j]) == k && front[j].aqi == x;
          assert rows[j] == front[j];
        } else {
          assert KeyOf(rows[|rows| - 1]) == k && rows[|rows| - 1].aqi == x;
        }
      }
      forall x | exists j :: 0 <= j < |rows| && KeyOf(rows[j]) == k && rows[j].aqi == x
        ensures x in xs
      {
        var j :| 0 <= j < |rows| && KeyOf(rows[j]) == k && rows[j].aqi == x;
        if j < |front| {
          assert front[j] == rows[j];
        }
      }
      if Occurs(rows, k) {
        var j :| 0 <= j < |rows| && KeyOf(rows[j]) == k;
        assert rows[j].aqi in xs;
      }
      if |xs| > 0 {
        assert xs[0] in xs;
      }
    }
  }

  /** Sum of a list of reals, added from the front. */
  function Sum(xs: seq<real>): real {
    if xs == [] then 0.0 else Sum(xs[..|xs| - 1]) + xs[|xs| - 1]
  }

  /** The arithmetic mean pandas' `"mean"` aggregation takes: it lies
      between the smallest and the largest value. */
  function Mean(xs: seq<real>): (m: real)
    requires |xs| > 0
    ensures Min(xs) <= m <= Max(xs)
  {
    QuotientWithin(xs, Min(xs), Max(xs));
    Sum(xs) / (|xs| as real)
  }

  /** The quotient `Sum(xs) / |xs|` of values lying in `[lo, hi]` lies in
      `[lo, hi]`. */
  lemma QuotientWithin(xs: seq<real>, lo: real, hi: real)
    requires |xs| > 0
    requires forall i :: 0 <= i < |xs| ==> lo <= xs[i] <= hi
    ensures lo <= Sum(xs) / (|xs| as real) <= hi
  {
    SumBounds(xs, lo, hi);
    DivideBounds(lo, Sum(xs), hi, |xs| as real);
  }

  /** Dividing `n * lo <= s <= n * hi` by a positive `n`. */
  lemma DivideBounds(lo: real, s: real, hi: real, n: real)
    requires n > 0.0 && n * lo <= s <= n * hi
    ensures lo <= s / n <= hi
  {
    assert lo == (n * lo) / n && hi == (n * hi) / n;
  }

  /** A sum of `n` values lying in `[lo, hi]` lies in `[n * lo, n * hi]`. */
  lemma {:induction false} SumBounds(xs: seq<real>, lo: real, hi: real)
    requires forall i :: 0 <= i < |xs| ==> lo <= xs[i] <= hi
    ensures (|xs| as real) * lo <= Sum(xs) <= (|xs| as real) * hi
  {
    if xs != [] {
      var front := xs[..|xs| - 1];
      assert forall i :: 0 <= i < |front| ==> front[i] == xs[i];
      SumBounds(front, lo, hi);
      assert (|xs| as real) * lo == (|front| as real) * lo + lo;
      assert (|xs| as real) * hi == (|front| as real) * hi + hi;
    }
  }

  /** The mean of values lying in `[lo, hi]` lies in `[lo, hi]`. */
  lemma MeanWithin(xs: seq<real>, lo: real, hi: real)
    requires |xs| > 0
    requires forall i :: 0 <= i < |xs| ==> lo <= xs[i] <= hi
    ensures lo <= Mean(xs) <= hi
  {
    var m, n := Min(xs), Max(xs);
    var i :| 0 <= i < |xs| && xs[i] == m;
    var j :| 0 <= j < |xs| && xs[j] == n;
  }

  /** The smallest and the largest value of a non-empty list. */
  function Min(xs: seq<real>): (m: real)
    requires |xs| > 0
    ensures m in xs && forall i :: 0 <= i < |xs| ==> m <= xs[i]
  {
    if |xs| == 1 then xs[0]
    else
      var m := Min(xs[1..]);
      assert forall i :: 1 <= i < |xs| ==> xs[i] == xs[1..][i - 1];
      if xs[0] <= m then xs[0] else m
  }

  function Max(xs: seq<real>): (m: real)
    requires |xs| > 0
    ensures m in xs && forall i :: 0 <= i < |xs| ==> xs[i] <= m
  {
    if |xs| == 1 then xs[0]
    else
      var m := Max(xs[1..]);
      assert forall i :: 1 <= i < |xs| ==> xs[i] == xs[1..][i - 1];
      if xs[0] >= m then xs[0] else m
  }

  /** A group's output row: the mean, its label and its colour. */
  function MeanPoint(k: GroupKey, xs: seq<real>): Point
    requires |xs| > 0
  {
    var m := Mean(xs);
    Point(k, m, Label(Some(m)), Color(Some(m)))
  }

  /** `city_means_for_day`: one point per distinct key of the rows, in order
      of first appearance. */
  function CityMeans(rows: seq<Record>): (points: seq<Point>)
    ensures |points| == |Keys(rows)|
  {
    var ks := Keys(rows);
    seq(|ks|, i requires 0 <= i < |ks| =>
      GroupAqiMembers(rows, ks[i]);
      MeanPoint(ks[i], GroupAqi(rows, ks[i])))
  }

  /** The output has one row per key occurring in the rows, and no key twice. */
  lemma CityMeansKeys(rows: seq<Record>)
    ensures var points := CityMeans(rows);
      && (forall i, j :: 0 <= i < j < |points| ==> points[i].key != points[j].key)
      && (forall k :: (exists i :: 0 <= i < |points| && points[i].key == k) <==> Occurs(rows, k))
  {
    var points := CityMeans(rows);
    var ks := Keys(rows);
    assert forall i :: 0 <= i < |points| ==> points[i].key == ks[i];
    forall k | Occurs(rows, k)
      ensures exists i :: 0 <= i < |points| && points[i].key == k
    {
      var i :| 0 <= i < |ks| && ks[i] == k;
      assert points[i].key == k;
    }
  }

  /** No rows, no points; some rows, some points. */
  lemma CityMeansEmpty(rows: seq<Record>)
    ensures CityMeans(rows) == [] <==> rows == []
  {
    if rows != [] {
      assert Occurs(rows, KeyOf(rows[0]));
      assert KeyOf(rows[0]) in Keys(rows);
    }
  }

  /** Each point's AQI is the mean of its group, lies between the group's
      smallest and largest value (both of which are AQI values of rows with
      that key), and carries the label and colour of that mean. */
  lemma CityMeansPoint(rows: seq<Record>, i: nat)
    requires i < |CityMeans(rows)|
    ensures var p := CityMeans(rows)[i]; var xs := GroupAqi(rows, p.key);
      && Occurs(rows, p.key) && |xs| > 0
      && p.aqi == Mean(xs) && Min(xs) <= p.aqi <= Max(xs)
      && (exists j :: 0 <= j < |rows| && KeyOf(rows[j]) == p.key && rows[j].aqi <= p.aqi)
      && (exists j :: 0 <= j < |rows| && KeyOf(rows[j]) == p.key && p.aqi <= rows[j].aqi)
      && p.tier == Label(Some(p.aqi)) && p.color == Color(Some(p.aqi))
  {
    var p := CityMeans(rows)[i];
    var xs := GroupAqi(rows, p.key);
    assert p.key == Keys(rows)[i];
    GroupAqiMembers(rows, p.key);
    assert Min(xs) in xs && Max(xs) in xs;
  }

  /** The mean of one value, and of two. */
  lemma MeanSmall(a: real, b: real)
    ensures Mean([a]) == a
    ensures Mean([a, b]) == (a + b) / 2.0
  {
    assert [a][..0] == [] && [a, b][..1] == [a];
  }

  /** A single row has its own key, and its group is its own reading. */
  lemma OneRow(r: Record, k: GroupKey)
    ensures Keys([r]) == [KeyOf(r)]
    ensures GroupAqi([r], k) == if KeyOf(r) == k then [r.aqi] else []
  {
    assert [r][..0] == [];
  }

  /** Two rows at the same place form one group holding both readings. */
  lemma SamePlaceGroups(r1: Record, r2: Record)
    requires KeyOf(r1) == KeyOf(r2)
    ensures Keys([r1, r2]) == [KeyOf(r1)]
    ensures GroupAqi([r1, r2], KeyOf(r1)) == [r1.aqi, r2.aqi]
  {
    var k := KeyOf(r1);
    OneRow(r1, k);
    assert [r1, r2][..1] == [r1];
  }

  /** Two rows at different places form two groups of one reading each. */
  lemma ApartGroups(r1: Record, r2: Record)
    requires KeyOf(r1) != KeyOf(r2)
    ensures Keys([r1, r2]) == [KeyOf(r1), KeyOf(r2)]
    ensures GroupAqi([r1, r2], KeyOf(r1)) == [r1.aqi]
    ensures GroupAqi([r1, r2], KeyOf(r2)) == [r2.aqi]
  {
    OneRow(r1, KeyOf(r1));
    OneRow(r1, KeyOf(r2));
    assert [r1, r2][..1] == [r1];
  }

  /** Two readings of 30 and 50 at the same place give one point at 40,
      classified "Bon" (the upper threshold is inclusive). */
  lemma TwoReadingsExample(city: Value, country: Value, d: Date)
    ensures var r1 := Record(city, country, "France", d, 45.76, 4.84, 30.0);
            var r2 := Record(city, country, "France", d, 45.76, 4.84, 50.0);
            CityMeans([r1, r2]) == [Point(KeyOf(r1), 40.0, "Bon", "#0078FF")]
  {
    var r1 := Record(city, country, "France", d, 45.76, 4.84, 30.0);
    var r2 := Record(city, country, "France", d, 45.76, 4.84, 50.0);
    var k := KeyOf(r1);
    SamePlaceGroups(r1, r2);
    assert MeanPoint(k, [30.0, 50.0]) == Point(k, 40.0, "Bon", "#0078FF") by {
      MeanSmall(30.0, 50.0);
    }
  }

  /** Readings at two different places stay apart. */
  lemma TwoPlacesExample(d: Date)
    ensures var r1 := Record(Str("Lyon"), Str("FR"), "France", d, 45.76, 4.84, 30.0);
            var r2 := Record(Str("Lille"), Str("FR"), "France", d, 50.63, 3.06, 90.0);
            CityMeans([r1, r2]) == [Point(KeyOf(r1), 30.0, "Bon", "#0078FF"),
                                    Point(KeyOf(r2), 90.0, "Mauvais", "#DC143C")]
  {
    var r1 := Record(Str("Lyon"), Str("FR"), "France", d, 45.76, 4.84, 30.0);
    var r2 := Record(Str("Lille"), Str("FR"), "France", d, 50.63, 3.06, 90.0);
    var k1, k2 := KeyOf(r1), KeyOf(r2);
    assert k1 != k2 by {
      assert "Lyon"[1] != "Lille"[1];
    }
    ApartGroups(r1, r2);
    assert MeanPoint(k1, [30.0]) == Point(k1, 30.0, "Bon", "#0078FF") by {
      MeanSmall(30.0, 0.0);
    }
    assert MeanPoint(k2, [90.0]) == Point(k2, 90.0, "Mauvais", "#DC143C") by {
      MeanSmall(90.0, 0.0);
    }
  }

  /** One more row: the key list gains the row's key if it is new, and the
      row's group gains its AQI value in sum and in count. */
  lemma GroupStep(front: seq<Record>, r: Record)
    ensures var k := KeyOf(r);
      Keys(front + [r]) == if k in Keys(front) then Keys(front) else Keys(front) + [k]
    ensures KeyOf(r) !in Keys(front) ==> GroupAqi(front, KeyOf(r)) == []
    ensures forall k ::
              && Sum(GroupAqi(front + [r], k)) ==
                   Sum(GroupAqi(front, k)) + (if KeyOf(r) == k then r.aqi else 0.0)
              && |GroupAqi(front + [r], k)| ==
                   |GroupAqi(front, k)| + (if KeyOf(r) == k then 1 else 0)
  {
    var rows := front + [r];
    assert rows[..|rows| - 1] == front;
    if KeyOf(r) !in Keys(front) {
      GroupAqiMembers(front, KeyOf(r));
    }
    forall k
      ensures Sum(GroupAqi(rows, k)) == Sum(GroupAqi(front, k)) + (if KeyOf(r) == k then r.aqi else 0.0)
    {
      var xs := GroupAqi(front, k);
      assert GroupAqi(rows, k) == xs + (if KeyOf(r) == k then [r.aqi] else []);
      if KeyOf(r) == k {
        assert (xs + [r.aqi])[..|xs|] == xs;
      } else {
        assert GroupAqi(rows, k) == xs;
      }
    }
  }

  /** The running state of the `groupby` pass over `seen`: the keys seen so
      far, and the sum and count of each key's AQI values. */
  ghost predicate Accumulated(seen: seq<Record>, keys: seq<GroupKey>,
                              sums: map<GroupKey, real>, counts: map<GroupKey, nat>)
  {
    && keys == Keys(seen)
    && forall k :: k in keys ==>
         (k in sums && k in counts
          && sums[k] == Sum(GroupAqi(seen, k)) && counts[k] == |GroupAqi(seen, k)|)
  }

  /** One step of the `groupby` pass: row `r` is added to its key's sum and
      count, and its key is appended when seen for the first time. */
  method AddRow(ghost seen: seq<Record>, r: Record, keys: seq<GroupKey>,
                sums: map<GroupKey, real>, counts: map<GroupKey, nat>)
    returns (keys': seq<GroupKey>, sums': map<GroupKey, real>, counts': map<GroupKey, nat>)
    requires Accumulated(seen, keys, sums, counts)
    ensures Accumulated(seen + [r], keys', sums', counts')
  {
    GroupStep(seen, r);
    var k := KeyOf(r);
    if k in keys {
      keys', sums', counts' := keys, sums[k := sums[k] + r.aqi], counts[k := counts[k] + 1];
    } else {
      keys', sums', counts' := keys + [k], sums[k := r.aqi], counts[k := 1];
    }
  }

  /** The `groupby` pass: one walk over the rows accumulating, for each key
      in order of first appearance, the sum and the count of its AQI values. */
  method GroupSums(rows: seq<Record>)
    returns (keys: seq<GroupKey>, sums: map<GroupKey, real>, counts: map<GroupKey, nat>)
    ensures keys == Keys(rows)
    ensures forall k :: k in keys ==>
              (k in sums && k in counts
               && sums[k] == Sum(GroupAqi(rows, k)) && counts[k] == |GroupAqi(rows, k)|)
  {
    keys, sums, counts := [], map[], map[];
    var i := 0;
    while i < |rows|
      invariant 0 <= i <= |rows|
      invariant Accumulated(rows[..i], keys, sums, counts)
    {
      assert rows[..i + 1] == rows[..i] + [rows[i]];
      keys, sums, counts := AddRow(rows[..i], rows[i], keys, sums, counts);
      i := i + 1;
    }
    assert rows[..i] == rows;
  }

  /** `city_means_for_day`, as pandas runs it: the grouped sums and counts,
      the mean of each group, then the `label` and `color` columns added to
      the grouped table. */
  method CityMeansForDay(rows: seq<Record>) returns (points: seq<Point>)
    ensures points == CityMeans(rows)
  {
    var keys, sums, counts := GroupSums(rows);
    var means: seq<real> := [];
    var j := 0;
    while j < |keys|
      invariant 0 <= j <= |keys|
      invariant |means| == j
      invariant forall m :: 0 <= m < j ==>
                  (|GroupAqi(rows, keys[m])| > 0 && means[m] == Mean(GroupAqi(rows, keys[m])))
    {
      GroupAqiMembers(rows, keys[j]);
      means := means + [sums[keys[j]] / (counts[keys[j]] as real)];
      j := j + 1;
    }
    points := [];
    j := 0;
    while j < |keys|
      invariant 0 <= j <= |keys|
      invariant |points| == j
      invariant forall m :: 0 <= m < j ==> points[m] == MeanPoint(keys[m], GroupAqi(rows, keys[m]))
    {
      points := points + [Point(keys[j], means[j], Label(Some(means[j])), Color(Some(means[j])))];
      j := j + 1;
    }
  }
}
