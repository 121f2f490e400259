/** The fixed aggregations the CSV dashboard draws from the filtered rows
    (w.py:245-253, 272-275, 289-292, 325-329, 343-346, 364-398): KPI values,
    the five rainiest locations, extreme-rain counts, monthly and yearly
    mean rainfall, and the bucketed rain-tomorrow probabilities. Every sum
    and mean is exact; display rounding is not modelled. */
module Aggregations {
  import opened Options
  import opened Strings
  import opened Seqs
  import opened ColumnResolver
  import opened Rows
  import opened Ranking

  /** pandas' `sum()`: missing values are skipped; the empty sum is 0. */
  function Sum(xs: seq<Option<real>>): real
  {
    if |xs| == 0 then 0.0 else xs[0].GetOr(0.0) + Sum(xs[1..])
  }

  function PresentCount(xs: seq<Option<real>>): nat
  {
    if |xs| == 0 then 0 else (if xs[0].Some? then 1 else 0) + PresentCount(xs[1..])
  }

  /** pandas' `mean()`: missing values are skipped, and the mean of no value
      is undefined (NaN), modelled as `None`. */
  function Mean(xs: seq<Option<real>>): (r: Option<real>)
    ensures r.Some? <==> PresentCount(xs) > 0
    ensures r.Some? ==> AveragesTo(xs, r.value)
  {
    if PresentCount(xs) == 0 then None else Some(Sum(xs) / PresentCount(xs) as real)
  }

  /** `v` times the number of present values is their sum. */
  predicate AveragesTo(xs: seq<Option<real>>, v: real)
  {
    v * PresentCount(xs) as real == Sum(xs)
  }

  predicate PresentWithin(xs: seq<Option<real>>, lo: real, hi: real)
  {
    forall i :: 0 <= i < |xs| && xs[i].Some? ==> lo <= xs[i].value <= hi
  }

  lemma {:induction false} SumWithin(xs: seq<Option<real>>, lo: real, hi: real)
    requires PresentWithin(xs, lo, hi)
    ensures PresentCount(xs) as real * lo <= Sum(xs) <= PresentCount(xs) as real * hi
    decreases |xs|
  {
    if |xs| > 0 {
      assert PresentWithin(xs[1..], lo, hi) by {
        forall i | 0 <= i < |xs[1..]| && xs[1..][i].Some? ensures lo <= xs[1..][i].value <= hi {
          assert xs[1..][i] == xs[i + 1];
        }
      }
      SumWithin(xs[1..], lo, hi);
      var c := PresentCount(xs[1..]) as real;
      var rest := Sum(xs[1..]);
      if xs[0].Some? {
        var v := xs[0].value;
        assert lo <= v <= hi;
        assert Sum(xs) == v + rest;
        assert PresentCount(xs) as real == c + 1.0;
        assert (c + 1.0) * lo == c * lo + lo;
        assert (c + 1.0) * hi == c * hi + hi;
      } else {
        assert Sum(xs) == rest;
        assert PresentCount(xs) as real == c;
      }
    }
  }

  /** A mean lies between any lower and upper bound of the values it
      averages. */
  lemma MeanWithin(xs: seq<Option<real>>, lo: real, hi: real)
    requires PresentWithin(xs, lo, hi)
    ensures Mean(xs).Some? ==> lo <= Mean(xs).value <= hi
  {
    if PresentCount(xs) > 0 {
      SumWithin(xs, lo, hi);
      QuotientWithin(Sum(xs), PresentCount(xs) as real, lo, hi);
    }
  }

  /** `MeanWithin` for every pair of bounds at once. */
  lemma MeanWithinAll(xs: seq<Option<real>>)
    ensures forall lo, hi :: PresentWithin(xs, lo, hi) && Mean(xs).Some? ==> lo <= Mean(xs).value <= hi
  {
    forall lo, hi | PresentWithin(xs, lo, hi) && Mean(xs).Some? ensures lo <= Mean(xs).value <= hi {
      MeanWithin(xs, lo, hi);
    }
  }

  lemma QuotientWithin(s: real, c: real, lo: real, hi: real)
    requires c > 0.0 && c * lo <= s <= c * hi
    ensures lo <= s / c <= hi
  {
    var q := s / c;
    assert q * c == s;
    assert (q - lo) * c == s - lo * c;
    assert (hi - q) * c == hi * c - s;
  }

  lemma {:induction false} SumAppend(a: seq<Option<real>>, b: seq<Option<real>>)
    ensures Sum(a + b) == Sum(a) + Sum(b)
    decreases |a|
  {
    if |a| > 0 {
      assert (a + b)[1..] == a[1..] + b;
      SumAppend(a[1..], b);
    } else {
      assert a + b == b;
    }
  }

  function Rainfalls(rows: seq<Obs>): (r: seq<Option<real>>)
    ensures |r| == |rows|
    ensures forall i :: 0 <= i < |rows| ==> r[i] == rows[i].rainfall
  {
    if |rows| == 0 then [] else [rows[0].rainfall] + Rainfalls(rows[1..])
  }

  lemma RainfallsAppend(a: seq<Obs>, b: seq<Obs>)
    ensures Rainfalls(a + b) == Rainfalls(a) + Rainfalls(b)
  {
  }

  /** The rows of one location (the groups of `groupby(location_col)`, whose
      missing keys form no group). */
  function RowsAt(rows: seq<Obs>, key: string): (r: seq<Obs>)
    ensures forall o :: o in r <==> o in rows && o.location == Some(key)
    ensures |r| <= |rows|
  {
    Filter(rows, (o: Obs) => o.location == Some(key))
  }

  function Locations(rows: seq<Obs>): (r: seq<Option<string>>)
    ensures |r| == |rows|
    ensures forall i :: 0 <= i < |rows| ==> r[i] == rows[i].location
  {
    if |rows| == 0 then [] else [rows[0].location] + Locations(rows[1..])
  }

  /** The distinct present locations, in first-appearance order. */
  function Keys(rows: seq<Obs>): (r: seq<string>)
    ensures forall i, j :: 0 <= i < j < |r| ==> r[i] != r[j]
    ensures forall k :: k in r <==> Some(k) in Locations(rows)
  {
    if |rows| == 0 then []
    else
      var init := rows[..|rows| - 1];
      var ks := Keys(init);
      var loc := rows[|rows| - 1].location;
      LocationsSnoc(rows);
      if loc.Some? && loc.value !in ks then
        DistinctSnoc(ks, loc.value);
        ks + [loc.value]
      else ks
  }

  lemma {:induction false} LocationsSnoc(rows: seq<Obs>)
    requires |rows| > 0
    ensures Locations(rows) == Locations(rows[..|rows| - 1]) + [rows[|rows| - 1].location]
  {
    var init := rows[..|rows| - 1];
    var a := Locations(rows);
    var b := Locations(init) + [rows[|rows| - 1].location];
    forall i | 0 <= i < |a| ensures a[i] == b[i] {
      if i < |init| {
        assert init[i] == rows[i];
      }
    }
  }

  lemma {:induction false} DistinctSnoc(ks: seq<string>, k: string)
    requires forall i, j :: 0 <= i < j < |ks| ==> ks[i] != ks[j]
    requires k !in ks
    ensures forall i, j :: 0 <= i < j < |ks + [k]| ==> (ks + [k])[i] != (ks + [k])[j]
  {
  }

  /** The mean rainfall of one location. */
  function LocationMean(rows: seq<Obs>, key: string): Option<real>
  {
    Mean(Rainfalls(RowsAt(rows, key)))
  }

  /** `groupby(location_col)[rainfall_col].mean()`: one group per present
      location. */
  function MeanTable(rows: seq<Obs>): (r: seq<Ranked>)
    ensures |r| == |Keys(rows)|
    ensures forall i :: 0 <= i < |r| ==> r[i].key == Keys(rows)[i]
    ensures forall i :: 0 <= i < |r| ==> r[i].score == LocationMean(rows, r[i].key)
    ensures DistinctKeys(r)
  {
    var ks := Keys(rows);
    seq(|ks|, i requires 0 <= i < |ks| => Ranked(ks[i], LocationMean(rows, ks[i])))
  }

  /** Every group of a table built over `Keys(rows)` is one location's. */
  lemma TopOfTable(table: seq<Ranked>, ks: seq<string>, r: seq<Ranked>)
    requires |table| == |ks| && forall i :: 0 <= i < |table| ==> table[i].key == ks[i]
    requires multiset(r) <= multiset(table)
    ensures forall i :: 0 <= i < |r| ==> r[i] in table && r[i].key in ks
  {
    forall i | 0 <= i < |r| ensures r[i] in table && r[i].key in ks {
      assert r[i] in multiset(r);
      assert r[i] in multiset(table);
      var j :| 0 <= j < |table| && table[j] == r[i];
    }
  }

  /** Chart "Top 5 Rainiest Cities" (`mean().nlargest(5)`): five distinct
      locations, or all of them when fewer, each with its mean rainfall, in
      ranking order, and no location left out ranks above one shown. */
  function TopRainiest(rows: seq<Obs>): (r: seq<Ranked>)
    ensures |r| == Min(5, |Keys(rows)|)
    ensures SortedDesc(r)
    ensures DistinctKeys(r)
    ensures forall i :: 0 <= i < |r| ==> r[i].key in Keys(rows) && r[i].score == LocationMean(rows, r[i].key)
    ensures forall k, i :: k in Keys(rows) && Ranked(k, LocationMean(rows, k)) !in r && 0 <= i < |r| ==>
      !Precedes(Ranked(k, LocationMean(rows, k)), r[i])
  {
    var table := MeanTable(rows);
    var r := TopN(table, 5);
    TopOfTable(table, Keys(rows), r);
    forall k | k in Keys(rows) ensures Ranked(k, LocationMean(rows, k)) in table {
      MeanTableHas(rows, k);
    }
    r
  }

  lemma MeanTableHas(rows: seq<Obs>, k: string)
    requires k in Keys(rows)
    ensures Ranked(k, LocationMean(rows, k)) in MeanTable(rows)
  {
    var j :| 0 <= j < |Keys(rows)| && Keys(rows)[j] == k;
    assert MeanTable(rows)[j] == Ranked(k, LocationMean(rows, k));
  }

  /** More than 100 mm of rain; a missing amount compares false. */
  predicate IsExtreme(o: Obs)
  {
    o.rainfall.Some? && o.rainfall.value > 100.0
  }

  /** `df[df[rainfall_col] > 100]`: the extreme rows, in order, each as
      often as it occurs. */
  function ExtremeRows(rows: seq<Obs>): (r: seq<Obs>)
    ensures r == Filter(rows, IsExtreme)
    ensures IsSubseq(r, rows)
    ensures forall o :: o in r <==> o in rows && o.rainfall.Some? && o.rainfall.value > 100.0
  {
    FilterIsSubseq(rows, IsExtreme);
    Filter(rows, IsExtreme)
  }

  /** `groupby(location_col).size()`: the row count of every present
      location. */
  function CountTable(rows: seq<Obs>): (r: seq<Ranked>)
    ensures |r| == |Keys(rows)|
    ensures forall i :: 0 <= i < |r| ==> r[i].key == Keys(rows)[i]
    ensures forall i :: 0 <= i < |r| ==> r[i].score == Some(|RowsAt(rows, r[i].key)| as real)
    ensures DistinctKeys(r)
  {
    var ks := Keys(rows);
    seq(|ks|, i requires 0 <= i < |ks| => Ranked(ks[i], Some(|RowsAt(rows, ks[i])| as real)))
  }

  lemma LocatedRowsExist(rows: seq<Obs>, k: string)
    requires k in Keys(rows)
    ensures |RowsAt(rows, k)| >= 1
  {
    var i :| 0 <= i < |rows| && Locations(rows)[i] == Some(k);
    assert rows[i] in RowsAt(rows, k);
  }

  lemma ShownLocated(rows: seq<Obs>, r: seq<Ranked>)
    requires forall i :: 0 <= i < |r| ==> r[i].key in Keys(rows)
    ensures forall i :: 0 <= i < |r| ==> |RowsAt(rows, r[i].key)| >= 1
  {
    forall i | 0 <= i < |r| ensures |RowsAt(rows, r[i].key)| >= 1 {
      LocatedRowsExist(rows, r[i].key);
    }
  }

  /** Chart "Days with Extreme Rain": five distinct locations, or every location
      when fewer have an extreme row, each with the number of its rows whose
      rainfall exceeds 100 (at least one), in ranking order; no location left
      out has more. */
  function ExtremeDays(rows: seq<Obs>): (r: seq<Ranked>)
    ensures |r| <= 5
    ensures |r| == Min(5, |Keys(ExtremeRows(rows))|)
    ensures SortedDesc(r)
    ensures DistinctKeys(r)
    ensures forall i :: 0 <= i < |r| ==>
      r[i].key in Keys(ExtremeRows(rows)) &&
      r[i].score == Some(|RowsAt(ExtremeRows(rows), r[i].key)| as real) &&
      |RowsAt(ExtremeRows(rows), r[i].key)| >= 1
    ensures forall k, i ::
      (k in Keys(ExtremeRows(rows)) && 0 <= i < |r| &&
       Ranked(k, Some(|RowsAt(ExtremeRows(rows), k)| as real)) !in r) ==>
      !Precedes(Ranked(k, Some(|RowsAt(ExtremeRows(rows), k)| as real)), r[i])
  {
    var ex := ExtremeRows(rows);
    var table := CountTable(ex);
    var r := TopN(table, 5);
    TopOfTable(table, Keys(ex), r);
    ShownLocated(ex, r);
    forall k | k in Keys(ex) ensures Ranked(k, Some(|RowsAt(ex, k)| as real)) in table {
      CountTableHas(ex, k);
    }
    r
  }

  lemma CountTableHas(rows: seq<Obs>, k: string)
    requires k in Keys(rows)
    ensures Ranked(k, Some(|RowsAt(rows, k)| as real)) in CountTable(rows)
  {
    var j :| 0 <= j < |Keys(rows)| && Keys(rows)[j] == k;
    assert CountTable(rows)[j] == Ranked(k, Some(|RowsAt(rows, k)| as real));
  }

  /** The grouping key of the monthly (`dt.month`) or yearly (`dt.year`)
      trend. */
  function PeriodKey(o: Obs, byYear: bool): nat
  {
    if byYear then o.date.year else o.date.month
  }

  function PeriodKeys(rows: seq<Obs>, byYear: bool): (r: seq<nat>)
    ensures |r| == |rows|
    ensures forall i :: 0 <= i < |rows| ==> r[i] == PeriodKey(rows[i], byYear)
  {
    if |rows| == 0 then [] else [PeriodKey(rows[0], byYear)] + PeriodKeys(rows[1..], byYear)
  }

  function RowsInPeriod(rows: seq<Obs>, byYear: bool, key: nat): (r: seq<Obs>)
    ensures forall o :: o in r <==> o in rows && PeriodKey(o, byYear) == key
  {
    Filter(rows, (o: Obs) => PeriodKey(o, byYear) == key)
  }

  predicate StrictlyIncreasing(s: seq<nat>)
  {
    forall i, j :: 0 <= i < j < |s| ==> s[i] < s[j]
  }

  function InsertKey(x: nat, s: seq<nat>): (r: seq<nat>)
    requires StrictlyIncreasing(s)
    ensures StrictlyIncreasing(r)
    ensures forall y :: y in r <==> y == x || y in s
  {
    if |s| == 0 then [x]
    else if x < s[0] then [x] + s
    else if x == s[0] then s
    else
      var rest := InsertKey(x, s[1..]);
      assert s == [s[0]] + s[1..];
      ConsIncreasing(s[0], rest, s[1..], x);
      [s[0]] + rest
  }

  /** Putting `h` in front of `rest` keeps the keys increasing when `h` is
      below every key `rest` holds. */
  lemma ConsIncreasing(h: nat, rest: seq<nat>, tail: seq<nat>, x: nat)
    requires StrictlyIncreasing([h] + tail) && h < x
    requires StrictlyIncreasing(rest)
    requires forall y :: y in rest <==> y == x || y in tail
    ensures StrictlyIncreasing([h] + rest)
  {
    var r := [h] + rest;
    forall j | 0 <= j < |rest| ensures h < rest[j] {
      assert rest[j] in rest;
      if rest[j] != x {
        var k :| 0 <= k < |tail| && tail[k] == rest[j];
        assert ([h] + tail)[0] == h && ([h] + tail)[k + 1] == tail[k];
      }
    }
    forall i, j | 0 <= i < j < |r| ensures r[i] < r[j] {
      assert r[j] == rest[j - 1];
      if i > 0 {
        assert r[i] == rest[i - 1];
      }
    }
  }

  /** The distinct values of `xs` in ascending order, as `groupby` lists
      its groups. */
  function SortedDistinct(xs: seq<nat>): (r: seq<nat>)
    ensures StrictlyIncreasing(r)
    ensures forall y :: y in r <==> y in xs
  {
    if |xs| == 0 then []
    else
      assert forall y :: y in xs <==> y == xs[0] || y in xs[1..];
      InsertKey(xs[0], SortedDistinct(xs[1..]))
  }

  /** One point of a trend line: a month or a year and its mean rainfall. */
  datatype Period = Period(key: nat, mean: Option<real>)

  /** `groupby(month or year)[rainfall_col].mean()`: one point per month (or
      year) that occurs in the rows, ascending; a point whose rainfall is all
      missing has an undefined mean. */
  function PeriodMeans(rows: seq<Obs>, byYear: bool): (r: seq<Period>)
    ensures forall i, j :: 0 <= i < j < |r| ==> r[i].key < r[j].key
    ensures forall i :: 0 <= i < |r| ==> r[i].key in PeriodKeys(rows, byYear)
    ensures forall k :: k in PeriodKeys(rows, byYear) ==> exists i :: 0 <= i < |r| && r[i].key == k
    ensures forall i :: 0 <= i < |r| ==> r[i].mean == Mean(Rainfalls(RowsInPeriod(rows, byYear, r[i].key)))
  {
    var ks := SortedDistinct(PeriodKeys(rows, byYear));
    var r := seq(|ks|, i requires 0 <= i < |ks| => Period(ks[i], Mean(Rainfalls(RowsInPeriod(rows, byYear, ks[i])))));
    assert forall i :: 0 <= i < |r| ==> r[i].key == ks[i];
    forall k | k in PeriodKeys(rows, byYear) ensures exists i :: 0 <= i < |r| && r[i].key == k {
      KeyListed(r, ks, k);
    }
    r
  }

  /** Every point's key is the month (or year) of some row. */
  lemma PeriodsFromRows(rows: seq<Obs>, byYear: bool, r: seq<Period>)
    requires forall i :: 0 <= i < |r| ==> r[i].key in PeriodKeys(rows, byYear)
    ensures forall i :: 0 <= i < |r| ==> exists o :: o in rows && PeriodKey(o, byYear) == r[i].key
  {
    forall i | 0 <= i < |r| ensures exists o :: o in rows && PeriodKey(o, byYear) == r[i].key {
      KeyHasRow(rows, byYear, r[i].key);
    }
  }

  lemma KeyHasRow(rows: seq<Obs>, byYear: bool, k: nat)
    requires k in PeriodKeys(rows, byYear)
    ensures exists o :: o in rows && PeriodKey(o, byYear) == k
  {
    var j :| 0 <= j < |PeriodKeys(rows, byYear)| && PeriodKeys(rows, byYear)[j] == k;
    assert rows[j] in rows && PeriodKey(rows[j], byYear) == k;
  }

  /** Every row's month (or year) has a point. */
  lemma PeriodsCoverRows(rows: seq<Obs>, byYear: bool, r: seq<Period>)
    requires forall k :: k in PeriodKeys(rows, byYear) ==> exists i :: 0 <= i < |r| && r[i].key == k
    ensures forall o :: o in rows ==> exists i :: 0 <= i < |r| && r[i].key == PeriodKey(o, byYear)
  {
    forall o | o in rows ensures exists i :: 0 <= i < |r| && r[i].key == PeriodKey(o, byYear) {
      var j :| 0 <= j < |rows| && rows[j] == o;
      assert PeriodKeys(rows, byYear)[j] in PeriodKeys(rows, byYear);
    }
  }

  lemma KeyListed(r: seq<Period>, ks: seq<nat>, k: nat)
    requires |r| == |ks| && forall i :: 0 <= i < |r| ==> r[i].key == ks[i]
    requires k in ks
    ensures exists i :: 0 <= i < |r| && r[i].key == k
  {
    var i :| 0 <= i < |ks| && ks[i] == k;
    assert r[i].key == k;
  }

  /** Chart "Average Rainfall by Month" (w.py:289-292): one point per month that occurs in
      the rows, ascending, each with the mean rainfall of that month's
      rows. */
  function MonthlyMeans(rows: seq<Obs>): (r: seq<Period>)
    ensures forall i, j :: 0 <= i < j < |r| ==> r[i].key < r[j].key
    ensures forall i :: 0 <= i < |r| ==> exists o :: o in rows && o.date.month == r[i].key
    ensures forall o :: o in rows ==> exists i :: 0 <= i < |r| && r[i].key == o.date.month
    ensures forall i :: 0 <= i < |r| ==>
      r[i].mean == Mean(Rainfalls(RowsInPeriod(rows, false, r[i].key)))
  {
    var r := PeriodMeans(rows, false);
    PeriodsFromRows(rows, false, r);
    PeriodsCoverRows(rows, false, r);
    r
  }

  /** Chart "Annual Rainfall Trend" (w.py:343-346): one point per year that occurs in
      the rows, ascending, each with the mean rainfall of that year's
      rows. */
  function YearlyMeans(rows: seq<Obs>): (r: seq<Period>)
    ensures forall i, j :: 0 <= i < j < |r| ==> r[i].key < r[j].key
    ensures forall i :: 0 <= i < |r| ==> exists o :: o in rows && o.date.year == r[i].key
    ensures forall o :: o in rows ==> exists i :: 0 <= i < |r| && r[i].key == o.date.year
    ensures forall i :: 0 <= i < |r| ==>
      r[i].mean == Mean(Rainfalls(RowsInPeriod(rows, true, r[i].key)))
  {
    var r := PeriodMeans(rows, true);
    PeriodsFromRows(rows, true, r);
    PeriodsCoverRows(rows, true, r);
    r
  }

  /** The measure a probability chart buckets. */
  datatype Measure = Humidity | WindSpeed

  function MeasureOf(o: Obs, m: Measure): Option<real>
  {
    match m
    case Humidity => o.humidity
    case WindSpeed => o.windSpeed
  }

  function MeasureColumn(schema: Schema, m: Measure): Option<string>
  {
    match m
    case Humidity => schema.humidity
    case WindSpeed => schema.windSpeed
  }

  /** `pd.cut` edges (right-closed intervals) and their labels. */
  datatype Binning = Binning(edges: seq<real>, labels: seq<string>)

  const HumidityBins := Binning([-1.0, 50.0, 80.0, 200.0], ["Low", "Medium", "High"])
  const WindBins := Binning([-1.0, 15.0, 30.0, 1000000.0], ["Calm", "Moderate", "Strong"])

  function BinsOf(m: Measure): (b: Binning)
    ensures |b.edges| == 4 && |b.labels| == 3
    ensures b.edges[0] < b.edges[1] < b.edges[2] < b.edges[3]
  {
    match m
    case Humidity => HumidityBins
    case WindSpeed => WindBins
  }

  /** A measured value and the next day's rain flag, both present. */
  datatype Sample = Sample(value: real, rainTomorrow: Flag)

  /** `filtered_df[[col, raintom_col]].dropna()`. */
  function Samples(rows: seq<Obs>, m: Measure): (r: seq<Sample>)
    ensures |r| <= |rows|
  {
    if |rows| == 0 then []
    else
      var o := rows[0];
      (if MeasureOf(o, m).Some? && o.rainTomorrow.Some?
       then [Sample(MeasureOf(o, m).value, o.rainTomorrow.value)] else [])
      + Samples(rows[1..], m)
  }

  lemma {:induction false} SamplesAppend(a: seq<Obs>, b: seq<Obs>, m: Measure)
    ensures Samples(a + b, m) == Samples(a, m) + Samples(b, m)
    decreases |a|
  {
    if |a| > 0 {
      assert (a + b)[1..] == a[1..] + b;
      SamplesAppend(a[1..], b, m);
    } else {
      assert a + b == b;
    }
  }

  /** `v` falls in the right-closed interval (lo, hi]. */
  predicate InBin(lo: real, hi: real, v: real)
  {
    lo < v <= hi
  }

  function SamplesIn(samples: seq<Sample>, lo: real, hi: real): (r: seq<Sample>)
    ensures |r| <= |samples|
    ensures forall s :: s in r <==> s in samples && InBin(lo, hi, s.value)
  {
    Filter(samples, (s: Sample) => InBin(lo, hi, s.value))
  }

  function YesCount(samples: seq<Sample>): (n: nat)
    ensures n <= |samples|
  {
    if |samples| == 0 then 0
    else (if samples[0].rainTomorrow == Yes then 1 else 0) + YesCount(samples[1..])
  }

  /** `(s == "Yes").mean() * 100`: the percentage of samples followed by
      rain; undefined for an empty bucket. */
  function RainPercent(samples: seq<Sample>): (r: Option<real>)
    ensures r.Some? <==> |samples| > 0
    ensures r.Some? ==> 0.0 <= r.value <= 100.0
    ensures r.Some? ==> r.value * |samples| as real == 100.0 * YesCount(samples) as real
  {
    if |samples| == 0 then None
    else
      var n := |samples| as real;
      var y := YesCount(samples) as real;
      assert 0.0 <= y <= n;
      assert 100.0 * y / n <= 100.0 by {
        assert 100.0 * y <= 100.0 * n;
      }
      Some(100.0 * y / n)
  }

  datatype Bucket = Bucket(name: string, probability: Option<real>)

  /** Charts "Rain Probability by Humidity Level" and "... by Wind Strength"
      (w.py:363-374, 387-398). Absent when the filtered rows are empty, a
      needed column is missing, or no row has both values; otherwise the
      three buckets in label order, each holding the rain-tomorrow
      percentage of the samples inside its interval. */
  function RainProbability(rows: seq<Obs>, schema: Schema, m: Measure): (r: Option<seq<Bucket>>)
    ensures r.Some? <==>
      |rows| > 0 && Present(MeasureColumn(schema, m)) && Present(schema.rainTomorrow) && |Samples(rows, m)| > 0
    ensures r.Some? ==> |r.value| == 3 && forall b :: 0 <= b < 3 ==>
      r.value[b].name == BinsOf(m).labels[b] &&
      r.value[b].probability == RainPercent(SamplesIn(Samples(rows, m), BinsOf(m).edges[b], BinsOf(m).edges[b + 1]))
  {
    var samples := Samples(rows, m);
    if |rows| == 0 || !Present(MeasureColumn(schema, m)) || !Present(schema.rainTomorrow) || |samples| == 0 then None
    else
      var bins := BinsOf(m);
      Some(seq(3, b requires 0 <= b < 3 =>
        Bucket(bins.labels[b], RainPercent(SamplesIn(samples, bins.edges[b], bins.edges[b + 1])))))
  }

  /** A row missing the measure or the rain-tomorrow flag changes no
      bucket: such rows are dropped before bucketing. */
  lemma IncompleteRowIgnored(rows: seq<Obs>, schema: Schema, m: Measure, o: Obs)
    requires MeasureOf(o, m).None? || o.rainTomorrow.None?
    ensures RainProbability(rows + [o], schema, m) == RainProbability(rows, schema, m)
  {
    SamplesAppend(rows, [o], m);
    assert Samples([o], m) == [];
    assert Samples(rows + [o], m) == Samples(rows, m);
  }

  /** The buckets split the interval (edges[0], edges[3]]: a sample falls in
      exactly one bucket when inside it and in none otherwise. */
  lemma BucketsPartition(m: Measure, v: real)
    ensures var e := BinsOf(m).edges;
      (InBin(e[0], e[1], v) || InBin(e[1], e[2], v) || InBin(e[2], e[3], v)) <==> InBin(e[0], e[3], v)
    ensures var e := BinsOf(m).edges;
      !(InBin(e[0], e[1], v) && InBin(e[1], e[2], v)) && !(InBin(e[1], e[2], v) && InBin(e[2], e[3], v)) &&
      !(InBin(e[0], e[1], v) && InBin(e[2], e[3], v))
  {
  }

  /** The four KPI values: mean maximum temperature and mean humidity
      (undefined without their columns), total rainfall and the number of
      rows with rain today. */
  datatype Kpis = Kpis(avgTemp: Option<real>, avgHumidity: Option<real>, totalRain: real, rainyDays: nat)

  function MaxTemps(rows: seq<Obs>): (r: seq<Option<real>>)
    ensures |r| == |rows|
    ensures forall i :: 0 <= i < |rows| ==> r[i] == rows[i].maxTemp
  {
    if |rows| == 0 then [] else [rows[0].maxTemp] + MaxTemps(rows[1..])
  }

  function Humidities(rows: seq<Obs>): (r: seq<Option<real>>)
    ensures |r| == |rows|
    ensures forall i :: 0 <= i < |rows| ==> r[i] == rows[i].humidity
  {
    if |rows| == 0 then [] else [rows[0].humidity] + Humidities(rows[1..])
  }

  /** The rows the "Rainy Days" KPI counts: `rain_today` reads "Yes". */
  predicate RainedToday(o: Obs)
  {
    o.rainToday == Some(Yes)
  }

  function RainyDays(rows: seq<Obs>): (n: nat)
    ensures n == |Filter(rows, RainedToday)|
  {
    if |rows| == 0 then 0
    else (if rows[0].rainToday == Some(Yes) then 1 else 0) + RainyDays(rows[1..])
  }

  /** A KPI mean of one optional column: undefined without the column or
      without a present value; otherwise the sum of the present values over
      their number, within any bounds of those values. */
  function ColumnMean(present: bool, xs: seq<Option<real>>): (r: Option<real>)
    ensures r.Some? <==> present && PresentCount(xs) > 0
    ensures r.Some? ==>
      AveragesTo(xs, r.value) &&
      forall lo, hi :: PresentWithin(xs, lo, hi) ==> lo <= r.value <= hi
  {
    MeanWithinAll(xs);
    if present then Mean(xs) else None
  }

  /** The KPI row; absent when the filtered rows are empty. Each mean is the
      sum of the present values over their number, and lies within any
      bounds of those values. */
  function ComputeKpis(rows: seq<Obs>, schema: Schema): (r: Option<Kpis>)
    ensures r.Some? <==> |rows| > 0
    ensures r.Some? ==> r.value.rainyDays <= |rows|
    ensures r.Some? ==> (r.value.avgTemp.Some? <==> Present(schema.maxTemp) && PresentCount(MaxTemps(rows)) > 0)
    ensures r.Some? && r.value.avgTemp.Some? ==>
      AveragesTo(MaxTemps(rows), r.value.avgTemp.value) &&
      forall lo, hi :: PresentWithin(MaxTemps(rows), lo, hi) ==> lo <= r.value.avgTemp.value <= hi
    ensures r.Some? ==> (r.value.avgHumidity.Some? <==> Present(schema.humidity) && PresentCount(Humidities(rows)) > 0)
    ensures r.Some? && r.value.avgHumidity.Some? ==>
      AveragesTo(Humidities(rows), r.value.avgHumidity.value) &&
      forall lo, hi :: PresentWithin(Humidities(rows), lo, hi) ==> lo <= r.value.avgHumidity.value <= hi
    ensures r.Some? ==> r.value.totalRain == Sum(Rainfalls(rows))
    ensures r.Some? && Present(schema.rainToday) ==> r.value.rainyDays == |Filter(rows, RainedToday)|
    ensures r.Some? && !Present(schema.rainToday) ==> r.value.rainyDays == 0
  {
    if |rows| == 0 then None
    else
      var temp := ColumnMean(Present(schema.maxTemp), MaxTemps(rows));
      var humidity := ColumnMean(Present(schema.humidity), Humidities(rows));
      var rainy := if Present(schema.rainToday) then RainyDays(rows) else 0;
      Some(Kpis(temp, humidity, Sum(Rainfalls(rows)), rainy))
  }

  function DatedRainfall(raws: seq<RawRow>): real
  {
    if |raws| == 0 then 0.0
    else (if raws[0].date.Some? then raws[0].rainfall.GetOr(0.0) else 0.0) + DatedRainfall(raws[1..])
  }

  /** Total rainfall after loading is the sum over exactly the rows whose
      date parsed: coercion drops no other row and alters no amount. */
  lemma {:induction false} TotalRainAfterCoerce(schema: Schema, raws: seq<RawRow>)
    ensures Sum(Rainfalls(Coerce(schema, raws))) == DatedRainfall(raws)
    decreases |raws|
  {
    if |raws| > 0 {
      TotalRainAfterCoerce(schema, raws[1..]);
      var rest := Coerce(schema, raws[1..]);
      if raws[0].date.Some? {
        assert Coerce(schema, raws) == [CoerceRow(schema, raws[0])] + rest;
        RainfallsAppend([CoerceRow(schema, raws[0])], rest);
        SumAppend(Rainfalls([CoerceRow(schema, raws[0])]), Rainfalls(rest));
      }
    }
  }
}
