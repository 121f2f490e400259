/** The temperature slider of the CSV dashboard (w.py:160-164, 190-194):
    its bounds, which are also its default selection, come from the
    smallest and largest maximum temperature in the table. */
module Slider {
  import opened Options
  import opened Strings
  import opened ColumnResolver
  import opened Rows
  import opened Selections
  import opened Filters
  import opened Aggregations

  /** `min(skipna=True)`: the smallest present value; undefined (NaN) when
      none is present. */
  function MinPresent(xs: seq<Option<real>>): (r: Option<real>)
    ensures r.None? <==> forall i :: 0 <= i < |xs| ==> xs[i].None?
    ensures r.Some? ==> exists i :: 0 <= i < |xs| && xs[i] == r
    ensures r.Some? ==> forall i :: 0 <= i < |xs| && xs[i].Some? ==> r.value <= xs[i].value
  {
    if |xs| == 0 then None
    else
      var rest := MinPresent(xs[1..]);
      assert forall i :: 1 <= i < |xs| ==> xs[i] == xs[1..][i - 1];
      if xs[0].None? then
        (if rest.Some? then assert exists i :: 0 <= i < |xs[1..]| && xs[1..][i] == rest; rest else rest)
      else if rest.None? || xs[0].value <= rest.value then xs[0]
      else assert exists i :: 0 <= i < |xs[1..]| && xs[1..][i] == rest; rest
  }

  /** `max(skipna=True)`. */
  function MaxPresent(xs: seq<Option<real>>): (r: Option<real>)
    ensures r.None? <==> forall i :: 0 <= i < |xs| ==> xs[i].None?
    ensures r.Some? ==> exists i :: 0 <= i < |xs| && xs[i] == r
    ensures r.Some? ==> forall i :: 0 <= i < |xs| && xs[i].Some? ==> xs[i].value <= r.value
  {
    if |xs| == 0 then None
    else
      var rest := MaxPresent(xs[1..]);
      assert forall i :: 1 <= i < |xs| ==> xs[i] == xs[1..][i - 1];
      if xs[0].None? then
        (if rest.Some? then assert exists i :: 0 <= i < |xs[1..]| && xs[1..][i] == rest; rest else rest)
      else if rest.None? || rest.value <= xs[0].value then xs[0]
      else assert exists i :: 0 <= i < |xs[1..]| && xs[1..][i] == rest; rest
  }

  /** Row `i` holds a smallest measured maximum temperature. */
  predicate LeastTemp(rows: seq<Obs>, i: int)
  {
    0 <= i < |rows| && rows[i].maxTemp.Some? &&
    forall k :: 0 <= k < |rows| && rows[k].maxTemp.Some? ==> rows[i].maxTemp.value <= rows[k].maxTemp.value
  }

  /** Row `j` holds a largest measured maximum temperature. */
  predicate GreatestTemp(rows: seq<Obs>, j: int)
  {
    0 <= j < |rows| && rows[j].maxTemp.Some? &&
    forall k :: 0 <= k < |rows| && rows[k].maxTemp.Some? ==> rows[k].maxTemp.value <= rows[j].maxTemp.value
  }

  /** The slider bounds as written: `int()` of the extremes, which
      truncates toward zero. Without a temperature column the generic range
      -10..50 is used. `None` stands for the `ValueError` that `int(NaN)`
      raises when the column holds no number at all. */
  function SliderBoundsAsWritten(rows: seq<Obs>, schema: Schema): (r: Option<seq<real>>)
    ensures r.Some? ==> |r.value| == 2
    ensures !Present(schema.maxTemp) ==> r == Some([-10.0, 50.0])
    ensures Present(schema.maxTemp) ==>
      (r.None? <==> forall i :: 0 <= i < |rows| ==> rows[i].maxTemp.None?)
    ensures Present(schema.maxTemp) && r.Some? ==>
      exists i, j :: LeastTemp(rows, i) && GreatestTemp(rows, j) &&
        r.value == [Trunc(rows[i].maxTemp.value) as real, Trunc(rows[j].maxTemp.value) as real]
  {
    if !Present(schema.maxTemp) then Some([-10.0, 50.0])
    else
      var lo := MinPresent(MaxTemps(rows));
      var hi := MaxPresent(MaxTemps(rows));
      if lo.None? || hi.None? then None
      else
        var i :| 0 <= i < |MaxTemps(rows)| && MaxTemps(rows)[i] == lo;
        var j :| 0 <= j < |MaxTemps(rows)| && MaxTemps(rows)[j] == hi;
        assert LeastTemp(rows, i) && GreatestTemp(rows, j);
        Some([Trunc(lo.value) as real, Trunc(hi.value) as real])
  }

  /** Rounding up: the least integer not below `x`. */
  function Ceil(x: real): (r: int)
    ensures x <= r as real < x + 1.0
  {
    -((-x).Floor)
  }

  /** The slider bounds as evidently intended, and as the SQL dashboard
      computes them (`FLOOR(MIN(maxtemp))`, `CEIL(MAX(maxtemp))`): the
      extremes rounded outward, so the default band contains every measured
      temperature. */
  function SliderBounds(rows: seq<Obs>, schema: Schema): (r: Option<seq<real>>)
    ensures r.Some? ==> |r.value| == 2
    ensures !Present(schema.maxTemp) ==> r == Some([-10.0, 50.0])
    ensures Present(schema.maxTemp) ==>
      (r.None? <==> forall i :: 0 <= i < |rows| ==> rows[i].maxTemp.None?)
    ensures Present(schema.maxTemp) && r.Some? ==> forall i :: 0 <= i < |rows| && rows[i].maxTemp.Some? ==>
      r.value[0] <= rows[i].maxTemp.value <= r.value[1]
  {
    if !Present(schema.maxTemp) then Some([-10.0, 50.0])
    else
      var lo := MinPresent(MaxTemps(rows));
      var hi := MaxPresent(MaxTemps(rows));
      if lo.None? || hi.None? then None
      else Some([lo.value.Floor as real, Ceil(hi.value) as real])
  }

  /** The selection with every other filter cleared and the given
      temperature band. */
  function ClearedSelection(band: seq<real>): Selection
  {
    Selection([], [], All, "All", "All", band)
  }

  /** With the corrected default band and no other filter, the chain keeps
      exactly the rows whose maximum temperature is present. */
  lemma DefaultBandKeepsMeasuredRows(rows: seq<Obs>, schema: Schema, o: Obs)
    requires Present(schema.maxTemp) && SliderBounds(rows, schema).Some?
    ensures o in ApplyFilters(rows, ClearedSelection(SliderBounds(rows, schema).value), schema) <==>
      o in rows && o.maxTemp.Some?
  {
    var band := SliderBounds(rows, schema).value;
    var sel := ClearedSelection(band);
    FilterChainSubsequence(rows, sel, schema, o);
    ClearedAccepts(band, schema, o);
    if o in rows && o.maxTemp.Some? {
      var i :| 0 <= i < |rows| && rows[i] == o;
      assert band[0] <= o.maxTemp.value <= band[1];
    }
  }

  /** With every other filter cleared, only the temperature band decides. */
  lemma ClearedAccepts(band: seq<real>, schema: Schema, o: Obs)
    requires Present(schema.maxTemp) && |band| == 2
    ensures Accepts(ClearedSelection(band), schema, o) <==>
      o.maxTemp.Some? && band[0] <= o.maxTemp.value <= band[1]
  {
    AllIsNoChoice();
  }

  lemma AllIsNoChoice()
    ensures "All" != "Yes" && "All" != "No"
  {
    assert "All"[0] != "Yes"[0] && "All"[0] != "No"[0];
  }

  /** A two-row table whose maximum temperatures are 10.0 and 45.5
      degrees. */
  const CoolRow := Obs(Date(2020, 1, 1), Some("Sydney"), None, Some(10.0), None, None, None, None)
  const WarmRow := Obs(Date(2020, 1, 2), Some("Sydney"), None, Some(45.5), None, None, None, None)
  const WarmSchema := Schema("Date", "Location", "Rainfall", Some("MaxTemp"), None, None, None, None)

  /** The sidebar as it first appears for that table: every city selected
      (w.py:166-168), the full date range (w.py:170-173), no season, the
      only rain choice offered without flag columns, "N/A" (w.py:178-188),
      and the given temperature band. */
  function UntouchedSelection(band: seq<real>): Selection
  {
    Selection(["Sydney"], [Some(Date(2020, 1, 1)), Some(Date(2020, 1, 2))], All, "N/A", "N/A", band)
  }

  /** On the witness rows, the untouched sidebar decides by the band alone. */
  lemma UntouchedAccepts(band: seq<real>, o: Obs)
    requires |band| == 2 && (o == CoolRow || o == WarmRow)
    ensures Accepts(UntouchedSelection(band), WarmSchema, o) <==>
      o.maxTemp.Some? && band[0] <= o.maxTemp.value <= band[1]
  {
    var sel := UntouchedSelection(band);
    assert LocationOk(sel, o) by {
      assert LocationText(o.location) == sel.locations[0];
    }
    assert DateOk(sel, o);
  }

  /** As written, the default band of that table is 10..45, which excludes
      the 45.5-degree row although no filter was touched; the corrected band
      10..46 keeps both rows. */
  lemma TruncatedBandDropsRow()
    ensures SliderBoundsAsWritten([CoolRow, WarmRow], WarmSchema) == Some([10.0, 45.0])
    ensures ApplyFilters([CoolRow, WarmRow], UntouchedSelection([10.0, 45.0]), WarmSchema) == [CoolRow]
    ensures SliderBounds([CoolRow, WarmRow], WarmSchema) == Some([10.0, 46.0])
    ensures ApplyFilters([CoolRow, WarmRow], UntouchedSelection([10.0, 46.0]), WarmSchema) == [CoolRow, WarmRow]
  {
    WitnessExtremes();
    assert Trunc(10.0) == 10 && Trunc(45.5) == 45;
    assert Ceil(45.5) == 46;
    TruncatedBandFilters();
    CorrectedBandFilters();
  }

  lemma WitnessExtremes()
    ensures MinPresent(MaxTemps([CoolRow, WarmRow])) == Some(10.0)
    ensures MaxPresent(MaxTemps([CoolRow, WarmRow])) == Some(45.5)
  {
    var xs := [Some(10.0), Some(45.5)];
    assert MaxTemps([CoolRow, WarmRow]) == xs;
    assert xs[1..] == [Some(45.5)];
  }

  lemma TruncatedBandFilters()
    ensures ApplyFilters([CoolRow, WarmRow], UntouchedSelection([10.0, 45.0]), WarmSchema) == [CoolRow]
  {
    var rows := [CoolRow, WarmRow];
    var sel := UntouchedSelection([10.0, 45.0]);
    UntouchedAccepts([10.0, 45.0], CoolRow);
    UntouchedAccepts([10.0, 45.0], WarmRow);
    assert rows[1..] == [WarmRow] && [WarmRow][1..] == [];
    assert Accepted([WarmRow], sel, WarmSchema) == [];
  }

  lemma CorrectedBandFilters()
    ensures ApplyFilters([CoolRow, WarmRow], UntouchedSelection([10.0, 46.0]), WarmSchema) == [CoolRow, WarmRow]
  {
    UntouchedAccepts([10.0, 46.0], CoolRow);
    UntouchedAccepts([10.0, 46.0], WarmRow);
    AcceptedAll([CoolRow, WarmRow], UntouchedSelection([10.0, 46.0]), WarmSchema);
  }
}
