/** The map view of the CSV dashboard (w.py:411-476): the ten rainiest
    locations by mean rainfall, placed with a fixed coordinate table; a
    location missing from the table is dropped from the map. */
module Geocode {
  import opened Options
  import opened Seqs
  import opened Ranking
  import opened Rows
  import opened Aggregations

  datatype Coord = Coord(lat: real, lon: real)

  /** The fallback coordinates of Australian weather stations (w.py:423-471). */
  const CityCoords: map<string, Coord> := map[
    "Sydney" := Coord(-33.8688, 151.2093),
    "SydneyAirport" := Coord(-33.9461, 151.1772),
    "Melbourne" := Coord(-37.8136, 144.9631),
    "MelbourneAirport" := Coord(-37.6653, 144.8320),
    "Brisbane" := Coord(-27.4698, 153.0251),
    "Perth" := Coord(-31.9505, 115.8605),
    "Adelaide" := Coord(-34.9285, 138.6007),
    "Darwin" := Coord(-12.4634, 130.8456),
    "Cairns" := Coord(-16.9203, 145.7700),
    "Hobart" := Coord(-42.8821, 147.3272),
    "Canberra" := Coord(-35.2809, 149.1300),
    "GoldCoast" := Coord(-28.0167, 153.4000),
    "Wollongong" := Coord(-34.4278, 150.8931),
    "CoffsHarbour" := Coord(-30.2963, 153.1157),
    "Townsville" := Coord(-19.2589, 146.8169),
    "Albury" := Coord(-36.0806, 146.9156),
    "Ballarat" := Coord(-37.5622, 143.8503),
    "Bendigo" := Coord(-36.7570, 144.2794),
    "Newcastle" := Coord(-32.9283, 151.7817),
    "NorahHead" := Coord(-33.2810, 151.5790),
    "Richmond" := Coord(-33.6000, 150.7500),
    "WaggaWagga" := Coord(-35.1080, 147.3700),
    "Williamtown" := Coord(-32.7950, 151.8400),
    "Sale" := Coord(-38.1092, 147.0687),
    "Mildura" := Coord(-34.2050, 142.1240),
    "Portland" := Coord(-38.3420, 141.6060),
    "Watsonia" := Coord(-37.7167, 145.0833),
    "Moree" := Coord(-29.4653, 149.8417),
    "Penrith" := Coord(-33.7510, 150.6900),
    "Tuggeranong" := Coord(-35.4240, 149.0880),
    "MountGinini" := Coord(-35.5290, 148.7720),
    "PearceRAAF" := Coord(-31.6670, 116.0160),
    "PerthAirport" := Coord(-31.9403, 115.9672),
    "Albany" := Coord(-35.0228, 117.8814),
    "Witchcliffe" := Coord(-34.0126, 115.1013),
    "SalmonGums" := Coord(-32.9833, 121.6333),
    "Walpole" := Coord(-34.9766, 116.7334),
    "Launceston" := Coord(-41.4332, 147.1441),
    "AliceSprings" := Coord(-23.6980, 133.8807),
    "Katherine" := Coord(-14.4650, 132.2630),
    "Uluru" := Coord(-25.3444, 131.0369),
    "Cobar" := Coord(-31.4988, 145.8440),
    "BadgerysCreek" := Coord(-33.8850, 150.6900),
    "Nhil" := Coord(-36.3333, 141.6500),
    "Dartmoor" := Coord(-37.9170, 141.2720),
    "Nuriootpa" := Coord(-34.4690, 138.9960),
    "Woomera" := Coord(-31.1980, 136.8250)
  ]

  /** One marker: a location, its mean rainfall and its coordinates. */
  datatype MapPoint = MapPoint(location: string, avgRain: Option<real>, coord: Coord)

  /** A marker sits at its location's tabled coordinates. */
  predicate PlacedAt(p: MapPoint)
  {
    p.location in CityCoords && p.coord == CityCoords[p.location]
  }

  function AsRanked(p: MapPoint): Ranked
  {
    Ranked(p.location, p.avgRain)
  }

  /** A ranked location the coordinate table knows. */
  predicate Tabled(x: Ranked)
  {
    x.key in CityCoords
  }

  /** The marker of a tabled location. */
  function Marker(x: Ranked): MapPoint
    requires Tabled(x)
  {
    MapPoint(x.key, x.score, CityCoords[x.key])
  }

  /** `location_coords.get(...)` followed by `dropna(subset=["lat", "lon"])`:
      ranked locations with known coordinates become markers, one each, in
      order; the others are dropped. */
  function Locate(top: seq<Ranked>): (r: seq<MapPoint>)
    ensures |r| == |Filter(top, Tabled)| <= |top|
    ensures forall i :: 0 <= i < |r| ==> r[i] == Marker(Filter(top, Tabled)[i])
    ensures forall i :: 0 <= i < |r| ==>
      PlacedAt(r[i]) && AsRanked(r[i]) in top
    ensures forall x :: x in top && x.key in CityCoords ==> MapPoint(x.key, x.score, CityCoords[x.key]) in r
  {
    if |top| == 0 then []
    else
      var rest := Locate(top[1..]);
      assert forall x :: x in top ==> x == top[0] || x in top[1..];
      LocateStep(top, rest);
      if top[0].key in CityCoords then
        var p := MapPoint(top[0].key, top[0].score, CityCoords[top[0].key]);
        var r := [p] + rest;
        assert forall i :: 0 < i < |r| ==> r[i] == rest[i - 1];
        r
      else rest
  }

  /** The induction step of `Locate`: a tabled head entry becomes the first
      marker, ahead of the markers of the rest. */
  lemma LocateStep(top: seq<Ranked>, rest: seq<MapPoint>)
    requires |top| > 0 && |rest| == |Filter(top[1..], Tabled)|
    requires forall i :: 0 <= i < |rest| ==> rest[i] == Marker(Filter(top[1..], Tabled)[i])
    ensures !Tabled(top[0]) ==> Filter(top, Tabled) == Filter(top[1..], Tabled)
    ensures Tabled(top[0]) ==>
      var r := [Marker(top[0])] + rest;
      |r| == |Filter(top, Tabled)| &&
      forall i :: 0 <= i < |r| ==> r[i] == Marker(Filter(top, Tabled)[i])
  {
    if Tabled(top[0]) {
      var r := [Marker(top[0])] + rest;
      var f := Filter(top, Tabled);
      assert f == [top[0]] + Filter(top[1..], Tabled);
      forall i | 0 <= i < |r| ensures r[i] == Marker(f[i]) {
        if i > 0 {
          assert r[i] == rest[i - 1] && f[i] == Filter(top[1..], Tabled)[i - 1];
        }
      }
    }
  }

  /** Distinct ranked locations give markers at distinct locations. */
  lemma LocateDistinct(top: seq<Ranked>)
    requires DistinctKeys(top)
    ensures forall i, j :: 0 <= i < j < |Locate(top)| ==> Locate(top)[i].location != Locate(top)[j].location
  {
    var f := Filter(top, Tabled);
    FilterMultiset(top, Tabled);
    DistinctKeysKept(f, top);
    var r := Locate(top);
    forall i, j | 0 <= i < j < |r| ensures r[i].location != r[j].location {
      assert r[i].location == f[i].key && r[j].location == f[j].key;
    }
  }

  /** Dropping unlocated entries keeps the ranking order. */
  lemma {:induction false} LocateKeepsOrder(top: seq<Ranked>)
    requires SortedDesc(top)
    ensures MarkersDesc(Locate(top))
    decreases |top|
  {
    if |top| > 0 {
      assert SortedDesc(top[1..]);
      LocateKeepsOrder(top[1..]);
      var rest := Locate(top[1..]);
      if Tabled(top[0]) {
        assert Locate(top) == [Marker(top[0])] + rest;
        MarkerAhead(top, rest);
      }
    }
  }

  /** The marker of the best-ranked entry goes ahead of the markers drawn
      from the entries after it. */
  lemma MarkerAhead(top: seq<Ranked>, rest: seq<MapPoint>)
    requires SortedDesc(top) && |top| > 0 && Tabled(top[0])
    requires MarkersDesc(rest)
    requires forall i :: 0 <= i < |rest| ==> AsRanked(rest[i]) in top[1..]
    ensures MarkersDesc([Marker(top[0])] + rest)
  {
    var r := [Marker(top[0])] + rest;
    assert forall i :: 0 < i < |r| ==> r[i] == rest[i - 1];
    forall j | 0 < j < |r| ensures !Precedes(AsRanked(r[j]), AsRanked(r[0])) {
      var k :| 0 <= k < |top[1..]| && top[1..][k] == AsRanked(r[j]);
      assert top[k + 1] == AsRanked(r[j]);
    }
  }

  /** Whether a table of located markers is ordered by rank. */
  predicate MarkersDesc(r: seq<MapPoint>)
  {
    forall i, j :: 0 <= i < j < |r| ==> !Precedes(AsRanked(r[j]), AsRanked(r[i]))
  }

  /** Markers placed from ranked location means carry those means. */
  lemma MarkersOfTop(rows: seq<Obs>, top: seq<Ranked>)
    requires forall i :: 0 <= i < |top| ==> top[i].key in Keys(rows) && top[i].score == LocationMean(rows, top[i].key)
    ensures forall i :: 0 <= i < |Locate(top)| ==>
      Locate(top)[i].location in Keys(rows) && Locate(top)[i].avgRain == LocationMean(rows, Locate(top)[i].location)
  {
    var r := Locate(top);
    forall i | 0 <= i < |r| ensures r[i].location in Keys(rows) && r[i].avgRain == LocationMean(rows, r[i].location) {
      var k :| 0 <= k < |top| && top[k] == AsRanked(r[i]);
    }
  }

  /** Every entry of the top-`n` table is a location with its mean. */
  lemma TopMeans(rows: seq<Obs>, n: nat)
    ensures forall i :: 0 <= i < |TopN(MeanTable(rows), n)| ==>
      TopN(MeanTable(rows), n)[i].key in Keys(rows) &&
      TopN(MeanTable(rows), n)[i].score == LocationMean(rows, TopN(MeanTable(rows), n)[i].key)
  {
    var table := MeanTable(rows);
    var top := TopN(table, n);
    TopOfTable(table, Keys(rows), top);
    MeanEntries(rows, top);
  }

  /** Entries drawn from the mean table carry their location's mean. */
  lemma MeanEntries(rows: seq<Obs>, r: seq<Ranked>)
    requires forall i :: 0 <= i < |r| ==> r[i] in MeanTable(rows)
    ensures forall i :: 0 <= i < |r| ==> r[i].key in Keys(rows) && r[i].score == LocationMean(rows, r[i].key)
  {
    var table := MeanTable(rows);
    forall i | 0 <= i < |r| ensures r[i].key in Keys(rows) && r[i].score == LocationMean(rows, r[i].key) {
      assert r[i] in table;
      var j :| 0 <= j < |table| && table[j] == r[i];
    }
  }

  /** The map view: absent when no location has a group ("No data for
      current filters"); otherwise at most ten markers, in rank order, each
      at a location of the rows with its mean rainfall and its tabled
      coordinates. Each location among the ten rainiest with known
      coordinates gets exactly one marker, and no other location does. */
  function MapView(rows: seq<Obs>): (r: Option<seq<MapPoint>>)
    ensures r.None? <==> |Keys(rows)| == 0
    ensures r.Some? ==> |r.value| <= 10 && MarkersDesc(r.value)
    ensures r.Some? ==> forall i :: 0 <= i < |r.value| ==>
      r.value[i].location in Keys(rows) && r.value[i].avgRain == LocationMean(rows, r.value[i].location) &&
      PlacedAt(r.value[i])
    ensures r.Some? ==> forall x :: x in TopN(MeanTable(rows), 10) && x.key in CityCoords ==>
      MapPoint(x.key, x.score, CityCoords[x.key]) in r.value
    ensures r.Some? ==> |r.value| == |Filter(TopN(MeanTable(rows), 10), Tabled)|
    ensures r.Some? ==> forall i, j :: 0 <= i < j < |r.value| ==> r.value[i].location != r.value[j].location
  {
    if |Keys(rows)| == 0 then None
    else
      var table := MeanTable(rows);
      var top := TopN(table, 10);
      TopMeans(rows, 10);
      MarkersOfTop(rows, top);
      LocateKeepsOrder(top);
      LocateDistinct(top);
      Some(Locate(top))
  }
}
