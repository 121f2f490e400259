/** The row filter chain of the CSV dashboard (w.py:205-238): location
    membership, inclusive date range, season months, rain-flag equality and
    the inclusive maximum-temperature band, applied one after another. */
module Filters {
  import opened Options
  import opened Strings
  import opened Seqs
  import opened ColumnResolver
  import opened Rows
  import opened Selections

  /** `astype(str)` of a location cell: a missing one reads "nan". */
  function LocationText(loc: Option<string>): string
  {
    match loc
    case Some(s) => s
    case None => "nan"
  }

  predicate LocationActive(sel: Selection)
  {
    |sel.locations| > 0
  }

  predicate LocationOk(sel: Selection, o: Obs)
  {
    LocationText(o.location) in sel.locations
  }

  predicate DateOk(sel: Selection, o: Obs)
  {
    DateRangeActive(sel) &&
    DateLe(sel.dateRange[0].value, o.date) && DateLe(o.date, sel.dateRange[1].value)
  }

  predicate SeasonActive(sel: Selection)
  {
    sel.season != All
  }

  predicate SeasonOk(sel: Selection, o: Obs)
  {
    InSeason(sel.season, o.date.month)
  }

  /** A rain filter runs only when its column exists and the choice is
      "Yes" or "No". */
  predicate RainChoiceActive(col: Option<string>, choice: string)
  {
    Present(col) && (choice == "Yes" || choice == "No")
  }

  /** Equality with the choice; a missing flag equals nothing. */
  predicate FlagMatches(f: Option<Flag>, choice: string)
  {
    f.Some? && FlagText(f.value) == choice
  }

  /** The band is inclusive at both ends; a missing temperature compares
      false, as NaN does. */
  predicate TempOk(sel: Selection, o: Obs)
  {
    |sel.tempRange| == 2 && o.maxTemp.Some? &&
    sel.tempRange[0] <= o.maxTemp.value <= sel.tempRange[1]
  }

  /** The slider always delivers two bounds; the chain indexes them whenever
      a temperature column exists. */
  predicate TempRangeReady(sel: Selection, schema: Schema)
  {
    Present(schema.maxTemp) ==> |sel.tempRange| == 2
  }

  /** The composition rule: a row survives when every ACTIVE clause accepts
      it; an inactive clause accepts everything. */
  predicate Accepts(sel: Selection, schema: Schema, o: Obs)
  {
    (!LocationActive(sel) || LocationOk(sel, o)) &&
    (!DateRangeActive(sel) || DateOk(sel, o)) &&
    (!SeasonActive(sel) || SeasonOk(sel, o)) &&
    (!RainChoiceActive(schema.rainToday, sel.rainToday) || FlagMatches(o.rainToday, sel.rainToday)) &&
    (!RainChoiceActive(schema.rainTomorrow, sel.rainTomorrow) || FlagMatches(o.rainTomorrow, sel.rainTomorrow)) &&
    (!Present(schema.maxTemp) || TempOk(sel, o))
  }

  /** Reference semantics: one pass keeping the accepted rows in order. */
  function Accepted(rows: seq<Obs>, sel: Selection, schema: Schema): (r: seq<Obs>)
    ensures IsSubseq(r, rows)
    ensures forall i :: 0 <= i < |r| ==> Accepts(sel, schema, r[i])
    ensures forall i :: 0 <= i < |rows| && Accepts(sel, schema, rows[i]) ==> rows[i] in r
  {
    if |rows| == 0 then []
    else
      var rest := Accepted(rows[1..], sel, schema);
      assert forall i :: 1 <= i < |rows| ==> rows[i] == rows[1..][i - 1];
      if Accepts(sel, schema, rows[0]) then
        assert ([rows[0]] + rest)[1..] == rest;
        [rows[0]] + rest
      else rest
  }

  /** One step of the chain: `df[mask]` when the clause is active. */
  function Stage(rows: seq<Obs>, active: bool, ok: Obs -> bool): seq<Obs>
  {
    if active then Filter(rows, ok) else rows
  }

  lemma StageStep(rows: seq<Obs>, prev: Obs -> bool, active: bool, ok: Obs -> bool, next: Obs -> bool)
    requires forall o :: next(o) == (prev(o) && (!active || ok(o)))
    ensures Stage(Filter(rows, prev), active, ok) == Filter(rows, next)
  {
    if active {
      FilterFuse(rows, prev, ok, next);
    } else {
      FilterCongruent(rows, prev, next);
    }
  }

  lemma AllClauses(sel: Selection, schema: Schema, o: Obs)
    ensures AcceptsUpTo(6, sel, schema, o) == Accepts(sel, schema, o)
  {
    assert AcceptsUpTo(1, sel, schema, o) == ClauseHolds(1, sel, schema, o);
    assert AcceptsUpTo(2, sel, schema, o) == (AcceptsUpTo(1, sel, schema, o) && ClauseHolds(2, sel, schema, o));
    assert AcceptsUpTo(3, sel, schema, o) == (AcceptsUpTo(2, sel, schema, o) && ClauseHolds(3, sel, schema, o));
    assert AcceptsUpTo(4, sel, schema, o) == (AcceptsUpTo(3, sel, schema, o) && ClauseHolds(4, sel, schema, o));
    assert AcceptsUpTo(5, sel, schema, o) == (AcceptsUpTo(4, sel, schema, o) && ClauseHolds(5, sel, schema, o));
  }

  lemma {:induction false} FilterByAccepts(rows: seq<Obs>, sel: Selection, schema: Schema, p: Obs -> bool)
    requires forall o :: p(o) == AcceptsUpTo(6, sel, schema, o)
    ensures Filter(rows, p) == Accepted(rows, sel, schema)
    decreases |rows|
  {
    if |rows| > 0 {
      AllClauses(sel, schema, rows[0]);
      FilterByAccepts(rows[1..], sel, schema, p);
    }
  }

  /** Clause `k` (1-6, in chain order) holds of `o`: inactive, or accepting. */
  predicate ClauseHolds(k: nat, sel: Selection, schema: Schema, o: Obs)
  {
    if k == 1 then !LocationActive(sel) || LocationOk(sel, o)
    else if k == 2 then !DateRangeActive(sel) || DateOk(sel, o)
    else if k == 3 then !SeasonActive(sel) || SeasonOk(sel, o)
    else if k == 4 then !RainChoiceActive(schema.rainToday, sel.rainToday) || FlagMatches(o.rainToday, sel.rainToday)
    else if k == 5 then !RainChoiceActive(schema.rainTomorrow, sel.rainTomorrow) || FlagMatches(o.rainTomorrow, sel.rainTomorrow)
    else !Present(schema.maxTemp) || TempOk(sel, o)
  }

  /** The first `n` clauses of the chain all hold of `o`. */
  predicate AcceptsUpTo(n: nat, sel: Selection, schema: Schema, o: Obs)
  {
    n == 0 || (AcceptsUpTo(n - 1, sel, schema, o) && ClauseHolds(n, sel, schema, o))
  }

  /** The six stages, given the row masks the dashboard builds, keep what
      the conjunction keeps. */
  lemma ChainIsConjunction(rows: seq<Obs>, sel: Selection, schema: Schema,
      loc: Obs -> bool, date: Obs -> bool, season: Obs -> bool,
      today: Obs -> bool, tomorrow: Obs -> bool, temp: Obs -> bool)
    requires forall o :: loc(o) == LocationOk(sel, o) && date(o) == DateOk(sel, o) && season(o) == SeasonOk(sel, o)
    requires forall o :: today(o) == FlagMatches(o.rainToday, sel.rainToday)
    requires forall o :: tomorrow(o) == FlagMatches(o.rainTomorrow, sel.rainTomorrow)
    requires forall o :: temp(o) == TempOk(sel, o)
    ensures
      Stage(Stage(Stage(Stage(Stage(Stage(rows,
        LocationActive(sel), loc),
        DateRangeActive(sel), date),
        SeasonActive(sel), season),
        RainChoiceActive(schema.rainToday, sel.rainToday), today),
        RainChoiceActive(schema.rainTomorrow, sel.rainTomorrow), tomorrow),
        Present(schema.maxTemp), temp)
      == Accepted(rows, sel, schema)
  {
    var a0 := (o: Obs) => AcceptsUpTo(0, sel, schema, o);
    var a1 := (o: Obs) => AcceptsUpTo(1, sel, schema, o);
    var a2 := (o: Obs) => AcceptsUpTo(2, sel, schema, o);
    var a3 := (o: Obs) => AcceptsUpTo(3, sel, schema, o);
    var a4 := (o: Obs) => AcceptsUpTo(4, sel, schema, o);
    var a5 := (o: Obs) => AcceptsUpTo(5, sel, schema, o);
    var a6 := (o: Obs) => AcceptsUpTo(6, sel, schema, o);
    FilterKeepsAll(rows, a0);
    StageStep(rows, a0, LocationActive(sel), loc, a1);
    StageStep(rows, a1, DateRangeActive(sel), date, a2);
    StageStep(rows, a2, SeasonActive(sel), season, a3);
    StageStep(rows, a3, RainChoiceActive(schema.rainToday, sel.rainToday), today, a4);
    StageStep(rows, a4, RainChoiceActive(schema.rainTomorrow, sel.rainTomorrow), tomorrow, a5);
    StageStep(rows, a5, Present(schema.maxTemp), temp, a6);
    FilterByAccepts(rows, sel, schema, a6);
  }

  /** The chain as the dashboard runs it, clause by clause; it keeps exactly
      the rows the conjunction of the active clauses accepts. */
  function ApplyFilters(rows: seq<Obs>, sel: Selection, schema: Schema): (r: seq<Obs>)
    requires TempRangeReady(sel, schema)
    ensures r == Accepted(rows, sel, schema)
  {
    var loc := (o: Obs) => LocationOk(sel, o);
    var date := (o: Obs) => DateOk(sel, o);
    var season := (o: Obs) => SeasonOk(sel, o);
    var today := (o: Obs) => FlagMatches(o.rainToday, sel.rainToday);
    var tomorrow := (o: Obs) => FlagMatches(o.rainTomorrow, sel.rainTomorrow);
    var temp := (o: Obs) => TempOk(sel, o);
    var r1 := Stage(rows, LocationActive(sel), loc);
    var r2 := Stage(r1, DateRangeActive(sel), date);
    var r3 := Stage(r2, SeasonActive(sel), season);
    var r4 := Stage(r3, RainChoiceActive(schema.rainToday, sel.rainToday), today);
    var r5 := Stage(r4, RainChoiceActive(schema.rainTomorrow, sel.rainTomorrow), tomorrow);
    var r6 := Stage(r5, Present(schema.maxTemp), temp);
    ChainIsConjunction(rows, sel, schema, loc, date, season, today, tomorrow, temp);
    r6
  }

  /** The chain's output is an order-preserving subsequence of its input,
      and a row is in it exactly when it is in the input and every active
      clause accepts it. */
  lemma FilterChainSubsequence(rows: seq<Obs>, sel: Selection, schema: Schema, o: Obs)
    requires TempRangeReady(sel, schema)
    ensures IsSubseq(ApplyFilters(rows, sel, schema), rows)
    ensures o in ApplyFilters(rows, sel, schema) <==> o in rows && Accepts(sel, schema, o)
  {
  }

  /** Each active clause's meaning, for the rows that survive: dates inside
      the range inclusively, months inside the season, flags equal to the
      choice, and a present temperature inside the inclusive band. */
  lemma FilterClauses(rows: seq<Obs>, sel: Selection, schema: Schema, o: Obs)
    requires TempRangeReady(sel, schema)
    requires o in ApplyFilters(rows, sel, schema)
    ensures LocationActive(sel) ==> LocationText(o.location) in sel.locations
    ensures DateRangeActive(sel) ==>
      DateLe(sel.dateRange[0].value, o.date) && DateLe(o.date, sel.dateRange[1].value)
    ensures sel.season != All ==> o.date.month in SeasonMonths(sel.season)
    ensures RainChoiceActive(schema.rainToday, sel.rainToday) ==>
      o.rainToday.Some? && FlagText(o.rainToday.value) == sel.rainToday
    ensures RainChoiceActive(schema.rainTomorrow, sel.rainTomorrow) ==>
      o.rainTomorrow.Some? && FlagText(o.rainTomorrow.value) == sel.rainTomorrow
    ensures Present(schema.maxTemp) ==>
      o.maxTemp.Some? && sel.tempRange[0] <= o.maxTemp.value <= sel.tempRange[1]
  {
    var r := ApplyFilters(rows, sel, schema);
    var i :| 0 <= i < |r| && r[i] == o;
  }

  /** With a temperature column, a row whose temperature is missing never
      survives, whatever the band. */
  lemma MissingTemperatureDropped(rows: seq<Obs>, sel: Selection, schema: Schema, o: Obs)
    requires TempRangeReady(sel, schema) && Present(schema.maxTemp)
    requires o.maxTemp.None?
    ensures o !in ApplyFilters(rows, sel, schema)
  {
    if o in ApplyFilters(rows, sel, schema) {
      FilterClauses(rows, sel, schema, o);
    }
  }

  lemma {:induction false} AcceptedAll(rows: seq<Obs>, sel: Selection, schema: Schema)
    requires forall i :: 0 <= i < |rows| ==> Accepts(sel, schema, rows[i])
    ensures Accepted(rows, sel, schema) == rows
    decreases |rows|
  {
    if |rows| > 0 {
      AcceptedAll(rows[1..], sel, schema);
    }
  }

  /** No locations chosen, no two-date range, season "All", rain choices
      other than Yes/No and no temperature column: nothing is filtered. */
  lemma NoActiveClauseKeepsAll(rows: seq<Obs>, sel: Selection, schema: Schema)
    requires |sel.locations| == 0 && !DateRangeActive(sel) && sel.season == All
    requires sel.rainToday != "Yes" && sel.rainToday != "No"
    requires sel.rainTomorrow != "Yes" && sel.rainTomorrow != "No"
    requires !Present(schema.maxTemp)
    ensures ApplyFilters(rows, sel, schema) == rows
  {
    AcceptedAll(rows, sel, schema);
  }
}
