/** The analyst's current filter choices, rebuilt from the sidebar widgets on
    every interaction (w.py:167-194, weather_insights.py:133-147), and the
    Southern-hemisphere season table both dashboards use. */
module Selections {
  import opened Options
  import opened Rows

  /** The season select box; `All` means no season restriction. */
  datatype Season = All | Summer | Autumn | Winter | Spring

  /** `season_map`: the months of each season. */
  function SeasonMonths(s: Season): (r: seq<nat>)
    requires s != All
    ensures |r| == 3
    ensures forall i :: 0 <= i < 3 ==> 1 <= r[i] <= 12
  {
    match s
    case Summer => [12, 1, 2]
    case Autumn => [3, 4, 5]
    case Winter => [6, 7, 8]
    case Spring => [9, 10, 11]
  }

  /** Month `m` lies in season `s`; never for `All`. */
  predicate InSeason(s: Season, m: nat)
  {
    s != All && m in SeasonMonths(s)
  }

  /** Every month belongs to exactly one season. */
  lemma SeasonsPartitionMonths(m: nat)
    requires 1 <= m <= 12
    ensures InSeason(Summer, m) || InSeason(Autumn, m) || InSeason(Winter, m) || InSeason(Spring, m)
    ensures forall s, t :: InSeason(s, m) && InSeason(t, m) ==> s == t
  {
  }

  /** The filter state. The date input yields zero, one or two dates (a
      missing one is falsy); the rain choices are the select boxes' text
      ("All", "Yes", "No", or "N/A" when the column is absent); the
      temperature slider yields its two bounds. */
  datatype Selection = Selection(
    locations: seq<string>,
    dateRange: seq<Option<Date>>,
    season: Season,
    rainToday: string,
    rainTomorrow: string,
    tempRange: seq<real>)

  /** `isinstance(date_range, (list, tuple)) and len(date_range) == 2 and
      date_range[0] and date_range[1]`. */
  predicate DateRangeActive(sel: Selection)
  {
    |sel.dateRange| == 2 && sel.dateRange[0].Some? && sel.dateRange[1].Some?
  }
}
