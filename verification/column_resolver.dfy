/** Column detection across inconsistent CSV headers (w.py:36-63): header
    normalization, the normalized-name map, the two-phase exact-then-fuzzy
    column pick, and the load-time resolution of the dashboard's fields with
    its fail-fast check on the essential ones (w.py:103-136). */
module ColumnResolver {
  import opened Options
  import opened Strings
  import opened Seqs

  /** The characters `[a-z0-9]` that survive normalization. */
  predicate IsNormChar(c: char)
  {
    'a' <= c <= 'z' || '0' <= c <= '9'
  }

  predicate AllNormChars(s: string)
  {
    forall i :: 0 <= i < |s| ==> IsNormChar(s[i])
  }

  /** `re.sub(r"[^a-z0-9]", "", s)`. */
  function KeepNormChars(s: string): (r: string)
    ensures AllNormChars(r)
    ensures |r| <= |s|
  {
    if |s| == 0 then ""
    else if IsNormChar(s[0]) then [s[0]] + KeepNormChars(s[1..])
    else KeepNormChars(s[1..])
  }

  /** `_norm`: lower-case, then drop everything outside `[a-z0-9]`. */
  function Norm(s: string): (r: string)
    ensures AllNormChars(r)
  {
    KeepNormChars(Lower(s))
  }

  lemma {:induction false} LowerFixesNormChars(s: string)
    requires AllNormChars(s)
    ensures Lower(s) == s
    decreases |s|
  {
    if |s| > 0 {
      LowerFixesNormChars(s[1..]);
      assert s == [s[0]] + s[1..];
    }
  }

  lemma {:induction false} KeepFixesNormChars(s: string)
    requires AllNormChars(s)
    ensures KeepNormChars(s) == s
    decreases |s|
  {
    if |s| > 0 {
      KeepFixesNormChars(s[1..]);
      assert s == [s[0]] + s[1..];
    }
  }

  /** Normalizing twice is normalizing once. */
  lemma NormIdempotent(s: string)
    ensures Norm(Norm(s)) == Norm(s)
  {
    LowerFixesNormChars(Norm(s));
    KeepFixesNormChars(Norm(s));
  }

  lemma {:induction false} LowerAppend(a: string, b: string)
    ensures Lower(a + b) == Lower(a) + Lower(b)
    decreases |a|
  {
    if |a| > 0 {
      assert (a + b)[1..] == a[1..] + b;
      LowerAppend(a[1..], b);
    } else {
      assert a + b == b;
    }
  }

  lemma {:induction false} KeepAppend(a: string, b: string)
    ensures KeepNormChars(a + b) == KeepNormChars(a) + KeepNormChars(b)
    decreases |a|
  {
    if |a| > 0 {
      assert (a + b)[1..] == a[1..] + b;
      KeepAppend(a[1..], b);
    } else {
      assert a + b == b;
    }
  }

  /** Normalization works character by character. */
  lemma NormAppend(a: string, b: string)
    ensures Norm(a + b) == Norm(a) + Norm(b)
  {
    LowerAppend(a, b);
    KeepAppend(Lower(a), Lower(b));
  }

  /** Header case does not matter: upper-casing the ASCII letters of a header
      leaves its normalized name unchanged. */
  lemma {:induction false} NormIgnoresCase(s: string)
    ensures Norm(UpperAscii(s)) == Norm(s)
    decreases |s|
  {
    if |s| > 0 {
      var c := if 'a' <= s[0] <= 'z' then (s[0] as int - 32) as char else s[0];
      assert UpperAscii(s) == [c] + UpperAscii(s[1..]);
      assert s == [s[0]] + s[1..];
      NormAppend([c], UpperAscii(s[1..]));
      NormAppend([s[0]], s[1..]);
      NormIgnoresCase(s[1..]);
      assert Lower([c]) == LowerChar(c);
      assert Lower([s[0]]) == LowerChar(s[0]);
    }
  }

  /** Header punctuation does not matter: inserting a character that
      normalizes away leaves the normalized name unchanged. */
  lemma NormIgnoresPunctuation(a: string, c: char, b: string)
    requires Norm([c]) == ""
    ensures Norm(a + [c] + b) == Norm(a + b)
  {
    NormAppend(a + [c], b);
    NormAppend(a, [c]);
    NormAppend(a, b);
  }

  /** The normalized names of a column list. */
  function NormNames(cols: seq<string>): set<string>
  {
    set c | c in cols :: Norm(c)
  }

  /** No later column shares column `i`'s normalized name. */
  predicate LastOfItsName(cols: seq<string>, i: int)
    requires 0 <= i < |cols|
  {
    forall j :: i < j < |cols| ==> Norm(cols[j]) != Norm(cols[i])
  }

  /** `_build_norm_map`: the dict comprehension `{_norm(c): c for c in cols}`.
      Later columns overwrite earlier ones with the same normalized name, so
      each key maps to the LAST column bearing it. */
  function BuildNormMap(cols: seq<string>): (m: map<string, string>)
    ensures m.Keys == NormNames(cols)
    ensures forall k :: k in m ==> m[k] in cols && Norm(m[k]) == k
    ensures forall i :: 0 <= i < |cols| && LastOfItsName(cols, i) ==> m[Norm(cols[i])] == cols[i]
  {
    if |cols| == 0 then map[]
    else
      var init := cols[..|cols| - 1];
      var last := cols[|cols| - 1];
      var m' := BuildNormMap(init);
      var m := m'[Norm(last) := last];
      NormMapKeys(cols, init, m', m);
      NormMapValues(cols, init, m', m);
      NormMapLatest(cols, init, m', m);
      m
  }

  /** `m` stores the last column of `cols` over `m'`, the map of the others. */
  predicate StoresLast(cols: seq<string>, init: seq<string>, m': map<string, string>, m: map<string, string>)
  {
    |cols| > 0 && init == cols[..|cols| - 1] && m == m'[Norm(cols[|cols| - 1]) := cols[|cols| - 1]]
  }

  /** Storing one more column adds its normalized name to the keys. */
  lemma NormMapKeys(cols: seq<string>, init: seq<string>, m': map<string, string>, m: map<string, string>)
    requires StoresLast(cols, init, m', m) && m'.Keys == NormNames(init)
    ensures m.Keys == NormNames(cols)
  {
    NormNamesLast(cols);
  }

  /** Storing one more column keeps every value a column under its own
      normalized name. */
  lemma NormMapValues(cols: seq<string>, init: seq<string>, m': map<string, string>, m: map<string, string>)
    requires StoresLast(cols, init, m', m)
    requires forall k :: k in m' ==> m'[k] in init && Norm(m'[k]) == k
    ensures forall k :: k in m ==> m[k] in cols && Norm(m[k]) == k
  {
    forall k | k in m ensures m[k] in cols && Norm(m[k]) == k {
      if k != Norm(cols[|cols| - 1]) {
        assert m'[k] in init;
      }
    }
  }

  /** Storing one more column keeps every column that no later one
      overwrites. */
  lemma NormMapLatest(cols: seq<string>, init: seq<string>, m': map<string, string>, m: map<string, string>)
    requires StoresLast(cols, init, m', m) && m'.Keys == NormNames(init)
    requires forall i :: 0 <= i < |init| && LastOfItsName(init, i) ==>
      Norm(init[i]) in m' && m'[Norm(init[i])] == init[i]
    ensures forall i :: 0 <= i < |cols| && LastOfItsName(cols, i) ==>
      Norm(cols[i]) in m && m[Norm(cols[i])] == cols[i]
  {
    forall i | 0 <= i < |cols| && LastOfItsName(cols, i) ensures Norm(cols[i]) in m && m[Norm(cols[i])] == cols[i] {
      var last := cols[|cols| - 1];
      if i < |init| {
        LastOfItsNameInit(cols, i);
        assert init[i] == cols[i] && LastOfItsName(init, i);
        assert m'[Norm(init[i])] == init[i] && Norm(cols[i]) != Norm(last);
      } else {
        assert cols[i] == last;
      }
    }
  }

  lemma {:induction false} NormNamesLast(cols: seq<string>)
    requires |cols| > 0
    ensures NormNames(cols) == NormNames(cols[..|cols| - 1]) + {Norm(cols[|cols| - 1])}
  {
    var init := cols[..|cols| - 1];
    assert cols == init + [cols[|cols| - 1]];
    forall c | c in cols ensures c in init || c == cols[|cols| - 1] {
    }
  }

  lemma {:induction false} LastOfItsNameInit(cols: seq<string>, i: nat)
    requires i < |cols| - 1 && LastOfItsName(cols, i)
    ensures LastOfItsName(cols[..|cols| - 1], i) && Norm(cols[i]) != Norm(cols[|cols| - 1])
  {
    var init := cols[..|cols| - 1];
    forall j | i < j < |init| ensures Norm(init[j]) != Norm(init[i]) {
      assert init[j] == cols[j] && init[i] == cols[i];
    }
  }

  /** When two columns normalize alike, the later one is what the map holds. */
  lemma NormMapLastWins(cols: seq<string>, i: nat, j: nat)
    requires i < j < |cols| && Norm(cols[i]) == Norm(cols[j]) && LastOfItsName(cols, j)
    ensures BuildNormMap(cols)[Norm(cols[i])] == cols[j]
  {
  }

  /** Index of the first candidate (in list order) whose normalized form is a
      key of `m`, searching from `from`. */
  function FirstCandidate(cands: seq<string>, m: map<string, string>, from: nat): (r: Option<nat>)
    requires from <= |cands|
    ensures r.Some? ==> from <= r.value < |cands| && Norm(cands[r.value]) in m
    ensures r.Some? ==> forall j :: from <= j < r.value ==> Norm(cands[j]) !in m
    ensures r.None? ==> forall j :: from <= j < |cands| ==> Norm(cands[j]) !in m
    decreases |cands| - from
  {
    if from == |cands| then None
    else if Norm(cands[from]) in m then Some(from)
    else FirstCandidate(cands, m, from + 1)
  }

  /** `any(t in nc for t in tokens)`. */
  predicate ContainsAnyToken(tokens: seq<string>, name: string)
  {
    exists t :: t in tokens && IsInfix(t, name)
  }

  /** Index of the first column, in table order, whose normalized name
      contains some token, searching from `from`. */
  function FirstContaining(cols: seq<string>, tokens: seq<string>, from: nat): (r: Option<nat>)
    requires from <= |cols|
    ensures r.Some? ==> from <= r.value < |cols| && ContainsAnyToken(tokens, Norm(cols[r.value]))
    ensures r.Some? ==> forall j :: from <= j < r.value ==> !ContainsAnyToken(tokens, Norm(cols[j]))
    ensures r.None? ==> forall j :: from <= j < |cols| ==> !ContainsAnyToken(tokens, Norm(cols[j]))
    decreases |cols| - from
  {
    if from == |cols| then None
    else if ContainsAnyToken(tokens, Norm(cols[from])) then Some(from)
    else FirstContaining(cols, tokens, from + 1)
  }

  /** `[_norm(t) for t in contains]`. */
  function NormAll(ts: seq<string>): (r: seq<string>)
    ensures |r| == |ts|
    ensures forall i :: 0 <= i < |ts| ==> r[i] == Norm(ts[i])
  {
    if |ts| == 0 then [] else [Norm(ts[0])] + NormAll(ts[1..])
  }

  /** The loaded table as the resolver sees it: its header and its row count. */
  datatype Frame = Frame(columns: seq<string>, rowCount: nat) {
    /** pandas' `DataFrame.empty`: no columns or no rows. */
    predicate IsEmpty()
    {
      |columns| == 0 || rowCount == 0
    }
  }

  /** `_pick_col`. A `None` or empty candidate or token list behaves as an
      empty sequence, which is how it is modelled. */
  function PickCol(df: Option<Frame>, candidates: seq<string>, contains: seq<string>): (r: Option<string>)
    ensures df.None? || df.value.IsEmpty() ==> r.None?
    ensures r.Some? ==> r.value in df.value.columns
  {
    if df.None? || df.value.IsEmpty() then None
    else
      var cols := df.value.columns;
      var m := BuildNormMap(cols);
      match FirstCandidate(candidates, m, 0)
      case Some(i) => Some(m[Norm(candidates[i])])
      case None =>
        match FirstContaining(cols, NormAll(contains), 0)
        case Some(j) => Some(cols[j])
        case None => None
  }

  /** Exact phase: the first candidate in list order that normalizes to some
      column's normalized name decides, and among the columns bearing that
      name the last one is returned. */
  lemma PickColExact(df: Frame, candidates: seq<string>, contains: seq<string>, i: nat, k: nat)
    requires !df.IsEmpty()
    requires i < |candidates| && k < |df.columns|
    requires forall j :: 0 <= j < i ==> Norm(candidates[j]) !in NormNames(df.columns)
    requires Norm(df.columns[k]) == Norm(candidates[i]) && LastOfItsName(df.columns, k)
    ensures PickCol(Some(df), candidates, contains) == Some(df.columns[k])
  {
    var m := BuildNormMap(df.columns);
    assert Norm(df.columns[k]) in NormNames(df.columns);
    FirstCandidateAt(candidates, m, 0, i);
  }

  /** `FirstCandidate` finds the candidate that matches before any other. */
  lemma {:induction false} FirstCandidateAt(cands: seq<string>, m: map<string, string>, from: nat, i: nat)
    requires from <= i < |cands| && Norm(cands[i]) in m
    requires forall j :: from <= j < i ==> Norm(cands[j]) !in m
    ensures FirstCandidate(cands, m, from) == Some(i)
    decreases i - from
  {
    if from < i {
      FirstCandidateAt(cands, m, from + 1, i);
    }
  }

  /** `FirstContaining` finds the column that matches before any other. */
  lemma {:induction false} FirstContainingAt(cols: seq<string>, tokens: seq<string>, from: nat, k: nat)
    requires from <= k < |cols| && ContainsAnyToken(tokens, Norm(cols[k]))
    requires forall j :: from <= j < k ==> !ContainsAnyToken(tokens, Norm(cols[j]))
    ensures FirstContaining(cols, tokens, from) == Some(k)
    decreases k - from
  {
    if from < k {
      FirstContainingAt(cols, tokens, from + 1, k);
    }
  }

  /** Fuzzy phase: when no candidate matches, the first column in table
      order whose normalized name contains some normalized token is returned. */
  lemma PickColFuzzy(df: Frame, candidates: seq<string>, contains: seq<string>, k: nat)
    requires !df.IsEmpty()
    requires forall j :: 0 <= j < |candidates| ==> Norm(candidates[j]) !in NormNames(df.columns)
    requires k < |df.columns| && ContainsAnyToken(NormAll(contains), Norm(df.columns[k]))
    requires forall j :: 0 <= j < k ==> !ContainsAnyToken(NormAll(contains), Norm(df.columns[j]))
    ensures PickCol(Some(df), candidates, contains) == Some(df.columns[k])
  {
    FirstContainingAt(df.columns, NormAll(contains), 0, k);
  }

  /** Nothing is found exactly when the table is missing or empty, or both
      phases fail. */
  lemma PickColNotFound(df: Option<Frame>, candidates: seq<string>, contains: seq<string>)
    ensures PickCol(df, candidates, contains).None? <==>
      df.None? || df.value.IsEmpty() ||
      ((forall j :: 0 <= j < |candidates| ==> Norm(candidates[j]) !in NormNames(df.value.columns)) &&
       (forall j :: 0 <= j < |df.value.columns| ==> !ContainsAnyToken(NormAll(contains), Norm(df.value.columns[j]))))
  {
  }

  /** The exact candidates and fuzzy tokens for one semantic field. */
  datatype FieldSpec = FieldSpec(candidates: seq<string>, contains: seq<string>)

  const DateSpec := FieldSpec(["date"], ["date"])
  const LocationSpec := FieldSpec(["location", "city", "town"], ["location", "city", "town"])
  const RainfallSpec := FieldSpec(["rainfall"], ["rain"])
  const MaxTempSpec := FieldSpec(["maxtemp", "max_temp", "tempmax", "tmax", "temp3pm", "temp"], ["maxtemp", "temp3pm", "temp"])
  const HumiditySpec := FieldSpec(["humidity3pm", "humidity_3pm", "humidity"], ["humidity"])
  const WindSpeedSpec := FieldSpec(["windspeed3pm", "wind_speed_3pm", "windspeed", "wind_speed", "windgustspeed"], ["windspeed", "wind"])
  const RainTodaySpec := FieldSpec(["raintoday", "rain_today"], ["raintoday"])
  const RainTomorrowSpec := FieldSpec(["raintomorrow", "rain_tomorrow"], ["raintomorrow"])

  function Resolve(df: Frame, spec: FieldSpec): Option<string>
  {
    PickCol(Some(df), spec.candidates, spec.contains)
  }

  /** The resolved real column names: three essential, five optional. */
  datatype Schema = Schema(
    date: string, location: string, rainfall: string,
    maxTemp: Option<string>, humidity: Option<string>, windSpeed: Option<string>,
    rainToday: Option<string>, rainTomorrow: Option<string>)

  /** Python truthiness of a resolved column name (`if raintoday_col:`):
      found, and not the empty string. */
  predicate Present(col: Option<string>)
  {
    col.Some? && col.value != ""
  }

  datatype LoadError = EmptyTable | MissingColumns(names: seq<string>)

  /** The essential fields, in the order the error message lists them. */
  const EssentialNames: seq<string> := ["date", "location", "rainfall"]

  /** The names of the unresolved essential fields, in the order date,
      location, rainfall, each at most once. */
  function MissingEssentials(date: Option<string>, location: Option<string>, rainfall: Option<string>): (r: seq<string>)
    ensures |r| <= 3
    ensures IsSubseq(r, EssentialNames)
    ensures forall i, j :: 0 <= i < j < |r| ==> r[i] != r[j]
    ensures |r| == 0 <==> date.Some? && location.Some? && rainfall.Some?
    ensures "date" in r <==> date.None?
    ensures "location" in r <==> location.None?
    ensures "rainfall" in r <==> rainfall.None?
  {
    (if date.None? then ["date"] else []) +
    (if location.None? then ["location"] else []) +
    (if rainfall.None? then ["rainfall"] else [])
  }

  /** The lookup of every semantic field. */
  datatype Specs = Specs(
    date: FieldSpec, location: FieldSpec, rainfall: FieldSpec,
    maxTemp: FieldSpec, humidity: FieldSpec, windSpeed: FieldSpec,
    rainToday: FieldSpec, rainTomorrow: FieldSpec)

  const Fields := Specs(DateSpec, LocationSpec, RainfallSpec, MaxTempSpec, HumiditySpec,
    WindSpeedSpec, RainTodaySpec, RainTomorrowSpec)

  /** Load-time resolution with the given lookups: an empty table or any
      missing essential field stops the dashboard; otherwise every field is
      resolved once. */
  function ResolveWith(df: Frame, specs: Specs): (r: Result<Schema, LoadError>)
    ensures df.IsEmpty() <==> r == Failure(EmptyTable)
    ensures r.Success? <==>
      !df.IsEmpty() && Resolve(df, specs.date).Some? && Resolve(df, specs.location).Some? &&
      Resolve(df, specs.rainfall).Some?
    ensures r.Failure? && r.error.MissingColumns? ==>
      0 < |r.error.names| <= 3 &&
      ("date" in r.error.names <==> Resolve(df, specs.date).None?) &&
      ("location" in r.error.names <==> Resolve(df, specs.location).None?) &&
      ("rainfall" in r.error.names <==> Resolve(df, specs.rainfall).None?)
    ensures r.Failure? && r.error.MissingColumns? ==>
      r.error.names == MissingEssentials(Resolve(df, specs.date), Resolve(df, specs.location), Resolve(df, specs.rainfall))
    ensures r.Success? ==>
      r.value.date in df.columns && r.value.location in df.columns && r.value.rainfall in df.columns
    ensures r.Success? ==>
      Some(r.value.date) == Resolve(df, specs.date) &&
      Some(r.value.location) == Resolve(df, specs.location) &&
      Some(r.value.rainfall) == Resolve(df, specs.rainfall)
    ensures r.Success? ==>
      r.value.maxTemp == Resolve(df, specs.maxTemp) && r.value.humidity == Resolve(df, specs.humidity) &&
      r.value.windSpeed == Resolve(df, specs.windSpeed) && r.value.rainToday == Resolve(df, specs.rainToday) &&
      r.value.rainTomorrow == Resolve(df, specs.rainTomorrow)
  {
    if df.IsEmpty() then Failure(EmptyTable)
    else
      var date := Resolve(df, specs.date);
      var location := Resolve(df, specs.location);
      var rainfall := Resolve(df, specs.rainfall);
      var missing := MissingEssentials(date, location, rainfall);
      if |missing| > 0 then Failure(MissingColumns(missing))
      else Success(Schema(date.value, location.value, rainfall.value,
        Resolve(df, specs.maxTemp), Resolve(df, specs.humidity), Resolve(df, specs.windSpeed),
        Resolve(df, specs.rainToday), Resolve(df, specs.rainTomorrow)))
  }

  /** The dashboard's load-time resolution, with its own lookups: each
      field of the schema is the column `_pick_col` finds with that field's
      candidate names and tokens. */
  function ResolveSchema(df: Frame): (r: Result<Schema, LoadError>)
    ensures df.IsEmpty() <==> r == Failure(EmptyTable)
    ensures r.Success? <==>
      !df.IsEmpty() && Resolve(df, DateSpec).Some? && Resolve(df, LocationSpec).Some? &&
      Resolve(df, RainfallSpec).Some?
    ensures r.Success? ==>
      Some(r.value.date) == Resolve(df, DateSpec) &&
      Some(r.value.location) == Resolve(df, LocationSpec) &&
      Some(r.value.rainfall) == Resolve(df, RainfallSpec) &&
      r.value.maxTemp == Resolve(df, MaxTempSpec) && r.value.humidity == Resolve(df, HumiditySpec) &&
      r.value.windSpeed == Resolve(df, WindSpeedSpec) && r.value.rainToday == Resolve(df, RainTodaySpec) &&
      r.value.rainTomorrow == Resolve(df, RainTomorrowSpec)
  {
    ResolveWith(df, Fields)
  }
}
