/** Observations and their type coercion at load time (w.py:70-78, 139-149):
    rows whose date did not parse are dropped, and the rain flags are
    normalized to Yes, No or missing. Date and number parsing themselves
    (`pd.to_datetime`, `pd.to_numeric`) are taken as already done: their
    results arrive as optional values. */
module Rows {
  import opened Options
  import opened Strings
  import opened ColumnResolver
  import opened Seqs

  /** A parsed calendar date. */
  datatype Date = Date(year: nat, month: nat, day: nat)

  /** Chronological order on dates. */
  predicate DateLe(a: Date, b: Date)
  {
    a.year < b.year ||
    (a.year == b.year && (a.month < b.month || (a.month == b.month && a.day <= b.day)))
  }

  datatype Flag = Yes | No

  function FlagText(f: Flag): string
  {
    match f
    case Yes => "Yes"
    case No => "No"
  }

  const YesSpellings: set<string> := {"yes", "y", "true", "1"}
  const NoSpellings: set<string> := {"no", "n", "false", "0"}

  /** `_ensure_yes_no` on one cell, given as the text `astype(str)` gives it:
      strip, lower-case, then look the value up among the accepted spellings.
      Anything else, a missing cell's "nan" included, becomes missing. */
  function EnsureYesNo(cell: string): (r: Option<Flag>)
    ensures r == Some(Yes) <==> Spelling(cell) in YesSpellings
    ensures r == Some(No) <==> Spelling(cell) in NoSpellings
    ensures r == None <==> Spelling(cell) !in YesSpellings + NoSpellings
  {
    SpellingsDisjoint();
    FlagOfSpelling(Spelling(cell))
  }

  /** No text is both a yes and a no spelling. */
  lemma SpellingsDisjoint()
    ensures YesSpellings * NoSpellings == {}
  {
  }

  /** `str.strip().lower()`: the text looked up among the spellings. */
  function Spelling(cell: string): string
  {
    Lower(Strip(cell))
  }

  function FlagOfSpelling(v: string): Option<Flag>
  {
    if v in YesSpellings then Some(Yes)
    else if v in NoSpellings then Some(No)
    else None
  }

  /** What `astype(str)` shows for an already-normalized cell; Python's None
      prints as "None". */
  function FlagCell(f: Option<Flag>): string
  {
    match f
    case Some(x) => FlagText(x)
    case None => "None"
  }

  /** The texts a normalized flag prints as are their own strip, and
      lower-case to an accepted spelling (or, for "None", to none). Each
      fact about a literal text gets a lemma of its own. */
  lemma YesUnpadded() ensures Strip("Yes") == "Yes" { StripUnpadded("Yes"); }
  lemma NoUnpadded() ensures Strip("No") == "No" { StripUnpadded("No"); }
  lemma NoneUnpadded() ensures Strip("None") == "None" { StripUnpadded("None"); }
  lemma YesLowered() ensures Lower("Yes") == "yes" { }
  lemma NoLowered() ensures Lower("No") == "no" { }
  lemma NoneLowered() ensures Lower("None") == "none" { }

  lemma SpelledYes()
    ensures Spelling("Yes") == "yes"
  {
    YesUnpadded();
    YesLowered();
  }

  lemma SpelledNo()
    ensures Spelling("No") == "no"
  {
    NoUnpadded();
    NoLowered();
  }

  lemma SpelledNone()
    ensures Spelling("None") == "none"
  {
    NoneUnpadded();
    NoneLowered();
  }

  lemma ReadsYes()
    ensures EnsureYesNo("Yes") == Some(Yes)
  {
    SpelledYes();
  }

  lemma ReadsNo()
    ensures EnsureYesNo("No") == Some(No)
  {
    SpelledNo();
    assert FlagOfSpelling("no") == Some(No) by { NoIsNotYes(); }
  }

  lemma ReadsNone()
    ensures EnsureYesNo("None") == None
  {
    SpelledNone();
    assert FlagOfSpelling("none") == None by { NoneIsNeither(); }
  }

  lemma NoIsNotYes()
    ensures "no" !in YesSpellings && "no" in NoSpellings
  {
  }

  lemma NoneIsNeither()
    ensures "none" !in YesSpellings && "none" !in NoSpellings
  {
  }

  /** Normalizing an already-normalized column changes nothing. */
  lemma EnsureYesNoIdempotent(cell: string)
    ensures EnsureYesNo(FlagCell(EnsureYesNo(cell))) == EnsureYesNo(cell)
  {
    match EnsureYesNo(cell)
    case Some(Yes) => ReadsYes();
    case Some(No) => ReadsNo();
    case None => ReadsNone();
  }

  lemma {:induction false} LowerOfUpper(s: string)
    ensures Lower(UpperAscii(s)) == Lower(s)
    decreases |s|
  {
    if |s| > 0 {
      LowerOfUpper(s[1..]);
    }
  }

  /** Upper-casing never turns a character into whitespace or back. */
  lemma {:induction false} UpperAsciiSpace(s: string, i: nat)
    requires i < |s|
    ensures IsPySpace(UpperAscii(s)[i]) == IsPySpace(s[i])
    decreases i
  {
    if i > 0 {
      UpperAsciiSpace(s[1..], i - 1);
    }
  }

  lemma {:induction false} StripLeftOfUpper(s: string)
    ensures StripLeft(UpperAscii(s)) == UpperAscii(StripLeft(s))
    decreases |s|
  {
    if |s| > 0 {
      UpperAsciiSpace(s, 0);
      if IsPySpace(s[0]) {
        assert UpperAscii(s)[1..] == UpperAscii(s[1..]);
        StripLeftOfUpper(s[1..]);
      }
    }
  }

  lemma {:induction false} UpperAsciiPrefix(s: string, n: nat)
    requires n <= |s|
    ensures UpperAscii(s)[..n] == UpperAscii(s[..n])
    decreases |s|
  {
    if n > 0 {
      assert s[..n][1..] == s[1..][..n - 1];
      UpperAsciiPrefix(s[1..], n - 1);
    }
  }

  lemma {:induction false} StripRightOfUpper(s: string)
    ensures StripRight(UpperAscii(s)) == UpperAscii(StripRight(s))
    decreases |s|
  {
    if |s| > 0 {
      UpperAsciiSpace(s, |s| - 1);
      if IsPySpace(s[|s| - 1]) {
        UpperAsciiPrefix(s, |s| - 1);
        StripRightOfUpper(s[..|s| - 1]);
      }
    }
  }

  /** The accepted spellings are recognised in any letter case. */
  lemma EnsureYesNoIgnoresCase(cell: string)
    ensures EnsureYesNo(UpperAscii(cell)) == EnsureYesNo(cell)
  {
    StripLeftOfUpper(cell);
    StripRightOfUpper(StripLeft(cell));
    LowerOfUpper(Strip(cell));
    assert Spelling(UpperAscii(cell)) == Spelling(cell);
  }

  predicate AllSpace(s: string)
  {
    forall i :: 0 <= i < |s| ==> IsPySpace(s[i])
  }

  lemma {:induction false} StripLeftPadded(pad: string, s: string)
    requires AllSpace(pad)
    ensures StripLeft(pad + s) == StripLeft(s)
    decreases |pad|
  {
    if |pad| > 0 {
      assert (pad + s)[1..] == pad[1..] + s;
      StripLeftPadded(pad[1..], s);
    } else {
      assert pad + s == s;
    }
  }

  lemma {:induction false} StripRightPadded(s: string, pad: string)
    requires AllSpace(pad)
    ensures StripRight(s + pad) == StripRight(s)
    decreases |pad|
  {
    if |pad| > 0 {
      assert (s + pad)[..|s + pad| - 1] == s + pad[..|pad| - 1];
      StripRightPadded(s, pad[..|pad| - 1]);
    } else {
      assert s + pad == s;
    }
  }

  lemma {:induction false} StripLeftAppend(s: string, pad: string)
    requires AllSpace(pad)
    ensures StripLeft(s + pad) == StripLeft(s) + pad || (StripLeft(s) == "" && StripLeft(s + pad) == "")
    decreases |s|
  {
    if |s| > 0 {
      assert (s + pad)[1..] == s[1..] + pad;
      if IsPySpace(s[0]) {
        StripLeftAppend(s[1..], pad);
      }
    } else {
      assert s + pad == pad;
      StripLeftPadded(pad, "");
      assert pad + "" == pad;
    }
  }

  /** Surrounding whitespace does not change how a cell is read. */
  lemma EnsureYesNoIgnoresPadding(before: string, cell: string, after: string)
    requires AllSpace(before) && AllSpace(after)
    ensures EnsureYesNo(before + cell + after) == EnsureYesNo(cell)
  {
    StripPadded(before, cell, after);
    assert Spelling(before + cell + after) == Spelling(cell);
  }

  /** `str.strip()` removes whitespace padding on both sides. */
  lemma StripPadded(before: string, cell: string, after: string)
    requires AllSpace(before) && AllSpace(after)
    ensures Strip(before + cell + after) == Strip(cell)
  {
    var tail := cell + after;
    assert before + cell + after == before + tail;
    StripLeftPadded(before, tail);
    assert Strip(before + cell + after) == StripRight(StripLeft(tail));
    StripLeftAppend(cell, after);
    if StripLeft(tail) == StripLeft(cell) + after {
      StripRightPadded(StripLeft(cell), after);
    }
  }

  /** One row as loaded, after date and number parsing: a failed parse is a
      missing value. The rain-flag cells are their `astype(str)` text. */
  datatype RawRow = RawRow(
    date: Option<Date>, location: Option<string>,
    rainfall: Option<real>, maxTemp: Option<real>, humidity: Option<real>, windSpeed: Option<real>,
    rainToday: string, rainTomorrow: string)

  /** One retained observation: the date is always present. A flag of a
      column the table does not have is missing. */
  datatype Obs = Obs(
    date: Date, location: Option<string>,
    rainfall: Option<real>, maxTemp: Option<real>, humidity: Option<real>, windSpeed: Option<real>,
    rainToday: Option<Flag>, rainTomorrow: Option<Flag>)

  function NormalizeFlag(col: Option<string>, cell: string): Option<Flag>
  {
    if Present(col) then EnsureYesNo(cell) else None
  }

  function CoerceRow(schema: Schema, raw: RawRow): Obs
    requires raw.date.Some?
  {
    Obs(raw.date.value, raw.location, raw.rainfall, raw.maxTemp, raw.humidity, raw.windSpeed,
      NormalizeFlag(schema.rainToday, raw.rainToday), NormalizeFlag(schema.rainTomorrow, raw.rainTomorrow))
  }

  /** `o` carries `raw`'s date and measurements. */
  predicate SameValues(raw: RawRow, o: Obs)
  {
    raw.date == Some(o.date) && raw.location == o.location && raw.rainfall == o.rainfall &&
    raw.maxTemp == o.maxTemp && raw.humidity == o.humidity && raw.windSpeed == o.windSpeed
  }

  /** `o` is `raw` after coercion: same date and measurements, and each
      rain flag read by `_ensure_yes_no` when its column exists. */
  predicate FromRaw(schema: Schema, raw: RawRow, o: Obs)
  {
    SameValues(raw, o) &&
    o.rainToday == NormalizeFlag(schema.rainToday, raw.rainToday) &&
    o.rainTomorrow == NormalizeFlag(schema.rainTomorrow, raw.rainTomorrow)
  }

  /** The rows `dropna(subset=[date_col])` keeps. */
  predicate Dated(raw: RawRow)
  {
    raw.date.Some?
  }

  /** The load-time coercion: drop the rows without a date, keep every other
      row in order with its values, and normalize the rain flags of the
      columns that exist. The i-th result comes from the i-th dated row. */
  function Coerce(schema: Schema, raws: seq<RawRow>): (r: seq<Obs>)
    ensures |r| == |Filter(raws, Dated)|
    ensures |r| == |raws| <==> forall i :: 0 <= i < |raws| ==> raws[i].date.Some?
    ensures forall i :: 0 <= i < |r| ==> FromRaw(schema, Filter(raws, Dated)[i], r[i])
    ensures forall o :: o in r ==> exists raw :: raw in raws && SameValues(raw, o)
  {
    if |raws| == 0 then []
    else
      var rest := Coerce(schema, raws[1..]);
      assert forall raw :: raw in raws[1..] ==> raw in raws;
      CoerceStep(schema, raws, rest);
      if raws[0].date.Some? then [CoerceRow(schema, raws[0])] + rest else rest
  }

  /** The induction step of `Coerce`: a dated head row comes first, an
      undated one is dropped. */
  lemma CoerceStep(schema: Schema, raws: seq<RawRow>, rest: seq<Obs>)
    requires |raws| > 0 && |rest| == |Filter(raws[1..], Dated)|
    requires forall i :: 0 <= i < |rest| ==> FromRaw(schema, Filter(raws[1..], Dated)[i], rest[i])
    ensures raws[0].date.None? ==> Filter(raws, Dated) == Filter(raws[1..], Dated)
    ensures raws[0].date.Some? ==>
      var r := [CoerceRow(schema, raws[0])] + rest;
      |r| == |Filter(raws, Dated)| &&
      forall i :: 0 <= i < |r| ==> FromRaw(schema, Filter(raws, Dated)[i], r[i])
  {
    if raws[0].date.Some? {
      var r := [CoerceRow(schema, raws[0])] + rest;
      var f := Filter(raws, Dated);
      assert f == [raws[0]] + Filter(raws[1..], Dated);
      forall i | 0 <= i < |r| ensures FromRaw(schema, f[i], r[i]) {
        if i > 0 {
          assert r[i] == rest[i - 1] && f[i] == Filter(raws[1..], Dated)[i - 1];
        }
      }
    }
  }

  /** The frame as it stands after coercion, read back as raw rows. */
  function Render(obs: seq<Obs>): (r: seq<RawRow>)
    ensures |r| == |obs|
  {
    if |obs| == 0 then []
    else
      var o := obs[0];
      [RawRow(Some(o.date), o.location, o.rainfall, o.maxTemp, o.humidity, o.windSpeed,
        FlagCell(o.rainToday), FlagCell(o.rainTomorrow))] + Render(obs[1..])
  }

  /** Coercing an already-coerced frame drops no further row and changes no
      value. */
  lemma {:induction false} CoerceIdempotent(schema: Schema, raws: seq<RawRow>)
    ensures Coerce(schema, Render(Coerce(schema, raws))) == Coerce(schema, raws)
    decreases |raws|
  {
    if |raws| > 0 {
      CoerceIdempotent(schema, raws[1..]);
      if raws[0].date.Some? {
        var c := Coerce(schema, raws);
        assert c[1..] == Coerce(schema, raws[1..]);
        assert Render(c)[1..] == Render(c[1..]);
        EnsureYesNoIdempotent(raws[0].rainToday);
        EnsureYesNoIdempotent(raws[0].rainTomorrow);
      }
    }
  }

  /** One unfolding of `Coerce`: the head row's contribution, then the rest. */
  lemma CoerceHead(schema: Schema, raws: seq<RawRow>)
    requires |raws| > 0
    ensures Coerce(schema, raws) ==
      (if raws[0].date.Some? then [CoerceRow(schema, raws[0])] else []) + Coerce(schema, raws[1..])
  {
  }

  lemma {:induction false} CoerceAppend(schema: Schema, a: seq<RawRow>, b: seq<RawRow>)
    ensures Coerce(schema, a + b) == Coerce(schema, a) + Coerce(schema, b)
    decreases |a|
  {
    if |a| > 0 {
      var ab := a + b;
      assert ab[0] == a[0] && ab[1..] == a[1..] + b;
      CoerceAppend(schema, a[1..], b);
      CoerceHead(schema, ab);
      CoerceHead(schema, a);
      var head := if a[0].date.Some? then [CoerceRow(schema, a[0])] else [];
      var ca, cb := Coerce(schema, a[1..]), Coerce(schema, b);
      assert Coerce(schema, ab) == head + (ca + cb);
      assert head + (ca + cb) == (head + ca) + cb;
    } else {
      assert a + b == b;
    }
  }
}
