/** The SQL dashboard's filter translation (weather_insights.py:82-122,
    245-246): each active filter becomes one SQL condition, and the
    conditions are joined into a `WHERE` clause that every chart query
    shares. The text is modelled exactly; the database that evaluates it
    is not. */
module WhereClause {
  import opened Options
  import opened Strings
  import opened Rows
  import opened Selections

  /** `str(v).replace("'", "''")`: doubles every single quote. */
  function Escape(s: string): (r: string)
    ensures |r| >= |s|
  {
    if |s| == 0 then ""
    else (if s[0] == '\'' then "''" else [s[0]]) + Escape(s[1..])
  }

  /** Every quote of `t` is one of a doubled pair, so each run of quotes
      has even length. */
  predicate QuotesPaired(t: string)
    decreases |t|
  {
    |t| == 0 ||
    (if t[0] == '\'' then |t| >= 2 && t[1] == '\'' && QuotesPaired(t[2..]) else QuotesPaired(t[1..]))
  }

  /** Un-doubles every `''` back to `'`. */
  function Unescape(t: string): string
    decreases |t|
  {
    if |t| == 0 then ""
    else if |t| >= 2 && t[0] == '\'' && t[1] == '\'' then "'" + Unescape(t[2..])
    else [t[0]] + Unescape(t[1..])
  }

  /** Escaping pairs every quote, and un-doubling restores the value. */
  lemma {:induction false} EscapeRoundTrip(s: string)
    ensures QuotesPaired(Escape(s))
    ensures Unescape(Escape(s)) == s
    decreases |s|
  {
    if |s| > 0 {
      EscapeRoundTrip(s[1..]);
      var t := Escape(s);
      if s[0] == '\'' {
        assert t == "''" + Escape(s[1..]);
        assert t[2..] == Escape(s[1..]);
      } else {
        assert t == [s[0]] + Escape(s[1..]);
        assert t[1..] == Escape(s[1..]);
      }
      assert s == [s[0]] + s[1..];
    }
  }

  function EscapeAll(vs: seq<string>): (r: seq<string>)
    ensures |r| == |vs|
    ensures forall i :: 0 <= i < |vs| ==> r[i] == Escape(vs[i])
  {
    if |vs| == 0 then [] else [Escape(vs[0])] + EscapeAll(vs[1..])
  }

  const ListSep := "', '"

  /** `_escape_list`: the escaped values joined so that, once wrapped in
      single quotes, they form a SQL string list. */
  function EscapeList(vs: seq<string>): string
  {
    Join(EscapeAll(vs), ListSep)
  }

  /** Reads back the inside of a quoted SQL string list: a doubled quote
      stands for one quote, and a quote followed by `, '` ends a value. */
  function SplitList(t: string, cur: string): (r: seq<string>)
    ensures |r| >= 1
    decreases |t|
  {
    if |t| == 0 then [cur]
    else if |t| >= 2 && t[0] == '\'' && t[1] == '\'' then SplitList(t[2..], cur + "'")
    else if |t| >= 4 && t[..4] == ListSep then [cur] + SplitList(t[4..], "")
    else SplitList(t[1..], cur + [t[0]])
  }

  /** A doubled quote is read as one quote of the current value. */
  lemma SplitQuote(u: string, cur: string)
    ensures SplitList("''" + u, cur) == SplitList(u, cur + "'")
  {
    assert ("''" + u)[2..] == u;
  }

  /** Any other character is read as itself. */
  lemma SplitPlain(c: char, u: string, cur: string)
    requires c != '\''
    ensures SplitList([c] + u, cur) == SplitList(u, cur + [c])
  {
    assert ([c] + u)[1..] == u;
  }

  /** Reading the escaped form of a value's first character. */
  lemma SplitEscapedHead(v: string, rest: string, cur: string)
    requires |v| > 0
    ensures SplitList(Escape(v) + rest, cur) == SplitList(Escape(v[1..]) + rest, cur + [v[0]])
  {
    var u := Escape(v[1..]) + rest;
    if v[0] == '\'' {
      assert Escape(v) + rest == "''" + u;
      SplitQuote(u, cur);
      assert cur + "'" == cur + [v[0]];
    } else {
      assert Escape(v) + rest == [v[0]] + u;
      SplitPlain(v[0], u, cur);
    }
  }

  /** An escaped value is read back whole, whatever follows it. */
  lemma {:induction false} SplitEscaped(v: string, rest: string, cur: string)
    ensures SplitList(Escape(v) + rest, cur) == SplitList(rest, cur + v)
    decreases |v|
  {
    if |v| == 0 {
      assert Escape(v) + rest == rest;
      assert cur + v == cur;
    } else {
      SplitEscapedHead(v, rest, cur);
      SplitEscaped(v[1..], rest, cur + [v[0]]);
      assert cur + [v[0]] + v[1..] == cur + v;
    }
  }

  /** Escaping a non-empty list of values loses nothing: the values are
      recovered exactly, quotes included. */
  lemma {:induction false} SplitEscapeList(vs: seq<string>)
    requires |vs| > 0
    ensures SplitList(EscapeList(vs), "") == vs
    decreases |vs|
  {
    if |vs| == 1 {
      SplitEscaped(vs[0], "", "");
      assert EscapeList(vs) == Escape(vs[0]) + "";
      assert "" + vs[0] == vs[0];
    } else {
      var rest := EscapeList(vs[1..]);
      assert EscapeAll(vs)[1..] == EscapeAll(vs[1..]);
      assert EscapeList(vs) == Escape(vs[0]) + (ListSep + rest);
      SplitEscaped(vs[0], ListSep + rest, "");
      assert (ListSep + rest)[..4] == ListSep;
      assert (ListSep + rest)[4..] == rest;
      SplitEscapeList(vs[1..]);
      assert "" + vs[0] == vs[0];
    }
  }

  /** Python's `s.split(c)`. */
  function SplitOn(s: string, c: char): (r: seq<string>)
    ensures |r| >= 1
  {
    if |s| == 0 then [""]
    else
      var rest := SplitOn(s[1..], c);
      if s[0] == c then [""] + rest else [[s[0]] + rest[0]] + rest[1..]
  }

  /** A separator-free prefix joins the first piece. */
  lemma {:induction false} SplitOnPrefix(a: string, t: string, c: char)
    requires c !in a
    ensures SplitOn(a + t, c) == [a + SplitOn(t, c)[0]] + SplitOn(t, c)[1..]
    decreases |a|
  {
    if |a| == 0 {
      var st := SplitOn(t, c);
      assert a + t == t;
      assert a + st[0] == st[0];
      assert st == [st[0]] + st[1..];
    } else {
      assert (a + t)[0] == a[0] != c;
      assert (a + t)[1..] == a[1..] + t;
      SplitOnPrefix(a[1..], t, c);
      var st := SplitOn(t, c);
      var rr := SplitOn(a[1..] + t, c);
      assert rr[0] == a[1..] + st[0];
      assert rr[1..] == st[1..];
      assert [a[0]] + (a[1..] + st[0]) == a + st[0];
    }
  }

  lemma SplitOnPiece(a: string, b: string, c: char)
    requires c !in a
    ensures SplitOn(a + [c] + b, c) == [a] + SplitOn(b, c)
  {
    assert a + [c] + b == a + ([c] + b);
    assert ([c] + b)[0] == c;
    assert ([c] + b)[1..] == b;
    assert SplitOn([c] + b, c) == [""] + SplitOn(b, c);
    SplitOnPrefix(a, [c] + b, c);
    assert a + "" == a;
  }

  lemma SplitOnWhole(a: string, c: char)
    requires c !in a
    ensures SplitOn(a, c) == [a]
  {
    SplitOnPrefix(a, "", c);
    assert a + "" == a;
  }

  /** Python's `str(d)` for a date: `YYYY-MM-DD`. */
  function DateText(d: Date): string
  {
    DashJoin(ZeroPad(NatText(d.year), 4), ZeroPad(NatText(d.month), 2), ZeroPad(NatText(d.day), 2))
  }

  function DashJoin(y: string, m: string, d: string): string
  {
    y + "-" + m + "-" + d
  }

  lemma {:induction false} ParseNatLeadingZero(s: string)
    ensures ParseNat("0" + s) == ParseNat(s)
    decreases |s|
  {
    if |s| > 0 {
      var t := "0" + s;
      assert t[..|t| - 1] == "0" + s[..|s| - 1];
      ParseNatLeadingZero(s[..|s| - 1]);
    } else {
      assert ParseNat("0"[..0]) == 0;
    }
  }

  lemma {:induction false} ParseNatPadded(s: string, width: nat)
    ensures ParseNat(ZeroPad(s, width)) == ParseNat(s)
    decreases width - |s|
  {
    if |s| < width {
      ZeroPadStep(s, width);
      ParseNatPadded("0" + s, width);
      ParseNatLeadingZero(s);
    }
  }

  lemma PaddedDigits(n: nat, width: nat)
    ensures forall i :: 0 <= i < |ZeroPad(NatText(n), width)| ==> IsDigit(ZeroPad(NatText(n), width)[i])
    ensures ParseNat(ZeroPad(NatText(n), width)) == n
  {
    var s := NatText(n);
    var r := ZeroPad(s, width);
    forall i | 0 <= i < |r| ensures IsDigit(r[i]) {
      if i >= |r| - |s| {
        assert r[i] == r[|r| - |s|..][i - (|r| - |s|)];
      }
    }
    ParseNatPadded(s, width);
    ParseNatText(n);
  }

  /** Reads a `YYYY-MM-DD` date. */
  function ParseDate(t: string): Option<Date>
  {
    var parts := SplitOn(t, '-');
    if |parts| == 3 then Some(Date(ParseNat(parts[0]), ParseNat(parts[1]), ParseNat(parts[2]))) else None
  }

  lemma ThreePieces(x: string, y: string, z: string, c: char)
    requires c !in x && c !in y && c !in z
    ensures SplitOn(x + [c] + y + [c] + z, c) == [x, y, z]
  {
    assert x + [c] + y + [c] + z == x + [c] + (y + [c] + z);
    SplitOnPiece(x, y + [c] + z, c);
    SplitOnPiece(y, z, c);
    SplitOnWhole(z, c);
  }

  lemma DigitsHaveNo(s: string, c: char)
    requires !IsDigit(c)
    requires forall i :: 0 <= i < |s| ==> IsDigit(s[i])
    ensures c !in s
  {
  }

  /** The ISO rendering of a date determines the date. */
  lemma DateTextRoundTrip(d: Date)
    ensures ParseDate(DateText(d)) == Some(d)
  {
    var y := ZeroPad(NatText(d.year), 4);
    var m := ZeroPad(NatText(d.month), 2);
    var dd := ZeroPad(NatText(d.day), 2);
    PaddedDigits(d.year, 4);
    PaddedDigits(d.month, 2);
    PaddedDigits(d.day, 2);
    DigitsHaveNo(y, '-');
    DigitsHaveNo(m, '-');
    DigitsHaveNo(dd, '-');
    assert DateText(d) == y + ['-'] + m + ['-'] + dd;
    ThreePieces(y, m, dd, '-');
  }

  /** The conditions `build_where_clause` can emit, in the order it
      appends them. */
  datatype Clause = DateBetween | LocationIn | RainTodayIs | RainTomorrowIs | SeasonIn | TempBetween

  /** When each condition is emitted: a full date range, a non-empty city
      list, a rain choice other than "All", a season other than "All", and a
      two-ended temperature range. */
  predicate Active(sel: Selection, k: Clause)
  {
    match k
    case DateBetween => DateRangeActive(sel)
    case LocationIn => |sel.locations| > 0
    case RainTodayIs => sel.rainToday != "All"
    case RainTomorrowIs => sel.rainTomorrow != "All"
    case SeasonIn => sel.season != All
    case TempBetween => |sel.tempRange| == 2
  }

  function MonthTexts(ms: seq<nat>): (r: seq<string>)
    ensures |r| == |ms|
    ensures forall i :: 0 <= i < |ms| ==> r[i] == NatText(ms[i])
  {
    if |ms| == 0 then [] else [NatText(ms[0])] + MonthTexts(ms[1..])
  }

  /** The season condition; the summer list is written out by hand in the
      source, the others are joined from the season table. */
  function SeasonClause(s: Season): string
    requires s != All
  {
    if 12 in SeasonMonths(s) then MonthIn("12,1,2")
    else MonthIn(Join(MonthTexts(SeasonMonths(s)), ", "))
  }

  function MonthIn(list: string): string
  {
    "EXTRACT(MONTH FROM date) IN (" + list + ")"
  }

  function DateClause(start: Date, end: Date): string
  {
    QuotedRange(DateText(start), DateText(end))
  }

  function QuotedRange(a: string, b: string): string
  {
    "date BETWEEN '" + a + "' AND '" + b + "'"
  }

  function LocationClause(locs: seq<string>): string
  {
    "location IN ('" + EscapeList(locs) + "')"
  }

  function ChoiceClause(column: string, choice: string): string
  {
    column + " = '" + choice + "'"
  }

  /** `int(temp_range[0])`, `int(temp_range[1])`: truncated bounds. */
  function TempClause(lo: real, hi: real): string
  {
    "maxtemp BETWEEN " + IntText(Trunc(lo)) + " AND " + IntText(Trunc(hi))
  }

  /** The text of a clause kind for the current selection (empty for a
      kind whose inputs are incomplete; such a kind is never emitted). */
  function ClauseText(sel: Selection, k: Clause): string
  {
    match k
    case DateBetween =>
      if DateRangeActive(sel) then DateClause(sel.dateRange[0].value, sel.dateRange[1].value) else ""
    case LocationIn => LocationClause(sel.locations)
    case RainTodayIs => ChoiceClause("raintoday", sel.rainToday)
    case RainTomorrowIs => ChoiceClause("raintomorrow", sel.rainTomorrow)
    case SeasonIn => if sel.season != All then SeasonClause(sel.season) else ""
    case TempBetween => if |sel.tempRange| == 2 then TempClause(sel.tempRange[0], sel.tempRange[1]) else ""
  }

  /** One `if ...: conditions.append(...)` step. */
  function Emit(sel: Selection, k: Clause): seq<string>
  {
    if Active(sel, k) then [ClauseText(sel, k)] else []
  }

  /** `conditions` after the six appending steps of `build_where_clause`. */
  function Conditions(sel: Selection): seq<string>
  {
    Emit(sel, DateBetween) + Emit(sel, LocationIn) + Emit(sel, RainTodayIs) +
    Emit(sel, RainTomorrowIs) + Emit(sel, SeasonIn) + Emit(sel, TempBetween)
  }

  function Texts(sel: Selection, kinds: seq<Clause>): (r: seq<string>)
    ensures |r| == |kinds|
    ensures forall i :: 0 <= i < |kinds| ==> r[i] == ClauseText(sel, kinds[i])
  {
    seq(|kinds|, i requires 0 <= i < |kinds| => ClauseText(sel, kinds[i]))
  }

  lemma TextsAppend(sel: Selection, a: seq<Clause>, b: seq<Clause>)
    ensures Texts(sel, a + b) == Texts(sel, a) + Texts(sel, b)
  {
    assert forall i :: 0 <= i < |b| ==> (a + b)[|a| + i] == b[i];
  }

  function Only(sel: Selection, k: Clause): (r: seq<Clause>)
    ensures forall i :: 0 <= i < |r| ==> Active(sel, r[i])
  {
    if Active(sel, k) then [k] else []
  }

  /** The active clause kinds in emission order; each active kind occurs
      once. */
  function ActiveKinds(sel: Selection): (r: seq<Clause>)
    ensures forall k :: k in r <==> Active(sel, k)
    ensures forall i :: 0 <= i < |r| ==> Active(sel, r[i])
  {
    Only(sel, DateBetween) + Only(sel, LocationIn) + Only(sel, RainTodayIs) +
    Only(sel, RainTomorrowIs) + Only(sel, SeasonIn) + Only(sel, TempBetween)
  }

  /** The conditions are exactly the texts of the active clauses, one each,
      in the order date, cities, rain today, rain tomorrow, season,
      temperature. */
  lemma ConditionsOfActive(sel: Selection)
    ensures Conditions(sel) == Texts(sel, ActiveKinds(sel))
  {
    var k0, k1, k2 := Only(sel, DateBetween), Only(sel, LocationIn), Only(sel, RainTodayIs);
    var k3, k4, k5 := Only(sel, RainTomorrowIs), Only(sel, SeasonIn), Only(sel, TempBetween);
    var e0, e1, e2 := Emit(sel, DateBetween), Emit(sel, LocationIn), Emit(sel, RainTodayIs);
    var e3, e4, e5 := Emit(sel, RainTomorrowIs), Emit(sel, SeasonIn), Emit(sel, TempBetween);
    TextsOnly(sel, DateBetween);
    TextsOnly(sel, LocationIn);
    TextsOnly(sel, RainTodayIs);
    TextsOnly(sel, RainTomorrowIs);
    TextsOnly(sel, SeasonIn);
    TextsOnly(sel, TempBetween);
    TextsAppend(sel, k0, k1);
    assert Texts(sel, k0 + k1) == e0 + e1;
    TextsAppend(sel, k0 + k1, k2);
    assert Texts(sel, k0 + k1 + k2) == e0 + e1 + e2;
    TextsAppend(sel, k0 + k1 + k2, k3);
    assert Texts(sel, k0 + k1 + k2 + k3) == e0 + e1 + e2 + e3;
    TextsAppend(sel, k0 + k1 + k2 + k3, k4);
    assert Texts(sel, k0 + k1 + k2 + k3 + k4) == e0 + e1 + e2 + e3 + e4;
    TextsAppend(sel, k0 + k1 + k2 + k3 + k4, k5);
  }

  lemma TextsOnly(sel: Selection, k: Clause)
    ensures Texts(sel, Only(sel, k)) == Emit(sel, k)
  {
  }

  /** The condition kind named by a condition's leading column. */
  function Classify(cond: string): Option<Clause>
  {
    KindOfColumn(SplitOn(cond, ' ')[0])
  }

  /** The clause kind that filters on a leading column expression. */
  function KindOfColumn(head: string): Option<Clause>
  {
    if head == "date" then Some(DateBetween)
    else if head == "location" then Some(LocationIn)
    else if head == "raintoday" then Some(RainTodayIs)
    else if head == "raintomorrow" then Some(RainTomorrowIs)
    else if head == "EXTRACT(MONTH" then Some(SeasonIn)
    else if head == "maxtemp" then Some(TempBetween)
    else None
  }

  lemma HeadWord(word: string, rest: string)
    requires ' ' !in word
    ensures SplitOn(word + " " + rest, ' ')[0] == word
  {
    SplitOnPiece(word, rest, ' ');
  }

  lemma ClassifyWord(word: string, rest: string)
    requires ' ' !in word
    ensures Classify(word + " " + rest) == KindOfColumn(word)
  {
    HeadWord(word, rest);
  }

  lemma ClassifyDate(a: string, b: string)
    ensures Classify(QuotedRange(a, b)) == Some(DateBetween)
  {
    var d := QuotedRange(a, b);
    assert d == "date" + " " + d[5..];
    ClassifyWord("date", d[5..]);
  }

  lemma ClassifyLocation(locs: seq<string>)
    ensures Classify(LocationClause(locs)) == Some(LocationIn)
  {
    var d := LocationClause(locs);
    assert d == "location" + " " + d[9..];
    ClassifyWord("location", d[9..]);
  }

  lemma ClassifyChoice(column: string, choice: string)
    requires column == "raintoday" || column == "raintomorrow"
    ensures Classify(ChoiceClause(column, choice)) == Some(if column == "raintoday" then RainTodayIs else RainTomorrowIs)
  {
    var d := ChoiceClause(column, choice);
    assert d == column + " " + d[|column| + 1..];
    ClassifyWord(column, d[|column| + 1..]);
  }

  lemma ClassifySeason(list: string)
    ensures Classify(MonthIn(list)) == Some(SeasonIn)
  {
    var d := MonthIn(list);
    assert d == "EXTRACT(MONTH" + " " + d[14..];
    ClassifyWord("EXTRACT(MONTH", d[14..]);
  }

  lemma ClassifyTemp(lo: real, hi: real)
    ensures Classify(TempClause(lo, hi)) == Some(TempBetween)
  {
    var d := TempClause(lo, hi);
    assert d == "maxtemp" + " " + d[8..];
    ClassifyWord("maxtemp", d[8..]);
  }

  /** Every condition names the clause that produced it. */
  lemma ClassifyClause(sel: Selection, k: Clause)
    requires Active(sel, k)
    ensures Classify(ClauseText(sel, k)) == Some(k)
  {
    match k
    case DateBetween => ClassifyDate(DateText(sel.dateRange[0].value), DateText(sel.dateRange[1].value));
    case LocationIn => ClassifyLocation(sel.locations);
    case RainTodayIs => ClassifyChoice("raintoday", sel.rainToday);
    case RainTomorrowIs => ClassifyChoice("raintomorrow", sel.rainTomorrow);
    case SeasonIn =>
      if 12 in SeasonMonths(sel.season) {
        ClassifySeason("12,1,2");
      } else {
        ClassifySeason(Join(MonthTexts(SeasonMonths(sel.season)), ", "));
      }
    case TempBetween => ClassifyTemp(sel.tempRange[0], sel.tempRange[1]);
  }

  /** The kinds of the emitted conditions, read back from their text, are
      the active clauses in emission order: no filter is dropped, doubled or
      reordered. */
  lemma ConditionKinds(sel: Selection)
    ensures |Conditions(sel)| == |ActiveKinds(sel)|
    ensures forall i :: 0 <= i < |Conditions(sel)| ==> Classify(Conditions(sel)[i]) == Some(ActiveKinds(sel)[i])
    ensures forall k :: (exists i :: 0 <= i < |Conditions(sel)| && Classify(Conditions(sel)[i]) == Some(k)) <==> Active(sel, k)
  {
    ConditionsOfActive(sel);
    var a := ActiveKinds(sel);
    forall i | 0 <= i < |a| ensures Classify(Conditions(sel)[i]) == Some(a[i]) {
      ClassifyClause(sel, a[i]);
    }
    forall k | Active(sel, k) ensures exists i :: 0 <= i < |Conditions(sel)| && Classify(Conditions(sel)[i]) == Some(k) {
      var i :| 0 <= i < |a| && a[i] == k;
      assert Classify(Conditions(sel)[i]) == Some(k);
    }
  }

  /** Reads the city list back out of a location condition. */
  function DecodeLocations(cond: string): Option<seq<string>>
  {
    var prefix := "location IN ('";
    if |cond| >= |prefix| + 2 && cond[..|prefix|] == prefix && cond[|cond| - 2..] == "')"
    then Some(SplitList(cond[|prefix|..|cond| - 2], ""))
    else None
  }

  /** The location condition carries the selected cities exactly, even those
      whose names contain quotes. */
  lemma LocationClauseRoundTrip(locs: seq<string>)
    requires |locs| > 0
    ensures DecodeLocations(LocationClause(locs)) == Some(locs)
  {
    var prefix := "location IN ('";
    var t := LocationClause(locs);
    assert t == prefix + EscapeList(locs) + "')";
    assert t[..|prefix|] == prefix;
    assert t[|t| - 2..] == "')";
    assert t[|prefix|..|t| - 2] == EscapeList(locs);
    SplitEscapeList(locs);
  }

  function Unquote(t: string): string
  {
    if |t| >= 2 then t[1..|t| - 1] else t
  }

  /** Reads the two dates back out of a date condition. */
  function DecodeDates(cond: string): Option<(Option<Date>, Option<Date>)>
  {
    var words := SplitOn(cond, ' ');
    if |words| == 5 then Some((ParseDate(Unquote(words[2])), ParseDate(Unquote(words[4])))) else None
  }

  lemma DateTextNoSpace(d: Date)
    ensures ' ' !in "'" + DateText(d) + "'"
  {
    var y := ZeroPad(NatText(d.year), 4);
    var m := ZeroPad(NatText(d.month), 2);
    var dd := ZeroPad(NatText(d.day), 2);
    PaddedDigits(d.year, 4);
    PaddedDigits(d.month, 2);
    PaddedDigits(d.day, 2);
    DigitsHaveNo(y, ' ');
    DigitsHaveNo(m, ' ');
    DigitsHaveNo(dd, ' ');
    QuotedNoSpace(y, m, dd);
  }

  lemma QuotedNoSpace(y: string, m: string, d: string)
    requires ' ' !in y && ' ' !in m && ' ' !in d
    ensures ' ' !in "'" + DashJoin(y, m, d) + "'"
  {
    assert "'" + DashJoin(y, m, d) + "'" == "'" + y + "-" + m + "-" + d + "'";
  }

  /** Five space-free words joined by single spaces split back apart. */
  lemma FiveWords(w0: string, w1: string, w2: string, w3: string, w4: string)
    requires ' ' !in w0 && ' ' !in w1 && ' ' !in w2 && ' ' !in w3 && ' ' !in w4
    ensures SplitOn(w0 + " " + w1 + " " + w2 + " " + w3 + " " + w4, ' ') == [w0, w1, w2, w3, w4]
  {
    var t3 := w3 + [' '] + w4;
    var t2 := w2 + [' '] + t3;
    var t1 := w1 + [' '] + t2;
    SpacedFive(w0, w1, w2, w3, w4);
    SplitOnWhole(w4, ' ');
    SplitOnPiece(w3, w4, ' ');
    assert SplitOn(t3, ' ') == [w3, w4];
    SplitOnPiece(w2, t3, ' ');
    assert SplitOn(t2, ' ') == [w2, w3, w4];
    SplitOnPiece(w1, t2, ' ');
    assert SplitOn(t1, ' ') == [w1, w2, w3, w4];
    SplitOnPiece(w0, t1, ' ');
  }

  lemma SpacedFive(w0: string, w1: string, w2: string, w3: string, w4: string)
    ensures w0 + " " + w1 + " " + w2 + " " + w3 + " " + w4 ==
      w0 + [' '] + (w1 + [' '] + (w2 + [' '] + (w3 + [' '] + w4)))
  {
  }

  /** The date condition carries both ends of the range exactly. */
  lemma DateClauseRoundTrip(start: Date, end: Date)
    ensures DecodeDates(DateClause(start, end)) == Some((Some(start), Some(end)))
  {
    DateTextNoSpace(start);
    DateTextNoSpace(end);
    QuotedRangeWords(DateText(start), DateText(end));
    DateTextRoundTrip(start);
    DateTextRoundTrip(end);
  }

  lemma QuotedRangeWords(x: string, y: string)
    requires ' ' !in "'" + x + "'" && ' ' !in "'" + y + "'"
    ensures DecodeDates(QuotedRange(x, y)) == Some((ParseDate(x), ParseDate(y)))
  {
    var a := "'" + x + "'";
    var b := "'" + y + "'";
    assert QuotedRange(x, y) == "date" + " " + "BETWEEN" + " " + a + " " + "AND" + " " + b;
    FiveWords("date", "BETWEEN", a, "AND", b);
    assert Unquote(a) == x;
    assert Unquote(b) == y;
  }

  /** Reads the two bounds back out of a temperature condition. */
  function DecodeTemps(cond: string): Option<(int, int)>
  {
    var words := SplitOn(cond, ' ');
    if |words| == 5 then Some((ParseInt(words[2]), ParseInt(words[4]))) else None
  }

  lemma IntTextNoSpace(i: int)
    ensures ' ' !in IntText(i)
  {
    var t := NatText(if i < 0 then -i else i);
    assert forall j :: 0 <= j < |t| ==> IsDigit(t[j]);
  }

  /** The temperature condition carries the truncated slider bounds; an
      integer bound (as the SQL dashboard's slider yields) comes through
      unchanged. */
  lemma TempClauseRoundTrip(lo: real, hi: real)
    ensures DecodeTemps(TempClause(lo, hi)) == Some((Trunc(lo), Trunc(hi)))
    ensures lo == lo.Floor as real ==> Trunc(lo) == lo.Floor
    ensures hi == hi.Floor as real ==> Trunc(hi) == hi.Floor
  {
    var a := IntText(Trunc(lo));
    var b := IntText(Trunc(hi));
    IntTextNoSpace(Trunc(lo));
    IntTextNoSpace(Trunc(hi));
    assert TempClause(lo, hi) == "maxtemp" + " " + "BETWEEN" + " " + a + " " + "AND" + " " + b;
    FiveWords("maxtemp", "BETWEEN", a, "AND", b);
    ParseIntText(Trunc(lo));
    ParseIntText(Trunc(hi));
  }

  /** The hand-written summer list and the joined lists both spell out the
      season table's months, so the SQL filter matches the same months as
      the CSV dashboard's season filter. */
  lemma SeasonClauseMonths(s: Season)
    requires s != All
    ensures SeasonClause(s) ==
      MonthIn(Join(MonthTexts(SeasonMonths(s)), if s == Summer then "," else ", "))
  {
    if s == Summer {
      assert NatText(12) == "12";
      assert MonthTexts([12, 1, 2]) == ["12", "1", "2"];
      assert Join(["12", "1", "2"], ",") == "12,1,2";
    }
  }

  /** `build_where_clause`: the empty string when no filter is active,
      otherwise `WHERE` followed by the conditions joined with `AND`. */
  function BuildWhere(sel: Selection): (r: string)
    ensures r == "" <==> forall k :: !Active(sel, k)
    ensures r != "" ==> r == "WHERE " + Join(Texts(sel, ActiveKinds(sel)), " AND ")
  {
    ConditionsOfActive(sel);
    NoConditionsIffInactive(sel);
    WhereOf(Conditions(sel))
  }

  /** `"WHERE " + " AND ".join(conditions) if conditions else ""`. */
  function WhereOf(conds: seq<string>): string
  {
    if |conds| > 0 then "WHERE " + Join(conds, " AND ") else ""
  }

  lemma NoConditionsIffInactive(sel: Selection)
    ensures |Conditions(sel)| == 0 <==> forall k :: !Active(sel, k)
  {
    ConditionsOfActive(sel);
    if |Conditions(sel)| == 0 {
      assert |ActiveKinds(sel)| == 0;
    } else {
      assert Active(sel, ActiveKinds(sel)[0]);
    }
  }

  const ExtremeCondition := "rainfall > 100"

  /** The extreme-rain query's clause: the shared clause with one more
      condition, or that condition alone. */
  function ExtremeWhere(where: string): string
  {
    if where != "" then where + " AND " + ExtremeCondition else "WHERE " + ExtremeCondition
  }

  /** The extreme-rain clause is the clause the same filters would build
      with the rainfall condition appended as the last condition. */
  lemma ExtremeWhereAppends(sel: Selection)
    ensures ExtremeWhere(BuildWhere(sel)) == "WHERE " + Join(Conditions(sel) + [ExtremeCondition], " AND ")
  {
    ExtremeOf(Conditions(sel));
  }

  lemma ExtremeOf(conds: seq<string>)
    ensures ExtremeWhere(WhereOf(conds)) == "WHERE " + Join(conds + [ExtremeCondition], " AND ")
  {
    if |conds| > 0 {
      var j := Join(conds, " AND ");
      JoinSnoc(conds, " AND ", ExtremeCondition);
      assert "WHERE " + j != "";
      assert "WHERE " + j + " AND " + ExtremeCondition == "WHERE " + (j + " AND " + ExtremeCondition);
    } else {
      assert conds + [ExtremeCondition] == [ExtremeCondition];
    }
  }
}
