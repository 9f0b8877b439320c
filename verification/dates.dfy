/**
  * The two news-date normalisers: `parse_bing_date` (Bing) and
  * `parse_news_date` (Google News).  Both strip the text, turn "N hours /
  * minutes / days ago" into the date that far before now, turn an absolute
  * date into `YYYY-MM-DD`, and hand back any other text stripped but
  * otherwise unchanged.  The clock reading `now` is a parameter.
  */
module NewsDates {
  import opened Results
  import opened Text
  import opened Calendar

  /** The exceptions a normaliser lets escape. */
  datatype DateError =
    | Overflow   // OverflowError: the date would fall before 0001-01-01
    | BadDate    // ValueError: the digits do not make a date

  // ---------------------------------------------------------------------
  // Digits and numbers

  predicate IsDigit(c: char)
  {
    '0' <= c <= '9'
  }

  predicate AllDigits(s: string)
  {
    forall i :: 0 <= i < |s| ==> IsDigit(s[i])
  }

  /** The length of the run of digits `s` begins with. */
  function DigitRun(s: string): (k: nat)
    ensures k <= |s| && AllDigits(s[..k]) && (k == |s| || !IsDigit(s[k]))
  {
    if s != [] && IsDigit(s[0]) then
      var k := DigitRun(s[1..]);
      assert s[..k + 1] == [s[0]] + s[1..][..k];
      k + 1
    else 0
  }

  /** The length of the run of white space `s` begins with. */
  function SpaceRun(s: string): (k: nat)
    ensures k <= |s| && AllSpace(s[..k]) && (k == |s| || !IsSpace(s[k]))
  {
    if s != [] && IsSpace(s[0]) then
      var k := SpaceRun(s[1..]);
      assert s[..k + 1] == [s[0]] + s[1..][..k];
      k + 1
    else 0
  }

  /** The run of digits is the longest all-digit prefix. */
  lemma {:induction false} DigitRunExact(s: string, i: nat)
    requires i <= |s| && AllDigits(s[..i]) && (i == |s| || !IsDigit(s[i]))
    ensures DigitRun(s) == i
  {
    if i > 0 {
      assert IsDigit(s[..i][0]);
      assert s[1..][..i - 1] == s[..i][1..];
      DigitRunExact(s[1..], i - 1);
    }
  }

  /** The run of white space is the longest all-space prefix. */
  lemma {:induction false} SpaceRunExact(s: string, i: nat)
    requires i <= |s| && AllSpace(s[..i]) && (i == |s| || !IsSpace(s[i]))
    ensures SpaceRun(s) == i
  {
    if i > 0 {
      assert IsSpace(s[..i][0]);
      assert s[1..][..i - 1] == s[..i][1..];
      SpaceRunExact(s[1..], i - 1);
    }
  }

  function DigitValue(c: char): int
  {
    c as int - '0' as int
  }

  /** `int(ds)` for a string of ASCII digits. */
  function Value(ds: string): nat
    requires AllDigits(ds)
  {
    if ds == [] then 0 else Value(ds[..|ds| - 1]) * 10 + DigitValue(ds[|ds| - 1])
  }

  function Pow10(w: nat): nat
  {
    if w == 0 then 1 else 10 * Pow10(w - 1)
  }

  /** Zero-padded decimal digits read back as the number they render. */
  lemma {:induction false} ValuePadded(n: nat, w: nat)
    requires n < Pow10(w)
    ensures Value(Padded(n, w)) == n
  {
    if w > 0 {
      var s := Padded(n, w);
      assert s[..|s| - 1] == Padded(n / 10, w - 1);
      ValuePadded(n / 10, w - 1);
    }
  }

  // ---------------------------------------------------------------------
  // The relative patterns `(\d+)\s*<unit>`

  const HoursAgo: string := "小時前"
  const MinutesAgo: string := "分鐘前"
  const DaysAgo: string := "天前"

  /** A unit word: it begins with a character that is neither a digit nor white space. */
  predicate Unit(u: string)
  {
    u != [] && !IsDigit(u[0]) && !IsSpace(u[0])
  }

  /** `re.match(r'(\d+)\s*' + unit, s)`: the number in front of the unit, if `s` matches. */
  function MatchCount(s: string, unit: string): Option<nat>
  {
    var k := DigitRun(s);
    if k == 0 then None
    else
      var w := SpaceRun(s[k..]);
      if unit <= s[k + w..] then Some(Value(s[..k])) else None
  }

  /** `s` begins with digits, then white space, then `unit`, split at `i` and `j`. */
  predicate CountAt(s: string, unit: string, i: int, j: int)
  {
    0 < i <= j <= |s| && AllDigits(s[..i]) && AllSpace(s[i..j]) && unit <= s[j..]
  }

  /**
    * `MatchCount` is the regular expression: it finds a count exactly when
    * some split of `s` into digits, white space and the unit exists, and the
    * count is the value of the digits of that split.
    */
  lemma MatchCountIff(s: string, unit: string)
    requires Unit(unit)
    ensures MatchCount(s, unit).Some? <==> exists i, j :: CountAt(s, unit, i, j)
    ensures forall i, j :: CountAt(s, unit, i, j) ==> MatchCount(s, unit) == Some(Value(s[..i]))
  {
    var k := DigitRun(s);
    if MatchCount(s, unit).Some? {
      var w := SpaceRun(s[k..]);
      assert s[k..k + w] == s[k..][..w];
      assert CountAt(s, unit, k, k + w);
    }
    forall i, j | CountAt(s, unit, i, j) ensures MatchCount(s, unit) == Some(Value(s[..i])) {
      CountAtUnique(s, unit, i, j);
    }
  }

  lemma CountAtUnique(s: string, unit: string, i: int, j: int)
    requires Unit(unit) && CountAt(s, unit, i, j)
    ensures DigitRun(s) == i && SpaceRun(s[i..]) == j - i
    ensures MatchCount(s, unit) == Some(Value(s[..i]))
  {
    assert j < |s| && s[j] == unit[0];
    if i < j {
      assert IsSpace(s[i..j][0]);
    }
    DigitRunExact(s, i);
    assert s[i..][..j - i] == s[i..j];
    SpaceRunExact(s[i..], j - i);
    assert s[i..][j - i..] == s[j..];
  }

  /** Units that begin differently never match the same text. */
  lemma UnitsExclusive(s: string, u: string, v: string)
    requires Unit(u) && Unit(v) && u[0] != v[0]
    ensures !(MatchCount(s, u).Some? && MatchCount(s, v).Some?)
  {
  }

  /** The date `delta` microseconds before `now`, as `strftime('%Y-%m-%d')`. */
  function Ago(now: Moment, delta: nat): Result<string, DateError>
    requires ValidMoment(now)
  {
    match DateBefore(now, delta)
    case Some(d) => Ok(Format(d))
    case None => Err(Overflow)
  }

  // ---------------------------------------------------------------------
  // Absolute dates

  /** `(\d{lo,hi})<close>` at the start of `s`: the number and the length consumed. */
  function DigitsThen(s: string, lo: nat, hi: nat, close: char): Option<(nat, nat)>
  {
    var r := DigitRun(s);
    if lo <= r <= hi && r < |s| && s[r] == close then Some((Value(s[..r]), r + 1)) else None
  }

  /** `re.match(r"(\d{4})年(\d{1,2})月(\d{1,2})日", s)`: year, month and day, not yet checked. */
  function CjkDate(s: string): Option<Date>
  {
    match DigitsThen(s, 4, 4, '年')
    case None => None
    case Some((y, a)) =>
      match DigitsThen(s[a..], 1, 2, '月')
      case None => None
      case Some((m, b)) =>
        match DigitsThen(s[a + b..], 1, 2, '日')
        case None => None
        case Some((d, _)) => Some(Date(y, m, d))
  }

  /** `re.match(r'(\d{4})[/-](\d{1,2})[/-](\d{1,2})', s)` succeeds. */
  predicate NumericPrefix(s: string)
  {
    DigitRun(s) == 4 && 4 < |s| && (s[4] == '/' || s[4] == '-') &&
    var m := DigitRun(s[5..]);
    1 <= m <= 2 && 5 + m < |s| && (s[5 + m] == '/' || s[5 + m] == '-') && DigitRun(s[6 + m..]) >= 1
  }

  /** The alternatives of `%m` (`1[0-2]|0[1-9]|[1-9]`) that match at `p`, in the order tried: value and length. */
  function MonthCandidates(s: string, p: nat): seq<(int, nat)>
  {
    (if p + 1 < |s| && s[p] == '1' && '0' <= s[p + 1] <= '2' then [(10 + DigitValue(s[p + 1]), 2)] else []) +
    (if p + 1 < |s| && s[p] == '0' && '1' <= s[p + 1] <= '9' then [(DigitValue(s[p + 1]), 2)] else []) +
    (if p < |s| && '1' <= s[p] <= '9' then [(DigitValue(s[p]), 1)] else [])
  }

  /** The first alternative of `%d` (`3[01]|[12]\d|0[1-9]|[1-9]| [1-9]`) that matches at `q`. */
  function DayToken(s: string, q: nat): Option<(int, nat)>
  {
    if q + 1 < |s| && s[q] == '3' && '0' <= s[q + 1] <= '1' then Some((30 + DigitValue(s[q + 1]), 2))
    else if q + 1 < |s| && '1' <= s[q] <= '2' && IsDigit(s[q + 1]) then Some((DigitValue(s[q]) * 10 + DigitValue(s[q + 1]), 2))
    else if q + 1 < |s| && s[q] == '0' && '1' <= s[q + 1] <= '9' then Some((DigitValue(s[q + 1]), 2))
    else if q < |s| && '1' <= s[q] <= '9' then Some((DigitValue(s[q]), 1))
    else if q + 1 < |s| && s[q] == ' ' && '1' <= s[q + 1] <= '9' then Some((DigitValue(s[q + 1]), 2))
    else None
  }

  /**
    * The month, day and end of the first match of `sep%m sep%d` from the
    * month candidates `cands` on (the regular expression backtracks into the
    * next month alternative when the rest does not match).
    */
  function MonthDay(s: string, sep: char, cands: seq<(int, nat)>): Option<(int, int, nat)>
  {
    if cands == [] then None
    else
      var (m, l) := cands[0];
      var q := 5 + l + 1;
      if 5 + l < |s| && s[5 + l] == sep && DayToken(s, q).Some? then
        Some((m, DayToken(s, q).value.0, q + DayToken(s, q).value.1))
      else MonthDay(s, sep, cands[1..])
  }

  /**
    * `datetime.strptime(s, '%Y' + sep + '%m' + sep + '%d')`: `None` where it
    * raises `ValueError` (no match, unconverted data left over, or no such
    * date).  What it accepts is a real date written with `sep`, the month
    * in one or two digits and the day in any width; `StrptimeWritten` gives
    * the converse.
    */
  function Strptime(s: string, sep: char): (r: Option<Date>)
    ensures r.Some? ==> Valid(r.value) &&
                        exists wm, wd :: wm != SpaceShort && s == Numeric(r.value, sep, sep, wm, wd)
  {
    if |s| < 5 || !AllDigits(s[..4]) || s[4] != sep then None
    else
      match MonthDay(s, sep, MonthCandidates(s, 5))
      case None => None
      case Some((m, d, end)) =>
        var date := Date(Value(s[..4]), m, d);
        if end == |s| && Valid(date) then
          AcceptedIsWritten(s, sep);
          Some(date)
        else None
  }

  // The two normalisers

  /** The date a relative count under `unit` names, as `strftime('%Y-%m-%d')`. */
  function Back(now: Moment, n: nat, unit: string): Result<string, DateError>
    requires ValidMoment(now)
  {
    if unit == HoursAgo then Ago(now, n * MicrosPerHour)
    else if unit == MinutesAgo then Ago(now, n * MicrosPerMinute)
    else Ago(now, n * MicrosPerDay)
  }

  /** The first of `units` that `s` matches, and the date it names. */
  function FirstRelative(s: string, now: Moment, units: seq<string>): Option<Result<string, DateError>>
    requires ValidMoment(now)
  {
    if units == [] then None
    else
      match MatchCount(s, units[0])
      case Some(n) => Some(Back(now, n, units[0]))
      case None => FirstRelative(s, now, units[1..])
  }

  /** `parse_bing_date` tries hours, then minutes, then days. */
  const BingUnits: seq<string> := [HoursAgo, MinutesAgo, DaysAgo]

  /** `parse_news_date` tries days, then hours, then minutes. */
  const NewsUnits: seq<string> := [DaysAgo, HoursAgo, MinutesAgo]

  /** The Bing absolute form `YYYY年M月D日`, or the text itself. */
  function BingAbsolute(s: string): Result<string, DateError>
  {
    match CjkDate(s)
    case Some(d) => if Valid(d) then Ok(Format(d)) else Err(BadDate)
    case None => Ok(s)
  }

  /** The Google News numeric form: `%Y/%m/%d`, failing that `%Y-%m-%d`; or the text itself. */
  function NewsAbsolute(s: string): Result<string, DateError>
  {
    if !NumericPrefix(s) then Ok(s)
    else if Strptime(s, '/').Some? then Ok(Format(Strptime(s, '/').value))
    else if Strptime(s, '-').Some? then Ok(Format(Strptime(s, '-').value))
    else Err(BadDate)
  }

  /** `parse_bing_date(text)` at clock reading `now`. */
  function ParseBingDate(text: string, now: Moment): Result<string, DateError>
    requires ValidMoment(now)
  {
    var s := Strip(text);
    match FirstRelative(s, now, BingUnits)
    case Some(r) => r
    case None => BingAbsolute(s)
  }

  /** `parse_news_date(text)` at clock reading `now`. */
  function ParseNewsDate(text: string, now: Moment): Result<string, DateError>
    requires ValidMoment(now)
  {
    var s := Strip(text);
    match FirstRelative(s, now, NewsUnits)
    case Some(r) => r
    case None => NewsAbsolute(s)
  }

  // ---------------------------------------------------------------------
  // Properties

  /** The text matches one of the three relative patterns. */
  predicate AnyRelative(s: string)
  {
    MatchCount(s, HoursAgo).Some? || MatchCount(s, MinutesAgo).Some? || MatchCount(s, DaysAgo).Some?
  }

  lemma UnitWords()
    ensures Unit(HoursAgo) && Unit(MinutesAgo) && Unit(DaysAgo)
    ensures HoursAgo[0] != MinutesAgo[0] && HoursAgo[0] != DaysAgo[0] && MinutesAgo[0] != DaysAgo[0]
  {
  }

  /** Without a relative match, neither normaliser takes the relative path. */
  lemma NoRelative(s: string, now: Moment)
    requires ValidMoment(now) && !AnyRelative(s)
    ensures FirstRelative(s, now, BingUnits).None? && FirstRelative(s, now, NewsUnits).None?
  {
    FirstRelativeNone(s, now, BingUnits);
    FirstRelativeNone(s, now, NewsUnits);
  }

  /** No unit of the list matches exactly when the search finds none. */
  lemma {:induction false} FirstRelativeNone(s: string, now: Moment, units: seq<string>)
    requires ValidMoment(now)
    ensures FirstRelative(s, now, units).None? <==> forall u :: u in units ==> MatchCount(s, u).None?
  {
    if units != [] {
      FirstRelativeNone(s, now, units[1..]);
      assert forall u :: u in units <==> u == units[0] || u in units[1..];
    }
  }

  /** The search finds the first unit of the list that matches. */
  lemma {:induction false} FirstRelativeAt(s: string, now: Moment, units: seq<string>, k: nat)
    requires ValidMoment(now) && k < |units| && MatchCount(s, units[k]).Some?
    requires forall j :: 0 <= j < k ==> MatchCount(s, units[j]).None?
    ensures FirstRelative(s, now, units) == Some(Back(now, MatchCount(s, units[k]).value, units[k]))
  {
    if k > 0 {
      FirstRelativeAt(s, now, units[1..], k - 1);
    }
  }

  /** With a relative match on `unit`, both normalisers take it, whatever their order. */
  lemma OneRelative(s: string, now: Moment, unit: string, n: nat)
    requires ValidMoment(now) && unit in BingUnits && MatchCount(s, unit) == Some(n)
    ensures FirstRelative(s, now, BingUnits) == Some(Back(now, n, unit))
    ensures FirstRelative(s, now, NewsUnits) == Some(Back(now, n, unit))
  {
    UnitWords();
    UnitsExclusive(s, HoursAgo, MinutesAgo);
    UnitsExclusive(s, HoursAgo, DaysAgo);
    UnitsExclusive(s, MinutesAgo, DaysAgo);
    var b := if unit == HoursAgo then 0 else if unit == MinutesAgo then 1 else 2;
    var g := if unit == DaysAgo then 0 else if unit == HoursAgo then 1 else 2;
    FirstRelativeAt(s, now, BingUnits, b);
    FirstRelativeAt(s, now, NewsUnits, g);
  }

  /**
    * On relative texts the two normalisers agree although they try the
    * units in different orders: no text matches two units.
    */
  lemma RelativeAgree(text: string, now: Moment)
    requires ValidMoment(now) && AnyRelative(Strip(text))
    ensures ParseBingDate(text, now) == ParseNewsDate(text, now)
  {
    var s := Strip(text);
    if MatchCount(s, HoursAgo).Some? {
      OneRelative(s, now, HoursAgo, MatchCount(s, HoursAgo).value);
    } else if MatchCount(s, MinutesAgo).Some? {
      OneRelative(s, now, MinutesAgo, MatchCount(s, MinutesAgo).value);
    } else {
      OneRelative(s, now, DaysAgo, MatchCount(s, DaysAgo).value);
    }
  }

  /** "N 天前" is the date N days before today, or `OverflowError` before year 1. */
  lemma DaysAgoDate(text: string, now: Moment, n: nat)
    requires ValidMoment(now) && MatchCount(Strip(text), DaysAgo) == Some(n)
    ensures n < now.ordinal ==> ParseNewsDate(text, now) == Ok(Format(FromOrdinal(now.ordinal - n)))
    ensures n >= now.ordinal ==> ParseNewsDate(text, now) == Err(Overflow)
  {
    OneRelative(Strip(text), now, DaysAgo, n);
    UnitWords();
    assert ParseNewsDate(text, now) == Ago(now, n * MicrosPerDay);
    AgoDays(now, n);
  }

  /** Going back `n` days from `now` names the day `n` ordinals earlier, or overflows before day 1. */
  lemma AgoDays(now: Moment, n: nat)
    requires ValidMoment(now)
    ensures n < now.ordinal ==> Ago(now, n * MicrosPerDay) == Ok(Format(FromOrdinal(now.ordinal - n)))
    ensures n >= now.ordinal ==> Ago(now, n * MicrosPerDay) == Err(Overflow)
  {
    DaysBefore(now, n);
    if n < now.ordinal {
      var d := DateBefore(now, n * MicrosPerDay).value;
      FromOrdinalOrdinal(d);
    }
  }

  /** "N 小時前" and "N 分鐘前" name today or an earlier day, never a later one. */
  lemma AgoNotLater(text: string, now: Moment, unit: string, n: nat)
    requires ValidMoment(now) && (unit == HoursAgo || unit == MinutesAgo) && MatchCount(Strip(text), unit) == Some(n)
    ensures ParseBingDate(text, now).Ok? ==>
              exists d :: Valid(d) && Ordinal(d) <= now.ordinal && ParseBingDate(text, now) == Ok(Format(d))
  {
    OneRelative(Strip(text), now, unit, n);
    var delta := if unit == HoursAgo then n * MicrosPerHour else n * MicrosPerMinute;
    DateBeforeMonotone(now, 0, delta);
    if DateBefore(now, delta).Some? {
      DaysBefore(now, 0);
      var d := DateBefore(now, delta).value;
      assert ParseBingDate(text, now) == Ok(Format(d));
    }
  }

  /** Text that no pattern recognises comes back stripped and otherwise unchanged. */
  lemma UnrecognisedKept(text: string, now: Moment)
    requires ValidMoment(now) && !AnyRelative(Strip(text))
    ensures CjkDate(Strip(text)).None? ==> ParseBingDate(text, now) == Ok(Strip(text))
    ensures !NumericPrefix(Strip(text)) ==> ParseNewsDate(text, now) == Ok(Strip(text))
  {
    NoRelative(Strip(text), now);
  }

  // ---------------------------------------------------------------------
  // Written dates

  /**
    * How a month or a day is written: in two digits, without its leading
    * zero, or without it behind a space (a form only `%d` reads).  Numbers
    * from 10 on always take two digits.
    */
  datatype Width = Two | Short | SpaceShort

  /** The month or day `n` written in width `w`. */
  function Field(n: int, w: Width): (s: string)
    requires 1 <= n <= 31
    ensures 1 <= |s| <= 2
    ensures w != SpaceShort ==> AllDigits(s)
  {
    if w == Two || n >= 10 then Padded(n, 2)
    else if w.Short? then [DigitChar(n)]
    else assert w.SpaceShort?; [' ', DigitChar(n)]
  }

  /** A year, month and day the patterns can write: four-digit year, month 1..12, day 1..31 (not necessarily a real date). */
  predicate Writable(d: Date)
  {
    0 <= d.year <= MaxYear && 1 <= d.month <= 12 && 1 <= d.day <= 31
  }

  /** The separators of the numeric form. */
  predicate Sep(c: char)
  {
    c == '/' || c == '-'
  }

  /** `YYYY<sep1>M<sep2>D`, the month and the day in the given widths. */
  function Numeric(d: Date, sep1: char, sep2: char, wm: Width, wd: Width): string
    requires Writable(d)
  {
    Padded(d.year, 4) + [sep1] + Field(d.month, wm) + [sep2] + Field(d.day, wd)
  }

  /** `YYYY年M月D日`, the month and the day in the given widths. */
  function Cjk(d: Date, wm: Width, wd: Width): string
    requires Writable(d)
  {
    Padded(d.year, 4) + "年" + Field(d.month, wm) + "月" + Field(d.day, wd) + "日"
  }

  lemma NumericIsFormat(d: Date)
    requires Valid(d)
    ensures Numeric(d, '-', '-', Two, Two) == Format(d)
  {
  }

  /** Two padded digits, and their value. */
  lemma PaddedTwo(n: int)
    requires 0 <= n < 100
    ensures Padded(n, 2) == [DigitChar(n / 10), DigitChar(n % 10)]
    ensures Value(Padded(n, 2)) == n
  {
    PaddedTwoDigits(n);
    assert Pow10(2) == 100;
    ValuePadded(n, 2);
  }

  lemma PaddedTwoDigits(n: int)
    requires 0 <= n < 100
    ensures Padded(n, 2) == [DigitChar(n / 10), DigitChar(n % 10)]
  {
    var t := n / 10;
    assert 0 <= t < 10;
    assert t % 10 == t;
    assert Padded(t, 1) == [DigitChar(t)] by {
      assert Padded(t, 1) == Padded(t / 10, 0) + [DigitChar(t % 10)];
    }
  }

  /** A month or day written in digits reads back as its number. */
  lemma FieldValue(n: int, w: Width)
    requires 1 <= n <= 31 && w != SpaceShort
    ensures Value(Field(n, w)) == n
  {
    if w == Two || n >= 10 {
      PaddedTwo(n);
    } else {
      assert Field(n, w)[..0] == [];
    }
  }

  /** A four-digit year reads back as its number. */
  lemma YearValue(y: int)
    requires 0 <= y <= MaxYear
    ensures Value(Padded(y, 4)) == y
  {
    assert Pow10(4) == 10000;
    ValuePadded(y, 4);
  }

  /** A string of digits is the zero-padded rendering of its value. */
  lemma {:induction false} PaddedValue(ds: string)
    requires AllDigits(ds)
    ensures Value(ds) < Pow10(|ds|) && Padded(Value(ds), |ds|) == ds
  {
    if ds != [] {
      var n := |ds| - 1;
      var a, b := Value(ds[..n]), DigitValue(ds[n]);
      PaddedValue(ds[..n]);
      assert Value(ds) == a * 10 + b && 0 <= b <= 9;
      assert (a * 10 + b) / 10 == a && (a * 10 + b) % 10 == b;
      assert DigitChar(b) == ds[n];
      assert ds == ds[..n] + [ds[n]];
    }
  }

  // The accepted strings are written dates

  /** The string from `a` on is the piece before `b`, the character at `b`, and the rest. */
  lemma SplitAround(s: string, a: nat, b: nat)
    requires a <= b < |s|
    ensures s[a..] == s[a..b] + [s[b]] + s[b + 1..]
  {
  }

  /** The month alternative `c` read at position 5 is a month written in two digits or in one. */
  predicate MonthField(s: string, c: (int, nat))
  {
    1 <= c.0 <= 12 && (c.1 == 1 || c.1 == 2) && 5 + c.1 <= |s| &&
    s[5..5 + c.1] == Field(c.0, if c.1 == 2 then Two else Short)
  }

  lemma MonthCandidatesField(s: string)
    ensures forall k :: 0 <= k < |MonthCandidates(s, 5)| ==> MonthField(s, MonthCandidates(s, 5)[k])
  {
    var cands := MonthCandidates(s, 5);
    forall k | 0 <= k < |cands| ensures MonthField(s, cands[k]) {
      var (m, l) := cands[k];
      if l == 2 {
        PaddedTwoDigits(m);
        assert s[5..5 + l] == [s[5], s[6]];
      } else {
        assert s[5..5 + l] == [s[5]];
      }
    }
  }

  /** The width of the day that `%d` reads at `q`. */
  function DayWidth(s: string, q: nat): Width
    requires DayToken(s, q).Some?
  {
    if DayToken(s, q).value.1 == 1 then Short else if s[q] == ' ' then SpaceShort else Two
  }

  /** The alternative of `%d` that matches reads a day written in one of the three widths. */
  lemma DayTokenField(s: string, q: nat)
    requires DayToken(s, q).Some?
    ensures var (d, l) := DayToken(s, q).value;
            1 <= d <= 31 && q + l <= |s| && s[q..q + l] == Field(d, DayWidth(s, q))
  {
    var (d, l) := DayToken(s, q).value;
    if l == 1 {
      assert s[q..q + l] == [s[q]];
    } else if s[q] == ' ' {
      assert s[q..q + l] == [s[q], s[q + 1]];
    } else {
      PaddedTwoDigits(d);
      assert s[q..q + l] == [s[q], s[q + 1]];
    }
  }

  /** One month alternative followed by the separator and a day that ends the string: the rest is written month, separator, day. */
  lemma MonthDayFirstSound(s: string, sep: char, m: int, l: nat, d: int)
    requires MonthField(s, (m, l)) && 5 + l < |s| && s[5 + l] == sep
    requires 6 + l <= |s| && DayToken(s, 6 + l) == Some((d, |s| - (6 + l)))
    ensures 1 <= d <= 31 && exists wm, wd :: wm != SpaceShort && s[5..] == Field(m, wm) + [sep] + Field(d, wd)
  {
    DayTokenField(s, 6 + l);
    SplitAround(s, 5, 5 + l);
    var wm := if l == 2 then Two else Short;
    var wd := DayWidth(s, 6 + l);
    assert s[5..] == Field(m, wm) + [sep] + Field(d, wd);
  }

  /** The alternatives after the first are still month fields. */
  lemma MonthFieldsTail(s: string, cands: seq<(int, nat)>)
    requires |cands| > 0 && forall k :: 0 <= k < |cands| ==> MonthField(s, cands[k])
    ensures forall k :: 0 <= k < |cands[1..]| ==> MonthField(s, cands[1..][k])
  {
    assert forall k :: 0 <= k < |cands[1..]| ==> cands[1..][k] == cands[k + 1];
  }

  /** The month and day `MonthDay` reads, when they end the string, are what is written after the year. */
  lemma {:induction false} MonthDaySound(s: string, sep: char, cands: seq<(int, nat)>, m: int, d: int)
    requires forall k :: 0 <= k < |cands| ==> MonthField(s, cands[k])
    requires MonthDay(s, sep, cands) == Some((m, d, |s|))
    ensures 1 <= m <= 12 && 1 <= d <= 31 && 5 <= |s|
    ensures exists wm, wd :: wm != SpaceShort && s[5..] == Field(m, wm) + [sep] + Field(d, wd)
  {
    var (m0, l) := cands[0];
    if 5 + l < |s| && s[5 + l] == sep && DayToken(s, 6 + l).Some? {
      assert MonthField(s, cands[0]);
      MonthDayFirstSound(s, sep, m, l, d);
    } else {
      MonthFieldsTail(s, cands);
      MonthDaySound(s, sep, cands[1..], m, d);
    }
  }

  /** The written date is the year, the first separator and the rest. */
  lemma NumericParts(d: Date, sep1: char, sep2: char, wm: Width, wd: Width)
    requires Writable(d)
    ensures Numeric(d, sep1, sep2, wm, wd) ==
              Padded(d.year, 4) + [sep1] + (Field(d.month, wm) + [sep2] + Field(d.day, wd))
  {
  }

  /** What `strptime` accepts is a date written with its separator. */
  lemma AcceptedIsWritten(s: string, sep: char)
    requires |s| >= 5 && AllDigits(s[..4]) && s[4] == sep
    requires MonthDay(s, sep, MonthCandidates(s, 5)).Some?
    requires MonthDay(s, sep, MonthCandidates(s, 5)).value.2 == |s|
    ensures var (m, d, _) := MonthDay(s, sep, MonthCandidates(s, 5)).value;
            var date := Date(Value(s[..4]), m, d);
            Writable(date) && exists wm, wd :: wm != SpaceShort && s == Numeric(date, sep, sep, wm, wd)
  {
    MonthCandidatesField(s);
    var (m, d, _) := MonthDay(s, sep, MonthCandidates(s, 5)).value;
    MonthDaySound(s, sep, MonthCandidates(s, 5), m, d);
    PaddedValue(s[..4]);
    assert Pow10(4) == 10000;
    var date := Date(Value(s[..4]), m, d);
    var wm, wd :| wm != SpaceShort && s[5..] == Field(m, wm) + [sep] + Field(d, wd);
    SplitAround(s, 0, 4);
    NumericParts(date, sep, sep, wm, wd);
  }

  // Written dates are read back

  /** `x` begins with the date `d` written as `YYYY<sep1>M<sep2>D`. */
  predicate NumericAt(x: string, d: Date, sep1: char, sep2: char, wm: Width, wd: Width)
    requires Writable(d)
  {
    var lm, ld := |Field(d.month, wm)|, |Field(d.day, wd)|;
    6 + lm + ld <= |x| && x[..4] == Padded(d.year, 4) && x[4] == sep1 &&
    x[5..5 + lm] == Field(d.month, wm) && x[5 + lm] == sep2 && x[6 + lm..6 + lm + ld] == Field(d.day, wd)
  }

  /** The written date followed by `rest` begins with the date, and `rest` follows it. */
  lemma NumericIsAt(d: Date, sep1: char, sep2: char, wm: Width, wd: Width, rest: string)
    requires Writable(d)
    ensures var x := Numeric(d, sep1, sep2, wm, wd) + rest;
            var n := 6 + |Field(d.month, wm)| + |Field(d.day, wd)|;
            NumericAt(x, d, sep1, sep2, wm, wd) && |x| == n + |rest| && x[n..] == rest
  {
    LaidOut(Padded(d.year, 4), sep1, Field(d.month, wm), sep2, Field(d.day, wd), rest);
  }

  /** Where each piece of `y + [c1] + f + [c2] + g + rest` sits, for a four-character `y`. */
  lemma LaidOut(y: string, c1: char, f: string, c2: char, g: string, rest: string)
    requires |y| == 4
    ensures var x := y + [c1] + f + [c2] + g + rest;
            var n := 6 + |f| + |g|;
            |x| == n + |rest| && x[..4] == y && x[4] == c1 && x[5..5 + |f|] == f &&
            x[5 + |f|] == c2 && x[6 + |f|..n] == g && x[n..] == rest
  {
    var x := y + [c1] + f + [c2] + g + rest;
    var n := 6 + |f| + |g|;
    assert x == y + ([c1] + (f + ([c2] + (g + rest))));
    assert x[..4] == y;
    assert x[5..] == f + ([c2] + (g + rest));
    assert x[5..][..|f|] == f;
    assert x[5 + |f|..] == [c2] + (g + rest);
    assert x[6 + |f|..] == g + rest;
    assert x[6 + |f|..][..|g|] == g;
  }

  /** Where a month is written in digits at 5, the first alternative reads it; a later one reads a single digit where two were written. */
  lemma MonthFieldFirst(s: string, m: int, wm: Width)
    requires 1 <= m <= 12 && wm != SpaceShort
    requires 5 + |Field(m, wm)| < |s| && s[5..5 + |Field(m, wm)|] == Field(m, wm) && !IsDigit(s[5 + |Field(m, wm)|])
    ensures var cands := MonthCandidates(s, 5);
            |cands| >= 1 && cands[0] == (m, |Field(m, wm)|) &&
            forall k :: 1 <= k < |cands| ==> cands[k].1 == 1 && IsDigit(s[6])
  {
    var l := |Field(m, wm)|;
    assert s[5] == Field(m, wm)[0];
    if l == 2 {
      PaddedTwoDigits(m);
      assert s[6] == Field(m, wm)[1];
    }
  }

  /** A day written at `q` and not followed by a digit is read as that day. */
  lemma DayField(s: string, q: nat, d: int, w: Width)
    requires 1 <= d <= 31
    requires q + |Field(d, w)| <= |s| && s[q..q + |Field(d, w)|] == Field(d, w)
    requires q + |Field(d, w)| == |s| || !IsDigit(s[q + |Field(d, w)|])
    ensures DayToken(s, q) == Some((d, |Field(d, w)|))
  {
    var l := |Field(d, w)|;
    assert s[q] == Field(d, w)[0];
    if l == 2 {
      assert s[q + 1] == Field(d, w)[1];
      if w == Two || d >= 10 {
        PaddedTwoDigits(d);
      }
    }
  }

  /** No month alternative is followed by the separator: no match. */
  lemma {:induction false} MonthDayNone(s: string, sep: char, cands: seq<(int, nat)>)
    requires forall k :: 0 <= k < |cands| && 5 + cands[k].1 < |s| ==> s[5 + cands[k].1] != sep
    ensures MonthDay(s, sep, cands).None?
  {
    if cands != [] {
      assert forall k :: 0 <= k < |cands[1..]| ==> cands[1..][k] == cands[k + 1];
      MonthDayNone(s, sep, cands[1..]);
    }
  }

  /** `strptime` once the year digits, the first month alternative and the day after it are known. */
  lemma StrptimeOf(x: string, sep: char, m: int, lm: nat, d: int, ld: nat)
    requires |x| >= 5 && AllDigits(x[..4]) && x[4] == sep
    requires |MonthCandidates(x, 5)| >= 1 && MonthCandidates(x, 5)[0] == (m, lm)
    requires 5 + lm < |x| && x[5 + lm] == sep && DayToken(x, 6 + lm) == Some((d, ld))
    ensures var date := Date(Value(x[..4]), m, d);
            Strptime(x, sep) == if 6 + lm + ld == |x| && Valid(date) then Some(date) else None
  {
  }

  /**
    * `strptime` on a string that begins with a written date and goes on
    * with no digit: the date exactly when nothing follows, both separators
    * are the format's and the date is real.
    */
  lemma StrptimeAt(x: string, d: Date, sep1: char, sep2: char, wm: Width, wd: Width, sep: char)
    requires Writable(d) && Sep(sep1) && Sep(sep2) && Sep(sep) && wm != SpaceShort
    requires NumericAt(x, d, sep1, sep2, wm, wd)
    requires var n := 6 + |Field(d.month, wm)| + |Field(d.day, wd)|; n == |x| || !IsDigit(x[n])
    ensures var n := 6 + |Field(d.month, wm)| + |Field(d.day, wd)|;
            Strptime(x, sep) == if n == |x| && sep1 == sep && sep2 == sep && Valid(d) then Some(d) else None
  {
    var lm, ld := |Field(d.month, wm)|, |Field(d.day, wd)|;
    YearValue(d.year);
    MonthFieldFirst(x, d.month, wm);
    if sep1 == sep {
      if sep2 == sep {
        DayField(x, 6 + lm, d.day, wd);
        StrptimeOf(x, sep, d.month, lm, d.day, ld);
      } else {
        MonthDayNone(x, sep, MonthCandidates(x, 5));
      }
    }
  }

  /**
    * `strptime` on a written date followed by `rest` (which does not begin
    * with a digit) returns the date exactly when nothing follows, both
    * separators are the format's and the date is real.
    */
  lemma StrptimeWritten(d: Date, sep1: char, sep2: char, wm: Width, wd: Width, rest: string, sep: char)
    requires Writable(d) && Sep(sep1) && Sep(sep2) && Sep(sep) && wm != SpaceShort
    requires rest == [] || !IsDigit(rest[0])
    ensures Strptime(Numeric(d, sep1, sep2, wm, wd) + rest, sep) ==
              if rest == [] && sep1 == sep && sep2 == sep && Valid(d) then Some(d) else None
  {
    NumericIsAt(d, sep1, sep2, wm, wd, rest);
    StrptimeAt(Numeric(d, sep1, sep2, wm, wd) + rest, d, sep1, sep2, wm, wd, sep);
  }

  /** A string whose first four characters are digits followed by neither white space nor a unit's first character matches no relative pattern. */
  lemma NotRelativeAfterYear(x: string)
    requires |x| > 4 && DigitRun(x) == 4 && !IsSpace(x[4])
    requires x[4] != HoursAgo[0] && x[4] != MinutesAgo[0] && x[4] != DaysAgo[0]
    ensures !AnyRelative(x)
  {
    SpaceRunExact(x[4..], 0);
    assert x[4..][0] == x[4];
  }

  /** The digit runs of a written numeric date that goes on with no digit. */
  lemma NumericRuns(x: string, d: Date, sep1: char, sep2: char, wm: Width, wd: Width)
    requires Writable(d) && Sep(sep1) && Sep(sep2) && wm != SpaceShort && wd != SpaceShort
    requires NumericAt(x, d, sep1, sep2, wm, wd)
    requires var n := 6 + |Field(d.month, wm)| + |Field(d.day, wd)|; n == |x| || !IsDigit(x[n])
    ensures var lm := |Field(d.month, wm)|;
            DigitRun(x) == 4 && DigitRun(x[5..]) == lm && DigitRun(x[6 + lm..]) == |Field(d.day, wd)|
  {
    var lm, ld := |Field(d.month, wm)|, |Field(d.day, wd)|;
    DigitRunExact(x, 4);
    RunAt(x, 5, lm);
    RunAt(x, 6 + lm, ld);
  }

  /** An all-digit slice `x[p..p + k]` not followed by a digit is the digit run from `p`. */
  lemma RunAt(x: string, p: nat, k: nat)
    requires p + k <= |x| && AllDigits(x[p..p + k]) && (p + k == |x| || !IsDigit(x[p + k]))
    ensures DigitRun(x[p..]) == k
  {
    assert x[p..][..k] == x[p..p + k];
    DigitRunExact(x[p..], k);
  }

  /** A string that begins with a written numeric date and goes on with no digit matches only the numeric prefix. */
  lemma NumericAtShape(x: string, d: Date, sep1: char, sep2: char, wm: Width, wd: Width)
    requires Writable(d) && Sep(sep1) && Sep(sep2) && wm != SpaceShort && wd != SpaceShort
    requires NumericAt(x, d, sep1, sep2, wm, wd)
    requires var n := 6 + |Field(d.month, wm)| + |Field(d.day, wd)|; n == |x| || !IsDigit(x[n])
    ensures !AnyRelative(x) && CjkDate(x).None? && NumericPrefix(x)
  {
    NumericRuns(x, d, sep1, sep2, wm, wd);
    NotRelativeAfterYear(x);
  }

  /**
    * A written numeric date, followed by text that neither begins with a
    * digit nor ends in white space, is already stripped, matches no relative
    * pattern and no `年月日` pattern, and matches the numeric prefix.
    */
  lemma NumericShape(d: Date, sep1: char, sep2: char, wm: Width, wd: Width, rest: string)
    requires Writable(d) && Sep(sep1) && Sep(sep2) && wm != SpaceShort && wd != SpaceShort
    requires rest == [] || (!IsDigit(rest[0]) && !IsSpace(rest[|rest| - 1]))
    ensures var x := Numeric(d, sep1, sep2, wm, wd) + rest;
            Trimmed(x) && !AnyRelative(x) && CjkDate(x).None? && NumericPrefix(x)
  {
    var x := Numeric(d, sep1, sep2, wm, wd) + rest;
    NumericIsAt(d, sep1, sep2, wm, wd, rest);
    NumericAtShape(x, d, sep1, sep2, wm, wd);
    NumericAtTrimmed(x, d, sep1, sep2, wm, wd, rest);
  }

  /** A written numeric date followed by text that does not end in white space is already stripped. */
  lemma NumericAtTrimmed(x: string, d: Date, sep1: char, sep2: char, wm: Width, wd: Width, rest: string)
    requires Writable(d) && wd != SpaceShort && NumericAt(x, d, sep1, sep2, wm, wd)
    requires var n := 6 + |Field(d.month, wm)| + |Field(d.day, wd)|; |x| == n + |rest| && x[n..] == rest
    requires rest == [] || !IsSpace(rest[|rest| - 1])
    ensures Trimmed(x)
  {
    var lm, ld := |Field(d.month, wm)|, |Field(d.day, wd)|;
    var n := 6 + lm + ld;
    assert x[..4][0] == x[0];
    assert IsDigit(x[0]) && !IsSpace(x[0]);
    if rest == [] {
      assert x[6 + lm..n][ld - 1] == x[|x| - 1];
      assert IsDigit(x[|x| - 1]);
    } else {
      assert x[n..][|rest| - 1] == x[|x| - 1];
    }
  }

  /**
    * `parse_news_date` on a written numeric date followed by `rest`: the
    * date as `YYYY-MM-DD` exactly when nothing follows, the separators agree
    * and the date is real; otherwise both `strptime` formats raise
    * `ValueError` (trailing text, mixed separators, no such day).
    */
  lemma NewsNumeric(d: Date, sep1: char, sep2: char, wm: Width, wd: Width, rest: string, now: Moment)
    requires ValidMoment(now) && Writable(d) && Sep(sep1) && Sep(sep2) && wm != SpaceShort && wd != SpaceShort
    requires rest == [] || (!IsDigit(rest[0]) && !IsSpace(rest[|rest| - 1]))
    ensures ParseNewsDate(Numeric(d, sep1, sep2, wm, wd) + rest, now) ==
              if rest == [] && sep1 == sep2 && Valid(d) then Ok(Format(d)) else Err(BadDate)
  {
    var x := Numeric(d, sep1, sep2, wm, wd) + rest;
    NumericShape(d, sep1, sep2, wm, wd, rest);
    StripTrimmed(x);
    NoRelative(x, now);
    StrptimeWritten(d, sep1, sep2, wm, wd, rest, '/');
    StrptimeWritten(d, sep1, sep2, wm, wd, rest, '-');
  }

  /** A Google News numeric date, with either separator and with or without leading zeros, becomes `YYYY-MM-DD`. */
  lemma NewsNumericDate(d: Date, sep: char, wm: Width, wd: Width, now: Moment)
    requires Valid(d) && Sep(sep) && wm != SpaceShort && wd != SpaceShort && ValidMoment(now)
    ensures ParseNewsDate(Numeric(d, sep, sep, wm, wd), now) == Ok(Format(d))
  {
    NewsNumeric(d, sep, sep, wm, wd, [], now);
    assert Numeric(d, sep, sep, wm, wd) + [] == Numeric(d, sep, sep, wm, wd);
  }

  /** Text after a numeric date makes `strptime` raise with both formats: `ValueError`. */
  lemma NewsTrailingRaises(d: Date, sep: char, wm: Width, wd: Width, rest: string, now: Moment)
    requires Writable(d) && Sep(sep) && wm != SpaceShort && wd != SpaceShort && ValidMoment(now)
    requires rest != [] && !IsDigit(rest[0]) && !IsSpace(rest[|rest| - 1])
    ensures ParseNewsDate(Numeric(d, sep, sep, wm, wd) + rest, now) == Err(BadDate)
  {
    NewsNumeric(d, sep, sep, wm, wd, rest, now);
  }

  /** A numeric date whose two separators differ makes both formats raise `ValueError`. */
  lemma NewsMixedRaises(d: Date, wm: Width, wd: Width, now: Moment)
    requires Writable(d) && wm != SpaceShort && wd != SpaceShort && ValidMoment(now)
    ensures ParseNewsDate(Numeric(d, '/', '-', wm, wd), now) == Err(BadDate)
    ensures ParseNewsDate(Numeric(d, '-', '/', wm, wd), now) == Err(BadDate)
  {
    NewsNumeric(d, '/', '-', wm, wd, [], now);
    NewsNumeric(d, '-', '/', wm, wd, [], now);
    assert Numeric(d, '/', '-', wm, wd) + [] == Numeric(d, '/', '-', wm, wd);
    assert Numeric(d, '-', '/', wm, wd) + [] == Numeric(d, '-', '/', wm, wd);
  }

  lemma ExampleNewsYear()
    ensures Padded(2024, 4) == "2024"
  {
    assert Padded(2024 / 10, 3) == "202";
  }

  /** `2024/5/3`, without leading zeros, becomes `2024-05-03`. */
  lemma NewsShortExample(now: Moment)
    requires ValidMoment(now)
    ensures ParseNewsDate("2024/5/3", now) == Ok("2024-05-03")
  {
    var d := Date(2024, 5, 3);
    NewsShortWritten();
    NewsNumericDate(d, '/', Short, Short, now);
    NewsShortFormat();
  }

  lemma NewsShortWritten()
    ensures Numeric(Date(2024, 5, 3), '/', '/', Short, Short) == "2024/5/3"
  {
    ExampleNewsYear();
    assert Field(5, Short) == "5" && Field(3, Short) == "3";
  }

  lemma NewsShortFormat()
    ensures Format(Date(2024, 5, 3)) == "2024-05-03"
  {
    ExampleNewsYear();
    assert Padded(5, 2) == "05" && Padded(3, 2) == "03";
  }

  /** `2024/02/30` names no day: `ValueError`. */
  lemma NewsInvalidExample(now: Moment)
    requires ValidMoment(now)
    ensures ParseNewsDate("2024/02/30", now) == Err(BadDate)
  {
    var d := Date(2024, 2, 30);
    NewsInvalidWritten();
    assert !Valid(d);
    NewsNumeric(d, '/', '/', Two, Two, [], now);
  }

  lemma NewsInvalidWritten()
    ensures Numeric(Date(2024, 2, 30), '/', '/', Two, Two) + [] == "2024/02/30"
  {
    ExampleNewsYear();
    assert Padded(2, 2) == "02" && Padded(30, 2) == "30";
  }

  /** `2024/05-03` mixes the separators: `ValueError`. */
  lemma NewsMixedExample(now: Moment)
    requires ValidMoment(now)
    ensures ParseNewsDate("2024/05-03", now) == Err(BadDate)
  {
    NewsMixedWritten();
    NewsMixedRaises(Date(2024, 5, 3), Two, Two, now);
  }

  lemma NewsMixedWritten()
    ensures Numeric(Date(2024, 5, 3), '/', '-', Two, Two) == "2024/05-03"
  {
    ExampleNewsYear();
    assert Padded(5, 2) == "05" && Padded(3, 2) == "03";
  }

  /** `x` begins with the date `d` written as `YYYY年M月D日`. */
  predicate CjkAt(x: string, d: Date, wm: Width, wd: Width)
    requires Writable(d)
  {
    var lm, ld := |Field(d.month, wm)|, |Field(d.day, wd)|;
    7 + lm + ld <= |x| && x[..4] == Padded(d.year, 4) && x[4] == '年' &&
    x[5..5 + lm] == Field(d.month, wm) && x[5 + lm] == '月' &&
    x[6 + lm..6 + lm + ld] == Field(d.day, wd) && x[6 + lm + ld] == '日'
  }

  lemma CjkIsAt(d: Date, wm: Width, wd: Width, rest: string)
    requires Writable(d)
    ensures var x := Cjk(d, wm, wd) + rest;
            CjkAt(x, d, wm, wd) && |x| == 7 + |Field(d.month, wm)| + |Field(d.day, wd)| + |rest|
  {
    var y, f, g := Padded(d.year, 4), Field(d.month, wm), Field(d.day, wd);
    assert Cjk(d, wm, wd) + rest == y + ['年'] + f + ['月'] + g + ("日" + rest);
    LaidOut(y, '年', f, '月', g, "日" + rest);
  }

  /** The `年月日` pattern reads a string that begins with a written `YYYY年M月D日`, and no relative pattern matches it. */
  lemma CjkRead(x: string, d: Date, wm: Width, wd: Width)
    requires Writable(d) && wm != SpaceShort && wd != SpaceShort
    requires CjkAt(x, d, wm, wd)
    ensures CjkDate(x) == Some(d)
    ensures !AnyRelative(x)
  {
    var lm, ld := |Field(d.month, wm)|, |Field(d.day, wd)|;
    YearValue(d.year);
    FieldValue(d.month, wm);
    FieldValue(d.day, wd);
    DigitRunExact(x, 4);
    var y := x[5..];
    assert y[..lm] == x[5..5 + lm];
    DigitRunExact(y, lm);
    var z := x[5 + (lm + 1)..];
    assert z[..ld] == x[6 + lm..6 + lm + ld];
    DigitRunExact(z, ld);
    NotRelativeAfterYear(x);
  }

  /**
    * A Bing `YYYY年M月D日` date, with or without leading zeros and whatever
    * follows it, becomes `YYYY-MM-DD`, or raises `ValueError` when there is
    * no such day.
    */
  lemma BingCjkDate(d: Date, wm: Width, wd: Width, rest: string, now: Moment)
    requires Writable(d) && wm != SpaceShort && wd != SpaceShort && ValidMoment(now)
    requires rest == [] || !IsSpace(rest[|rest| - 1])
    ensures ParseBingDate(Cjk(d, wm, wd) + rest, now) == if Valid(d) then Ok(Format(d)) else Err(BadDate)
  {
    var x := Cjk(d, wm, wd) + rest;
    CjkIsAt(d, wm, wd, rest);
    CjkRead(x, d, wm, wd);
    assert x[0] == Padded(d.year, 4)[0];
    assert rest == [] ==> x[|x| - 1] == '日';
    StripTrimmed(x);
    NoRelative(x, now);
  }

  lemma ExampleYear()
    ensures Padded(2025, 4) == "2025"
  {
    assert Padded(2025 / 10, 3) == "202";
  }

  lemma BingExampleWritten()
    ensures Cjk(Date(2025, 5, 21), Short, Two) + [] == "2025年5月21日"
  {
    ExampleYear();
    assert Field(5, Short) == "5";
    assert Field(21, Two) == "21";
  }

  lemma BingExampleFormat()
    ensures Format(Date(2025, 5, 21)) == "2025-05-21"
  {
    ExampleYear();
    assert Padded(5, 2) == "05";
    assert Padded(21, 2) == "21";
  }

  /** The form in the Bing scraper's own comment, `2025年5月21日`. */
  lemma BingExample(now: Moment)
    requires ValidMoment(now)
    ensures ParseBingDate("2025年5月21日", now) == Ok("2025-05-21")
  {
    var d := Date(2025, 5, 21);
    BingExampleWritten();
    BingCjkDate(d, Short, Two, [], now);
    BingExampleFormat();
  }

  /** A Bing absolute date naming no real day raises `ValueError`. */
  lemma BingCjkInvalid(text: string, now: Moment)
    requires ValidMoment(now) && !AnyRelative(Strip(text))
    requires CjkDate(Strip(text)).Some? && !Valid(CjkDate(Strip(text)).value)
    ensures ParseBingDate(text, now) == Err(BadDate)
  {
    NoRelative(Strip(text), now);
  }

  /** What a normaliser returns is a formatted date or the stripped text. */
  lemma {:induction false} FirstRelativeFormat(s: string, now: Moment, units: seq<string>)
    requires ValidMoment(now) && FirstRelative(s, now, units).Some? && FirstRelative(s, now, units).value.Ok?
    ensures exists d :: Valid(d) && FirstRelative(s, now, units).value.value == Format(d)
  {
    if MatchCount(s, units[0]).None? {
      FirstRelativeFormat(s, now, units[1..]);
    } else {
      var n := MatchCount(s, units[0]).value;
      var delta := if units[0] == HoursAgo then n * MicrosPerHour
                   else if units[0] == MinutesAgo then n * MicrosPerMinute else n * MicrosPerDay;
      assert DateBefore(now, delta).Some?;
      var d := DateBefore(now, delta).value;
      assert FirstRelative(s, now, units).value.value == Format(d);
    }
  }

  /** Normalising the output of `parse_news_date` again changes nothing. */
  lemma NewsDateIdempotent(text: string, now: Moment)
    requires ValidMoment(now) && ParseNewsDate(text, now).Ok?
    ensures ParseNewsDate(ParseNewsDate(text, now).value, now) == ParseNewsDate(text, now)
  {
    var s := Strip(text);
    var r := ParseNewsDate(text, now).value;
    if FirstRelative(s, now, NewsUnits).Some? {
      FirstRelativeFormat(s, now, NewsUnits);
      var d :| Valid(d) && r == Format(d);
      NumericIsFormat(d);
      NewsNumericDate(d, '-', Two, Two, now);
    } else if NumericPrefix(s) {
      var d := if Strptime(s, '/').Some? then Strptime(s, '/').value else Strptime(s, '-').value;
      assert r == Format(d);
      NumericIsFormat(d);
      NewsNumericDate(d, '-', Two, Two, now);
    } else {
      StripIdempotent(text);
    }
  }

  /** Normalising the output of `parse_bing_date` again changes nothing. */
  lemma BingDateIdempotent(text: string, now: Moment)
    requires ValidMoment(now) && ParseBingDate(text, now).Ok?
    ensures ParseBingDate(ParseBingDate(text, now).value, now) == ParseBingDate(text, now)
  {
    var s := Strip(text);
    var r := ParseBingDate(text, now).value;
    if FirstRelative(s, now, BingUnits).Some? || CjkDate(s).Some? {
      var d: Date;
      if FirstRelative(s, now, BingUnits).Some? {
        FirstRelativeFormat(s, now, BingUnits);
        d :| Valid(d) && r == Format(d);
      } else {
        d := CjkDate(s).value;
      }
      NumericIsFormat(d);
      assert r == Numeric(d, '-', '-', Two, Two) + [];
      NumericShape(d, '-', '-', Two, Two, []);
      StripTrimmed(r);
      NoRelative(r, now);
    } else {
      StripIdempotent(text);
    }
  }
}
