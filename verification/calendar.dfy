/**
  * The proleptic Gregorian calendar of Python's `datetime` module: dates of
  * the years 1 to 9999, day ordinals (day 1 is 0001-01-01), a moment of the
  * clock, subtracting a `timedelta` from it, and `strftime('%Y-%m-%d')`.
  */
module Calendar {
  import opened Results

  datatype Date = Date(year: int, month: int, day: int)

  const MaxYear := 9999
  const MicrosPerDay := 86_400_000_000
  const MicrosPerHour := 3_600_000_000
  const MicrosPerMinute := 60_000_000

  predicate IsLeap(y: int)
  {
    y % 4 == 0 && (y % 100 != 0 || y % 400 == 0)
  }

  function DaysInYear(y: int): int
  {
    if IsLeap(y) then 366 else 365
  }

  function DaysInMonth(y: int, m: int): int
    requires 1 <= m <= 12
  {
    if m == 2 then (if IsLeap(y) then 29 else 28)
    else if m == 4 || m == 6 || m == 9 || m == 11 then 30
    else 31
  }

  /** What `date(year, month, day)` accepts without raising `ValueError`. */
  predicate Valid(d: Date)
  {
    1 <= d.year <= MaxYear && 1 <= d.month <= 12 && 1 <= d.day <= DaysInMonth(d.year, d.month)
  }

  /** The number of days in the years before year `y`. */
  function DaysBeforeYear(y: int): int
    requires y >= 1
  {
    var p := y - 1;
    p * 365 + p / 4 - p / 100 + p / 400
  }

  /** The number of days in the months of year `y` before month `m`. */
  function DaysBeforeMonth(y: int, m: int): int
    requires 1 <= m <= 13
  {
    if m == 1 then 0 else DaysBeforeMonth(y, m - 1) + DaysInMonth(y, m - 1)
  }

  /** The ordinal of the last day of year 9999, `date.max.toordinal()`. */
  function MaxOrdinal(): int
  {
    DaysBeforeYear(MaxYear + 1)
  }

  /** `d.toordinal()`. */
  function Ordinal(d: Date): int
    requires Valid(d)
  {
    DaysBeforeYear(d.year) + DaysBeforeMonth(d.year, d.month) + d.day
  }

  lemma DaysBeforeNextYear(y: int)
    requires y >= 1
    ensures DaysBeforeYear(y + 1) == DaysBeforeYear(y) + DaysInYear(y)
  {
    var p := y - 1;
    assert (p + 1) / 4 == p / 4 + (if y % 4 == 0 then 1 else 0);
    assert (p + 1) / 100 == p / 100 + (if y % 100 == 0 then 1 else 0);
    assert (p + 1) / 400 == p / 400 + (if y % 400 == 0 then 1 else 0);
  }

  lemma {:induction false} DaysBeforeYearMonotone(a: int, b: int)
    requires 1 <= a <= b
    ensures DaysBeforeYear(a) + 365 * (b - a) <= DaysBeforeYear(b)
    decreases b - a
  {
    if a < b {
      DaysBeforeYearMonotone(a, b - 1);
      DaysBeforeNextYear(b - 1);
    }
  }

  lemma {:induction false} DaysBeforeMonthMonotone(y: int, a: int, b: int)
    requires 1 <= a <= b <= 13
    ensures DaysBeforeMonth(y, a) + 28 * (b - a) <= DaysBeforeMonth(y, b)
    decreases b - a
  {
    if a < b {
      DaysBeforeMonthMonotone(y, a, b - 1);
    }
  }

  /** The twelve months fill the year. */
  lemma MonthsFillYear(y: int)
    ensures DaysBeforeMonth(y, 13) == DaysInYear(y)
  {
    var feb := if IsLeap(y) then 1 else 0;
    assert DaysBeforeMonth(y, 2) == 31;
    assert DaysBeforeMonth(y, 3) == 59 + feb;
    assert DaysBeforeMonth(y, 4) == 90 + feb;
    assert DaysBeforeMonth(y, 5) == 120 + feb;
    assert DaysBeforeMonth(y, 6) == 151 + feb;
    assert DaysBeforeMonth(y, 7) == 181 + feb;
    assert DaysBeforeMonth(y, 8) == 212 + feb;
    assert DaysBeforeMonth(y, 9) == 243 + feb;
    assert DaysBeforeMonth(y, 10) == 273 + feb;
    assert DaysBeforeMonth(y, 11) == 304 + feb;
    assert DaysBeforeMonth(y, 12) == 334 + feb;
  }

  /** The year holding day `n`, searched upwards from year `y`. */
  function YearOf(n: int, y: int): (r: int)
    requires 1 <= y && DaysBeforeYear(y) < n
    ensures y <= r && DaysBeforeYear(r) < n <= DaysBeforeYear(r + 1)
    decreases n - DaysBeforeYear(y)
  {
    DaysBeforeNextYear(y);
    if n <= DaysBeforeYear(y + 1) then y else YearOf(n, y + 1)
  }

  /** The month of year `y` holding day-of-year `r`, searched upwards from month `m`. */
  function MonthOf(y: int, r: int, m: int): (k: int)
    requires 1 <= m <= 12 && DaysBeforeMonth(y, m) < r <= DaysInYear(y)
    ensures m <= k <= 12 && DaysBeforeMonth(y, k) < r <= DaysBeforeMonth(y, k + 1)
    decreases 12 - m
  {
    MonthsFillYear(y);
    if r <= DaysBeforeMonth(y, m + 1) then m else MonthOf(y, r, m + 1)
  }

  /** `date.fromordinal(n)`. */
  function FromOrdinal(n: int): (d: Date)
    requires 1 <= n <= MaxOrdinal()
    ensures Valid(d) && Ordinal(d) == n
  {
    var y := YearOf(n, 1);
    if y > MaxYear then
      assert false;
      Date(0, 0, 0)
    else
      DaysBeforeNextYear(y);
      var r := n - DaysBeforeYear(y);
      var m := MonthOf(y, r, 1);
      Date(y, m, r - DaysBeforeMonth(y, m))
  }

  lemma {:induction false} YearOfUnique(n: int, y: int, target: int)
    requires 1 <= y <= target && DaysBeforeYear(y) < n
    requires DaysBeforeYear(target) < n <= DaysBeforeYear(target + 1)
    ensures YearOf(n, y) == target
    decreases target - y
  {
    DaysBeforeNextYear(y);
    if y < target {
      DaysBeforeYearMonotone(y + 1, target);
      YearOfUnique(n, y + 1, target);
    }
  }

  lemma {:induction false} MonthOfUnique(y: int, r: int, m: int, target: int)
    requires 1 <= m <= target <= 12 && DaysBeforeMonth(y, m) < r <= DaysInYear(y)
    requires DaysBeforeMonth(y, target) < r <= DaysBeforeMonth(y, target + 1)
    ensures MonthOf(y, r, m) == target
    decreases target - m
  {
    if m < target {
      DaysBeforeMonthMonotone(y, m + 1, target);
      MonthOfUnique(y, r, m + 1, target);
    }
  }

  /** A valid date's day lies within its year, and its month within that. */
  lemma OrdinalInYear(d: Date)
    requires Valid(d)
    ensures DaysBeforeYear(d.year) < Ordinal(d) <= DaysBeforeYear(d.year + 1)
    ensures DaysBeforeMonth(d.year, d.month) < Ordinal(d) - DaysBeforeYear(d.year) <= DaysBeforeMonth(d.year, d.month + 1)
    ensures Ordinal(d) - DaysBeforeYear(d.year) <= DaysInYear(d.year)
  {
    MonthsFillYear(d.year);
    DaysBeforeMonthMonotone(d.year, 1, d.month);
    DaysBeforeMonthMonotone(d.year, d.month + 1, 13);
    DaysBeforeNextYear(d.year);
  }

  /** Every valid date's ordinal lies between 1 and that of 9999-12-31. */
  lemma OrdinalRange(d: Date)
    requires Valid(d)
    ensures 1 <= Ordinal(d) <= MaxOrdinal()
  {
    OrdinalInYear(d);
    DaysBeforeYearMonotone(1, d.year);
    DaysBeforeYearMonotone(d.year + 1, MaxYear + 1);
  }

  lemma FromOrdinalOrdinal(d: Date)
    requires Valid(d)
    ensures 1 <= Ordinal(d) <= MaxOrdinal()
    ensures FromOrdinal(Ordinal(d)) == d
  {
    var n := Ordinal(d);
    OrdinalRange(d);
    OrdinalInYear(d);
    YearOfUnique(n, 1, d.year);
    var r := n - DaysBeforeYear(d.year);
    MonthOfUnique(d.year, r, 1, d.month);
    assert YearOf(n, 1) == d.year && MonthOf(d.year, r, 1) == d.month;
    assert r - DaysBeforeMonth(d.year, d.month) == d.day;
    DaysBeforeNextYear(d.year);
    assert FromOrdinal(n) == Date(d.year, MonthOf(d.year, r, 1), r - DaysBeforeMonth(d.year, d.month));
  }

  /** Distinct valid dates have distinct ordinals. */
  lemma OrdinalInjective(d: Date, e: Date)
    requires Valid(d) && Valid(e) && Ordinal(d) == Ordinal(e)
    ensures d == e
  {
    FromOrdinalOrdinal(d);
    FromOrdinalOrdinal(e);
  }

  // ---------------------------------------------------------------------
  // Moments and timedelta

  /** A naive `datetime`: its day ordinal and the microseconds since that midnight. */
  datatype Moment = Moment(ordinal: int, micros: int)

  /** What `datetime.now()` can return. */
  predicate ValidMoment(t: Moment)
  {
    1 <= t.ordinal <= MaxOrdinal() && 0 <= t.micros < MicrosPerDay
  }

  /**
    * The date of `t - timedelta(microseconds=delta)`, or `None` where that
    * falls before 0001-01-01 (`OverflowError`).
    */
  function DateBefore(t: Moment, delta: int): (r: Option<Date>)
    requires ValidMoment(t) && delta >= 0
    ensures r.Some? ==> Valid(r.value)
  {
    var day := (t.ordinal * MicrosPerDay + t.micros - delta) / MicrosPerDay;
    if day < 1 then None
    else
      assert day <= t.ordinal;
      Some(FromOrdinal(day))
  }

  /** Going back `n` whole days lands `n` days earlier, and fails only before day 1. */
  lemma DaysBefore(t: Moment, n: nat)
    requires ValidMoment(t)
    ensures DateBefore(t, n * MicrosPerDay).Some? <==> n < t.ordinal
    ensures n < t.ordinal ==> Ordinal(DateBefore(t, n * MicrosPerDay).value) == t.ordinal - n
  {
    var total := t.ordinal * MicrosPerDay + t.micros - n * MicrosPerDay;
    assert total == (t.ordinal - n) * MicrosPerDay + t.micros;
    assert total / MicrosPerDay == t.ordinal - n;
  }

  /** Going back further never lands later. */
  lemma DateBeforeMonotone(t: Moment, a: nat, b: nat)
    requires ValidMoment(t) && a <= b
    ensures DateBefore(t, b).Some? ==> DateBefore(t, a).Some?
    ensures DateBefore(t, b).Some? ==> Ordinal(DateBefore(t, b).value) <= Ordinal(DateBefore(t, a).value)
  {
    var ta := t.ordinal * MicrosPerDay + t.micros - a;
    var tb := t.ordinal * MicrosPerDay + t.micros - b;
    assert tb / MicrosPerDay <= ta / MicrosPerDay;
  }

  // ---------------------------------------------------------------------
  // strftime('%Y-%m-%d')

  function DigitChar(k: int): (c: char)
    requires 0 <= k <= 9
    ensures '0' <= c <= '9'
  {
    ('0' as int + k) as char
  }

  /** `n` in `width` decimal digits, zero-padded on the left. */
  function Padded(n: int, width: nat): (s: string)
    requires 0 <= n
    ensures |s| == width
    ensures forall i :: 0 <= i < |s| ==> '0' <= s[i] <= '9'
  {
    if width == 0 then [] else Padded(n / 10, width - 1) + [DigitChar(n % 10)]
  }

  /** `d.strftime('%Y-%m-%d')`, the year padded to four digits. */
  function Format(d: Date): (s: string)
    requires Valid(d)
    ensures |s| == 10 && s[4] == '-' && s[7] == '-'
  {
    Padded(d.year, 4) + "-" + Padded(d.month, 2) + "-" + Padded(d.day, 2)
  }
}
