/** The proleptic Gregorian calendar of Python's `datetime` module (years
    1 to 9999) and absolute instants counted in micro-seconds, so that a
    `datetime(y, m, d, h, min, s, us)` maps to one integer and back. */
module Calendar {
  import opened Wrappers

  const MinYear: int := 1
  const MaxYear: int := 9999

  const MicrosPerSecond: int := 1_000_000
  const MicrosPerMinute: int := 60 * MicrosPerSecond
  const MicrosPerHour: int := 3600 * MicrosPerSecond
  const MicrosPerDay: int := 86400 * MicrosPerSecond

  predicate IsLeap(y: int) {
    y % 4 == 0 && (y % 100 != 0 || y % 400 == 0)
  }

  function DaysInYear(y: int): (n: int)
    ensures n == 365 || n == 366
    ensures n == 366 <==> IsLeap(y)
  {
    if IsLeap(y) then 366 else 365
  }

  function DaysInMonth(y: int, m: int): (n: int)
    requires 1 <= m <= 12
    ensures 28 <= n <= 31
    ensures m == 2 ==> (n == 29 <==> IsLeap(y))
  {
    if m == 2 then (if IsLeap(y) then 29 else 28)
    else if m == 4 || m == 6 || m == 9 || m == 11 then 30
    else 31
  }

  /** Cumulative days before each month in a common year. */
  const CommonDaysBefore: seq<int> := [0, 31, 59, 90, 120, 151, 181, 212, 243, 273, 304, 334]

  /** Days of year y that lie in the months before m, summed month by month;
      it agrees with the cumulative table plus the leap day from March on. */
  function DaysBeforeMonth(y: int, m: int): (n: nat)
    requires 1 <= m <= 12
    ensures n == CommonDaysBefore[m - 1] + (if m > 2 && IsLeap(y) then 1 else 0)
    ensures n + DaysInMonth(y, m) <= DaysInYear(y)
    ensures m == 12 ==> n + DaysInMonth(y, m) == DaysInYear(y)
  {
    if m == 1 then 0 else DaysBeforeMonth(y, m - 1) + DaysInMonth(y, m - 1)
  }

  /** Days from 0001-01-01 to January 1st of year y. */
  function DaysBeforeYear(y: int): (n: nat)
    requires y >= 1
  {
    var p := y - 1;
    p * 365 + p / 4 - p / 100 + p / 400
  }

  /** The closed form adds up the year lengths one year at a time. */
  lemma DaysBeforeYearStep(y: int)
    requires y >= 1
    ensures DaysBeforeYear(y + 1) == DaysBeforeYear(y) + DaysInYear(y)
  {
    var p := y - 1;
    CountStep4(p);
    CountStep100(p);
    CountStep400(p);
    DivisorChain(y);
    var d := (if y % 4 == 0 then 1 else 0) - (if y % 100 == 0 then 1 else 0) + (if y % 400 == 0 then 1 else 0);
    assert DaysBeforeYear(y + 1) == DaysBeforeYear(y) + 365 + d;
    assert d == DaysInYear(y) - 365;
  }

  /** Every multiple of 400 is one of 100, and every multiple of 100 one of 4. */
  lemma DivisorChain(y: int)
    ensures y % 400 == 0 ==> y % 100 == 0
    ensures y % 100 == 0 ==> y % 4 == 0
  {
    if y % 400 == 0 {
      var q := y / 400;
      assert y == 100 * (4 * q);
      MultipleOf100(4 * q);
    }
    if y % 100 == 0 {
      var q := y / 100;
      assert y == 4 * (25 * q);
      MultipleOf4(25 * q);
    }
  }

  lemma MultipleOf100(k: int)
    ensures (100 * k) % 100 == 0
  {
  }

  lemma MultipleOf4(k: int)
    ensures (4 * k) % 4 == 0
  {
  }

  /** One more year adds a multiple of 4, 100 or 400 exactly when it is one. */
  lemma CountStep4(p: nat)
    ensures (p + 1) / 4 == p / 4 + (if (p + 1) % 4 == 0 then 1 else 0)
  {
  }

  lemma CountStep100(p: nat)
    ensures (p + 1) / 100 == p / 100 + (if (p + 1) % 100 == 0 then 1 else 0)
  {
  }

  lemma CountStep400(p: nat)
    ensures (p + 1) / 400 == p / 400 + (if (p + 1) % 400 == 0 then 1 else 0)
  {
  }

  lemma {:induction false} DaysBeforeYearMonotone(y1: int, y2: int)
    requires 1 <= y1 < y2
    ensures DaysBeforeYear(y1) + DaysInYear(y1) <= DaysBeforeYear(y2)
    decreases y2 - y1
  {
    DaysBeforeYearStep(y1);
    if y1 + 1 < y2 {
      DaysBeforeYearMonotone(y1 + 1, y2);
    }
  }

  lemma DaysBeforeMonthMonotone(y: int, m1: int, m2: int)
    requires 1 <= m1 < m2 <= 12
    ensures DaysBeforeMonth(y, m1) + DaysInMonth(y, m1) <= DaysBeforeMonth(y, m2)
  {
  }

  predicate ValidDate(y: int, m: int, d: int) {
    1 <= y && 1 <= m <= 12 && 1 <= d <= DaysInMonth(y, m)
  }

  /** Days since 0001-01-01 (Python's `date.toordinal() - 1`). */
  function DayNumber(y: int, m: int, d: int): nat
    requires ValidDate(y, m, d)
  {
    DaysBeforeYear(y) + DaysBeforeMonth(y, m) + d - 1
  }

  predicate DateBefore(y1: int, m1: int, d1: int, y2: int, m2: int, d2: int) {
    y1 < y2 || (y1 == y2 && (m1 < m2 || (m1 == m2 && d1 < d2)))
  }

  lemma DayNumberBelowNextYear(y: int, m: int, d: int)
    requires ValidDate(y, m, d)
    ensures DayNumber(y, m, d) < DaysBeforeYear(y) + DaysInYear(y)
  {
  }

  /** The day count orders dates exactly as the calendar does. */
  lemma DayNumberOrder(y1: int, m1: int, d1: int, y2: int, m2: int, d2: int)
    requires ValidDate(y1, m1, d1) && ValidDate(y2, m2, d2)
    ensures DayNumber(y1, m1, d1) < DayNumber(y2, m2, d2) <==> DateBefore(y1, m1, d1, y2, m2, d2)
    ensures DayNumber(y1, m1, d1) == DayNumber(y2, m2, d2) <==> (y1, m1, d1) == (y2, m2, d2)
  {
    if y1 < y2 {
      DayNumberBelowNextYear(y1, m1, d1);
      DaysBeforeYearMonotone(y1, y2);
    } else if y2 < y1 {
      DayNumberBelowNextYear(y2, m2, d2);
      DaysBeforeYearMonotone(y2, y1);
    } else if m1 < m2 {
      DaysBeforeMonthMonotone(y1, m1, m2);
    } else if m2 < m1 {
      DaysBeforeMonthMonotone(y1, m2, m1);
    }
  }

  /** Splits a day offset from January 1st of year y into a later year and
      the offset within it. */
  function YearSplit(y: int, r: nat): (p: (int, nat))
    requires y >= 1
    ensures p.0 >= y && p.1 < DaysInYear(p.0)
    ensures DaysBeforeYear(p.0) + p.1 == DaysBeforeYear(y) + r
    decreases r
  {
    if r < DaysInYear(y) then (y, r)
    else
      DaysBeforeYearStep(y);
      YearSplit(y + 1, r - DaysInYear(y))
  }

  /** Splits a day offset from the start of month m of year y into a later
      month of the same year and the offset within it. */
  function MonthSplit(y: int, m: int, r: nat): (p: (int, nat))
    requires 1 <= m <= 12 && r < DaysInYear(y) - DaysBeforeMonth(y, m)
    ensures m <= p.0 <= 12 && p.1 < DaysInMonth(y, p.0)
    ensures DaysBeforeMonth(y, p.0) + p.1 == DaysBeforeMonth(y, m) + r
    decreases 12 - m
  {
    if r < DaysInMonth(y, m) then (m, r)
    else MonthSplit(y, m + 1, r - DaysInMonth(y, m))
  }

  /** The date n days after 0001-01-01 (Python's `date.fromordinal(n + 1)`). */
  function DateOfDay(n: nat): (date: (int, int, int))
    ensures ValidDate(date.0, date.1, date.2)
    ensures DayNumber(date.0, date.1, date.2) == n
  {
    var (y, r) := YearSplit(1, n);
    var (m, r2) := MonthSplit(y, 1, r);
    (y, m, r2 + 1)
  }

  lemma DateOfDayNumber(y: int, m: int, d: int)
    requires ValidDate(y, m, d)
    ensures DateOfDay(DayNumber(y, m, d)) == (y, m, d)
  {
    var date := DateOfDay(DayNumber(y, m, d));
    DayNumberOrder(date.0, date.1, date.2, y, m, d);
  }

  /** A naive Python `datetime`. */
  datatype DateTime = DateTime(year: int, month: int, day: int,
                               hour: int, minute: int, second: int, microsecond: int)

  /** The field ranges that the `datetime` constructor accepts; it raises
      ValueError for anything else. */
  predicate ValidDateTime(t: DateTime) {
    && MinYear <= t.year <= MaxYear
    && ValidDate(t.year, t.month, t.day)
    && 0 <= t.hour < 24 && 0 <= t.minute < 60 && 0 <= t.second < 60
    && 0 <= t.microsecond < MicrosPerSecond
  }

  /** A date-time value as a `datetime` holds it. A nanosecond pandas
      `Timestamp` spans only 1677-09-21 to 2262-04-11; that narrower range
      is not imposed here. */
  type CivilTime = t: DateTime | ValidDateTime(t) witness DateTime(1, 1, 1, 0, 0, 0, 0)

  /** Days from 0001-01-01 to 10000-01-01, and the last representable
      micro-second, 9999-12-31T23:59:59.999999. */
  const DaysInRange: int := 3652059
  const MaxInstant: int := 315537897599999999

  lemma RangeEndsWithYear9999()
    ensures DaysInRange == DaysBeforeYear(MaxYear + 1)
    ensures MaxInstant == DaysInRange * MicrosPerDay - 1
  {
  }

  /** Micro-seconds since 0001-01-01T00:00:00: every representable datetime. */
  type Instant = t: int | 0 <= t <= MaxInstant

  function ToInstant(t: DateTime): (i: Instant)
    requires ValidDateTime(t)
  {
    var days := DayNumber(t.year, t.month, t.day);
    DayNumberInRange(t.year, t.month, t.day);
    InstantInRange(days, t.hour, t.minute, t.second, t.microsecond);
    days * MicrosPerDay + t.hour * MicrosPerHour + t.minute * MicrosPerMinute
      + t.second * MicrosPerSecond + t.microsecond
  }

  /** Every date of years 1 to 9999 lies among the first DaysInRange days. */
  lemma DayNumberInRange(y: int, m: int, d: int)
    requires MinYear <= y <= MaxYear && ValidDate(y, m, d)
    ensures DayNumber(y, m, d) < DaysInRange
  {
    RangeEndsWithYear9999();
    DayNumberBelowNextYear(y, m, d);
    if y < MaxYear { DaysBeforeYearMonotone(y, MaxYear + 1); }
    else { DaysBeforeYearStep(y); }
  }

  /** A day of the range and a time of day within it give an instant of the range. */
  lemma InstantInRange(days: nat, h: int, mi: int, s: int, us: int)
    requires days < DaysInRange
    requires 0 <= h < 24 && 0 <= mi < 60 && 0 <= s < 60 && 0 <= us < MicrosPerSecond
    ensures 0 <= days * MicrosPerDay + h * MicrosPerHour + mi * MicrosPerMinute + s * MicrosPerSecond + us <= MaxInstant
  {
    RangeEndsWithYear9999();
    var tod := h * MicrosPerHour + mi * MicrosPerMinute + s * MicrosPerSecond + us;
    assert tod < MicrosPerDay;
    assert days * MicrosPerDay <= (DaysInRange - 1) * MicrosPerDay;
  }

  /** Splits the micro-seconds of one day into hour, minute, second and
      micro-second. */
  function TimeOfDay(rem: int): (c: (int, int, int, int))
    requires 0 <= rem < MicrosPerDay
    ensures 0 <= c.0 < 24 && 0 <= c.1 < 60 && 0 <= c.2 < 60 && 0 <= c.3 < MicrosPerSecond
    ensures rem == c.0 * MicrosPerHour + c.1 * MicrosPerMinute + c.2 * MicrosPerSecond + c.3
  {
    var h := rem / MicrosPerHour;
    var r1 := rem % MicrosPerHour;
    var mi := r1 / MicrosPerMinute;
    var r2 := r1 % MicrosPerMinute;
    (h, mi, r2 / MicrosPerSecond, r2 % MicrosPerSecond)
  }

  lemma TimeOfDayUnique(h: int, mi: int, s: int, us: int)
    requires 0 <= h < 24 && 0 <= mi < 60 && 0 <= s < 60 && 0 <= us < MicrosPerSecond
    ensures 0 <= h * MicrosPerHour + mi * MicrosPerMinute + s * MicrosPerSecond + us < MicrosPerDay
    ensures TimeOfDay(h * MicrosPerHour + mi * MicrosPerMinute + s * MicrosPerSecond + us) == (h, mi, s, us)
  {
    var r2 := s * MicrosPerSecond + us;
    assert r2 / MicrosPerSecond == s && r2 % MicrosPerSecond == us;
    var r1 := mi * MicrosPerMinute + r2;
    assert r1 / MicrosPerMinute == mi && r1 % MicrosPerMinute == r2;
    var rem := h * MicrosPerHour + r1;
    assert rem / MicrosPerHour == h && rem % MicrosPerHour == r1;
  }

  lemma DaySplit(i: int, days: int, rem: int)
    requires 0 <= rem < MicrosPerDay && i == days * MicrosPerDay + rem
    ensures i / MicrosPerDay == days && i % MicrosPerDay == rem
  {
  }

  function FromInstant(i: Instant): (t: DateTime)
    ensures ValidDateTime(t) && ToInstant(t) == i
  {
    var days := i / MicrosPerDay;
    assert days < DaysInRange;
    var (y, m, d) := DateOfDay(days);
    assert y <= MaxYear by {
      if y > MaxYear {
        DaysBeforeYearMonotone(MaxYear, y);
        DaysBeforeYearStep(MaxYear);
        RangeEndsWithYear9999();
      }
    }
    var (h, mi, s, us) := TimeOfDay(i % MicrosPerDay);
    DateTime(y, m, d, h, mi, s, us)
  }

  lemma FromInstantOfInstant(t: DateTime)
    requires ValidDateTime(t)
    ensures FromInstant(ToInstant(t)) == t
  {
    var days := DayNumber(t.year, t.month, t.day);
    TimeOfDayUnique(t.hour, t.minute, t.second, t.microsecond);
    var rem := t.hour * MicrosPerHour + t.minute * MicrosPerMinute + t.second * MicrosPerSecond + t.microsecond;
    DaySplit(ToInstant(t), days, rem);
    DateOfDayNumber(t.year, t.month, t.day);
  }

  /** The instant of midnight at the start of a date. */
  function Midnight(y: int, m: int, d: int): (i: Instant)
    requires MinYear <= y <= MaxYear && ValidDate(y, m, d)
    ensures i == DayNumber(y, m, d) * MicrosPerDay
  {
    ToInstant(DateTime(y, m, d, 0, 0, 0, 0))
  }

  /** `datetime + timedelta(microseconds=delta)`: OverflowError (None) when
      the sum leaves the representable range. */
  function AddMicros(i: Instant, delta: int): (r: Option<Instant>)
    ensures r.Some? <==> 0 <= i + delta <= MaxInstant
    ensures r.Some? ==> r.value == i + delta
  {
    if 0 <= i + delta <= MaxInstant then Some(i + delta) else None
  }
}
