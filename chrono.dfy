/** Calendar arithmetic in the proleptic Gregorian calendar, as Python's
    `datetime` and pandas' `Timestamp` do it: day ordinals counted from
    0001-01-01 (CPython's `toordinal`), weekdays with Monday = 0, naive
    date-times read as UTC instants, and pandas' 64-bit nanosecond range. */
module Chrono {

  datatype Date = Date(year: int, month: int, day: int)

  /** A wall-clock instant at whole-second resolution. */
  datatype DateTime = DateTime(date: Date, hour: int, minute: int, second: int)

  /** `datetime.MINYEAR` and `datetime.MAXYEAR`. */
  const MinYear: int := 1
  const MaxYear: int := 9999

  predicate IsLeap(y: int) {
    y % 4 == 0 && (y % 100 != 0 || y % 400 == 0)
  }

  function DaysInMonth(y: int, m: int): (n: int)
    requires 1 <= m <= 12
    ensures 28 <= n <= 31
    ensures m == 2 ==> (n == 29 <==> IsLeap(y))
  {
    if m == 2 then (if IsLeap(y) then 29 else 28)
    else if m == 4 || m == 6 || m == 9 || m == 11 then 30
    else 31
  }

  /** What the `date` constructor accepts; anything else raises ValueError. */
  predicate ValidDate(d: Date) {
    MinYear <= d.year <= MaxYear && 1 <= d.month <= 12 && 1 <= d.day <= DaysInMonth(d.year, d.month)
  }

  /** What the `datetime` constructor accepts. */
  predicate ValidDateTime(t: DateTime) {
    ValidDate(t.date) && 0 <= t.hour < 24 && 0 <= t.minute < 60 && 0 <= t.second < 60
  }

  /** Days in the years before `year` (CPython's `_days_before_year`). */
  function DaysBeforeYear(year: int): int
    requires year >= 1
  {
    var y := year - 1;
    y * 365 + y / 4 - y / 100 + y / 400
  }

  /** Days in the months of `year` before `month` (CPython's `_days_before_month`). */
  function DaysBeforeMonth(year: int, month: int): int
    requires 1 <= month <= 12
  {
    [0, 31, 59, 90, 120, 151, 181, 212, 243, 273, 304, 334][month - 1]
    + (if month > 2 && IsLeap(year) then 1 else 0)
  }

  /** `date.toordinal()`: 0001-01-01 is day 1. */
  function Ordinal(d: Date): int
    requires ValidDate(d)
  {
    DaysBeforeYear(d.year) + DaysBeforeMonth(d.year, d.month) + d.day
  }

  /** `date.weekday()` / `Timestamp.dayofweek`: Monday is 0, Sunday is 6. */
  function Weekday(d: Date): (w: int)
    requires ValidDate(d)
    ensures 0 <= w <= 6
  {
    (Ordinal(d) + 6) % 7
  }

  /** The calendar day after `d`. */
  function NextDay(d: Date): Date
    requires ValidDate(d)
  {
    if d.day < DaysInMonth(d.year, d.month) then Date(d.year, d.month, d.day + 1)
    else if d.month < 12 then Date(d.year, d.month + 1, 1)
    else Date(d.year + 1, 1, 1)
  }

  /** Ordinal of 1970-01-01, the epoch of POSIX timestamps. */
  const EpochOrdinal: int := 719163

  /** `Timestamp.timestamp()` of a naive date-time, which pandas reads as UTC. */
  function EpochSeconds(t: DateTime): int
    requires ValidDateTime(t)
  {
    (Ordinal(t.date) - EpochOrdinal) * 86400 + t.hour * 3600 + t.minute * 60 + t.second
  }

  /** The int64 value of a `datetime64[ns]` cell (`.astype(int)`). */
  function EpochNanos(t: DateTime): int
    requires ValidDateTime(t)
  {
    EpochSeconds(t) * 1000000000
  }

  /** `astype(int) // 10**6 * 1000` of a `datetime64[ns]` cell: the
      nanosecond value cut to whole milliseconds, then multiplied by 1000. */
  function ScaledMillis(t: DateTime): int
    requires ValidDateTime(t)
  {
    EpochNanos(t) / 1000000 * 1000
  }

  /** `Timestamp.min` .. `Timestamp.max` in nanoseconds; the int64 minimum is NaT. */
  const MinNanos: int := -0x7fff_ffff_ffff_ffff
  const MaxNanos: int := 0x7fff_ffff_ffff_ffff

  /** Instants that `pd.to_datetime` can represent without OutOfBoundsDatetime. */
  predicate InPandasRange(t: DateTime)
    requires ValidDateTime(t)
  {
    MinNanos <= EpochNanos(t) <= MaxNanos
  }

  /** Midnight at the start of `d`, the instant `pd.to_datetime` gives a bare date. */
  function Midnight(d: Date): (t: DateTime)
    requires ValidDate(d)
    ensures ValidDateTime(t) && t.date == d
  {
    DateTime(d, 0, 0, 0)
  }

  // ---------------------------------------------------------------------
  // Properties

  /** Dividing by a leap-cycle length steps up exactly at its multiples. */
  lemma DivStep(n: int, k: int)
    requires n >= 0 && (k == 4 || k == 100 || k == 400)
    ensures (n + 1) / k - n / k == if (n + 1) % k == 0 then 1 else 0
  {
    if k == 4 {
    } else if k == 100 {
    } else {
    }
  }

  /** A year has 366 days exactly when it is a leap year. */
  lemma YearLength(year: int)
    requires year >= 1
    ensures DaysBeforeYear(year + 1) - DaysBeforeYear(year) == if IsLeap(year) then 366 else 365
  {
    var y := year - 1;
    DivStep(y, 4);
    DivStep(y, 100);
    DivStep(y, 400);
    assert DaysBeforeYear(year + 1) - DaysBeforeYear(year)
        == 365 + (year / 4 - y / 4) - (year / 100 - y / 100) + (year / 400 - y / 400);
    NestedCycles(year);
  }

  /** Every multiple of 400 is one of 100, and every multiple of 100 one of 4. */
  lemma NestedCycles(year: int)
    ensures year % 400 == 0 ==> year % 100 == 0
    ensures year % 100 == 0 ==> year % 4 == 0
  {
    if year % 400 == 0 {
      MultipleOf(year, 400, 100);
    }
    if year % 100 == 0 {
      MultipleOf(year, 100, 4);
    }
  }

  lemma MultipleOf(n: int, k: int, j: int)
    requires (k == 400 && j == 100) || (k == 100 && j == 4)
    requires n % k == 0
    ensures n % j == 0
  {
    var q := n / k;
    assert n == j * ((k / j) * q);
  }

  /** Each month starts where the previous one ends. */
  lemma MonthLength(year: int, month: int)
    requires 1 <= month < 12
    ensures DaysBeforeMonth(year, month + 1) == DaysBeforeMonth(year, month) + DaysInMonth(year, month)
  {
  }

  /** Consecutive calendar days have consecutive ordinals. */
  lemma OrdinalNextDay(d: Date)
    requires ValidDate(d) && ValidDate(NextDay(d))
    ensures Ordinal(NextDay(d)) == Ordinal(d) + 1
  {
    if d.day == DaysInMonth(d.year, d.month) {
      if d.month < 12 {
        MonthLength(d.year, d.month);
      } else {
        YearLength(d.year);
      }
    }
  }

  lemma WeekStep(o: int)
    ensures (o + 1 + 6) % 7 == ((o + 6) % 7 + 1) % 7
  {
  }

  /** The weekday advances by one, modulo 7, from one day to the next. */
  lemma WeekdayNextDay(d: Date)
    requires ValidDate(d) && ValidDate(NextDay(d))
    ensures Weekday(NextDay(d)) == (Weekday(d) + 1) % 7
  {
    OrdinalNextDay(d);
    WeekStep(Ordinal(d));
  }

  /** The ordinal of the epoch, and its weekday: 1970-01-01 was a Thursday. */
  lemma EpochIsThursday()
    ensures Ordinal(Date(1970, 1, 1)) == EpochOrdinal
    ensures Weekday(Date(1970, 1, 1)) == 3
    ensures EpochSeconds(DateTime(Date(1970, 1, 1), 0, 0, 0)) == 0
  {
  }

  /** Whole hours are whole multiples of 3600 seconds since the epoch. */
  lemma WholeHourSeconds(t: DateTime) returns (hours: int)
    requires ValidDateTime(t) && t.minute == 0 && t.second == 0
    ensures EpochSeconds(t) == hours * 3600
    ensures EpochSeconds(t) % 3600 == 0
  {
    hours := (Ordinal(t.date) - EpochOrdinal) * 24 + t.hour;
  }

  /** Cutting to milliseconds loses nothing at whole-second resolution, so
      the scaled value is the epoch seconds times 10^6, a multiple of 1000. */
  lemma ScaledMillisExact(t: DateTime)
    requires ValidDateTime(t)
    ensures ScaledMillis(t) == EpochSeconds(t) * 1000000
    ensures ScaledMillis(t) % 1000 == 0
  {
    var ms := EpochSeconds(t) * 1000;
    assert EpochNanos(t) == ms * 1000000;
    ExactScale(ms);
  }

  lemma ExactScale(ms: int)
    ensures (ms * 1000000) / 1000000 * 1000 == ms * 1000
    ensures (ms * 1000) % 1000 == 0
  {
  }
}
