/**
 * The proleptic Gregorian calendar as Python's `datetime` sees it: dates from
 * 0001-01-01 to 9999-12-31, day ordinals as `date.toordinal()` numbers them
 * (0001-01-01 is day 1), weekdays as `date.weekday()` numbers them (Monday 0),
 * and instants as whole microseconds since 0001-01-01T00:00:00.
 */
module Calendar {
  import opened Text

  const MinYear: int := 1
  const MaxYear: int := 9999

  datatype Date = Date(year: int, month: int, day: int)

  predicate IsLeap(y: int) {
    y % 4 == 0 && (y % 100 != 0 || y % 400 == 0)
  }

  function DaysInMonth(y: int, m: int): (n: int)
    requires 1 <= m <= 12
    ensures 28 <= n <= 31
  {
    if m == 2 then (if IsLeap(y) then 29 else 28)
    else if m == 4 || m == 6 || m == 9 || m == 11 then 30
    else 31
  }

  function DaysInYear(y: int): int {
    if IsLeap(y) then 366 else 365
  }

  predicate ValidDate(d: Date) {
    && MinYear <= d.year <= MaxYear
    && 1 <= d.month <= 12
    && 1 <= d.day <= DaysInMonth(d.year, d.month)
  }

  /** Days in the years before `y` (Python's `_days_before_year`). */
  function DaysBeforeYear(y: int): int
    requires y >= 1
  {
    var a := y - 1;
    365 * a + a / 4 - a / 100 + a / 400
  }

  /** Days in the months of year `y` before month `m`. */
  function DaysBeforeMonth(y: int, m: int): (n: int)
    requires 1 <= m <= 13
    ensures n >= 0
  {
    if m == 1 then 0 else DaysBeforeMonth(y, m - 1) + DaysInMonth(y, m - 1)
  }

  /** Python's `date.toordinal()`. */
  function ToOrdinal(d: Date): (n: int)
    requires ValidDate(d)
    ensures n >= 1
  {
    DaysBeforeYear(d.year) + DaysBeforeMonth(d.year, d.month) + d.day
  }

  /** The ordinal of 9999-12-31, the last day `datetime` can represent. */
  const MaxOrdinal: int := 3652059

  lemma DaysBeforeYearStep(y: int)
    requires y >= 1
    ensures DaysBeforeYear(y + 1) == DaysBeforeYear(y) + DaysInYear(y)
  {
    var a := y - 1;
    assert (a + 1) / 4 == a / 4 + (if y % 4 == 0 then 1 else 0);
    assert (a + 1) / 100 == a / 100 + (if y % 100 == 0 then 1 else 0);
    assert (a + 1) / 400 == a / 400 + (if y % 400 == 0 then 1 else 0);
  }

  lemma {:induction false} DaysBeforeYearMono(a: int, b: int)
    requires 1 <= a < b
    ensures DaysBeforeYear(a) + DaysInYear(a) <= DaysBeforeYear(b)
    decreases b - a
  {
    DaysBeforeYearStep(a);
    if a + 1 < b {
      DaysBeforeYearMono(a + 1, b);
    }
  }

  lemma DaysBeforeYearEnd()
    ensures DaysBeforeYear(MaxYear + 1) == MaxOrdinal
  {
  }

  lemma DaysBeforeMonthYear(y: int)
    ensures DaysBeforeMonth(y, 13) == DaysInYear(y)
  {
    var f := if IsLeap(y) then 29 else 28;
    assert DaysBeforeMonth(y, 2) == 31;
    assert DaysBeforeMonth(y, 3) == 31 + f;
    assert DaysBeforeMonth(y, 4) == 62 + f;
    assert DaysBeforeMonth(y, 5) == 92 + f;
    assert DaysBeforeMonth(y, 6) == 123 + f;
    assert DaysBeforeMonth(y, 7) == 153 + f;
    assert DaysBeforeMonth(y, 8) == 184 + f;
    assert DaysBeforeMonth(y, 9) == 215 + f;
    assert DaysBeforeMonth(y, 10) == 245 + f;
    assert DaysBeforeMonth(y, 11) == 276 + f;
    assert DaysBeforeMonth(y, 12) == 306 + f;
  }

  lemma {:induction false} DaysBeforeMonthMono(y: int, a: int, b: int)
    requires 1 <= a < b <= 13
    ensures DaysBeforeMonth(y, a) + DaysInMonth(y, a) <= DaysBeforeMonth(y, b)
    decreases b - a
  {
    if a + 1 < b {
      DaysBeforeMonthMono(y, a + 1, b);
    }
  }

  /** The year whose days contain ordinal `n`, searching upwards from `y`. */
  function YearSearch(n: int, y: int): (r: int)
    requires MinYear <= y <= MaxYear
    requires DaysBeforeYear(y) < n <= MaxOrdinal
    ensures y <= r <= MaxYear
    ensures DaysBeforeYear(r) < n <= DaysBeforeYear(r + 1)
    decreases MaxYear - y
  {
    DaysBeforeYearEnd();
    if n <= DaysBeforeYear(y + 1) then y else YearSearch(n, y + 1)
  }

  /** The month of year `y` containing its `r`-th day, searching upwards from `m`. */
  function MonthSearch(y: int, r: int, m: int): (res: int)
    requires 1 <= m <= 12
    requires DaysBeforeMonth(y, m) < r <= DaysBeforeMonth(y, 13)
    ensures m <= res <= 12
    ensures DaysBeforeMonth(y, res) < r <= DaysBeforeMonth(y, res + 1)
    decreases 12 - m
  {
    if r <= DaysBeforeMonth(y, m + 1) then m else MonthSearch(y, r, m + 1)
  }

  /** The year containing day ordinal `n`. */
  function OrdinalYear(n: int): (y: int)
    requires 1 <= n <= MaxOrdinal
    ensures MinYear <= y <= MaxYear
    ensures DaysBeforeYear(y) < n <= DaysBeforeYear(y) + DaysInYear(y)
  {
    var y := YearSearch(n, MinYear);
    DaysBeforeYearStep(y);
    y
  }

  /** The month containing day ordinal `n`. */
  function OrdinalMonth(n: int): (m: int)
    requires 1 <= n <= MaxOrdinal
    ensures 1 <= m <= 12
    ensures DaysBeforeMonth(OrdinalYear(n), m) < n - DaysBeforeYear(OrdinalYear(n))
    ensures n - DaysBeforeYear(OrdinalYear(n)) <= DaysBeforeMonth(OrdinalYear(n), m + 1)
  {
    var y := OrdinalYear(n);
    DaysBeforeMonthYear(y);
    MonthSearch(y, n - DaysBeforeYear(y), 1)
  }

  /** Python's `date.fromordinal(n)`: the date whose ordinal is `n`. */
  function FromOrdinal(n: int): (d: Date)
    requires 1 <= n <= MaxOrdinal
    ensures ValidDate(d) && ToOrdinal(d) == n
  {
    var y := OrdinalYear(n);
    var m := OrdinalMonth(n);
    Date(y, m, n - DaysBeforeYear(y) - DaysBeforeMonth(y, m))
  }

  lemma {:induction false} YearSearchFinds(n: int, y0: int, y: int)
    requires MinYear <= y0 <= y <= MaxYear
    requires DaysBeforeYear(y) < n <= DaysBeforeYear(y + 1)
    requires DaysBeforeYear(y0) < n <= MaxOrdinal
    ensures YearSearch(n, y0) == y
    decreases y - y0
  {
    if y0 < y {
      DaysBeforeYearMono(y0, y);
      DaysBeforeYearStep(y0);
      YearSearchFinds(n, y0 + 1, y);
    }
  }

  lemma {:induction false} MonthSearchFinds(y: int, r: int, m0: int, m: int)
    requires 1 <= m0 <= m <= 12
    requires DaysBeforeMonth(y, m) < r <= DaysBeforeMonth(y, m + 1)
    requires DaysBeforeMonth(y, m0) < r <= DaysBeforeMonth(y, 13)
    ensures MonthSearch(y, r, m0) == m
    decreases m - m0
  {
    if m0 < m {
      DaysBeforeMonthMono(y, m0, m);
      assert DaysBeforeMonth(y, m0 + 1) < r;
      assert MonthSearch(y, r, m0) == MonthSearch(y, r, m0 + 1);
      MonthSearchFinds(y, r, m0 + 1, m);
    }
  }

  /** A valid date's ordinal lies within the days of its year. */
  lemma OrdinalWithinYear(d: Date)
    requires ValidDate(d)
    ensures DaysBeforeYear(d.year) < ToOrdinal(d) <= DaysBeforeYear(d.year + 1)
    ensures DaysBeforeYear(d.year + 1) <= MaxOrdinal
  {
    var y := d.year;
    DaysBeforeYearStep(y);
    DaysBeforeMonthYear(y);
    if d.month < 12 {
      DaysBeforeMonthMono(y, d.month + 1, 13);
    }
    if y < MaxYear {
      DaysBeforeYearMono(y + 1, MaxYear + 1);
    }
    DaysBeforeYearEnd();
  }

  /** `FromOrdinal` lands in the year and month whose days contain the ordinal. */
  lemma FromOrdinalLocates(n: int, y: int, m: int)
    requires MinYear <= y <= MaxYear && 1 <= m <= 12
    requires DaysBeforeYear(y) < n <= DaysBeforeYear(y + 1) && n <= MaxOrdinal
    requires DaysBeforeMonth(y, m) < n - DaysBeforeYear(y) <= DaysBeforeMonth(y, m + 1)
    ensures FromOrdinal(n) == Date(y, m, n - DaysBeforeYear(y) - DaysBeforeMonth(y, m))
  {
    assert OrdinalYear(n) == y by {
      YearSearchFinds(n, MinYear, y);
    }
    assert OrdinalMonth(n) == m by {
      MonthLocated(y, n - DaysBeforeYear(y), m);
      OrdinalMonthIn(n, y);
    }
  }

  /** Once the year of an ordinal is known, its month is the month search within that year. */
  lemma OrdinalMonthIn(n: int, y: int)
    requires 1 <= n <= MaxOrdinal && OrdinalYear(n) == y
    ensures DaysBeforeMonth(y, 1) < n - DaysBeforeYear(y) <= DaysBeforeMonth(y, 13)
    ensures OrdinalMonth(n) == MonthSearch(y, n - DaysBeforeYear(y), 1)
  {
    DaysBeforeMonthYear(y);
  }

  lemma MonthLocated(y: int, r: int, m: int)
    requires 1 <= m <= 12
    requires DaysBeforeMonth(y, m) < r <= DaysBeforeMonth(y, m + 1)
    ensures DaysBeforeMonth(y, 1) < r <= DaysBeforeMonth(y, 13)
    ensures MonthSearch(y, r, 1) == m
  {
    DaysBeforeMonthYear(y);
    if m < 12 {
      DaysBeforeMonthMono(y, m + 1, 13);
    }
    MonthSearchFinds(y, r, 1, m);
  }

  /** Ordinals and dates are in one-to-one correspondence: the inverse direction. */
  lemma FromToOrdinal(d: Date)
    requires ValidDate(d)
    ensures ToOrdinal(d) <= MaxOrdinal
    ensures FromOrdinal(ToOrdinal(d)) == d
  {
    OrdinalWithinYear(d);
    FromOrdinalLocates(ToOrdinal(d), d.year, d.month);
  }

  /** Two valid dates with the same ordinal are the same date. */
  lemma OrdinalInjective(a: Date, b: Date)
    requires ValidDate(a) && ValidDate(b)
    requires ToOrdinal(a) == ToOrdinal(b)
    ensures a == b
  {
    FromToOrdinal(a);
    FromToOrdinal(b);
  }

  /** Python's `date.weekday()` of the day with ordinal `n`: Monday is 0, Sunday is 6. */
  function Weekday(n: int): (w: int)
    ensures 0 <= w < 7
  {
    (n + 6) % 7
  }

  lemma WeekdayNext(n: int)
    ensures Weekday(n + 1) == (Weekday(n) + 1) % 7
  {
  }

  /** Python's `date + timedelta(days=k)` on a valid date. */
  function AddDays(d: Date, k: int): Date
    requires ValidDate(d)
    requires 1 <= ToOrdinal(d) + k <= MaxOrdinal
  {
    FromOrdinal(ToOrdinal(d) + k)
  }

  // ---------------------------------------------------------------------------
  // Instants
  // ---------------------------------------------------------------------------

  const MicrosPerSecond: int := 1_000_000
  const MicrosPerMinute: int := 60_000_000
  const MicrosPerHour: int := 3_600_000_000
  const MicrosPerDay: int := 86_400_000_000

  /** Quotient and remainder are determined by `q * b + r` with `0 <= r < b`. */
  lemma DivMod(q: int, r: int, b: int)
    requires b > 0 && 0 <= r < b
    ensures (q * b + r) / b == q && (q * b + r) % b == r
  {
    var n := q * b + r;
    var d := n / b - q;
    assert d * b == r - n % b;
  }

  /** The last instant `datetime` can represent, 9999-12-31T23:59:59.999999. */
  const MaxInstant: int := 315_537_897_599_999_999

  lemma MaxInstantIsLastDay()
    ensures MaxInstant == MaxOrdinal * MicrosPerDay - 1
  {
  }

  /** An instant is a microsecond count since 0001-01-01T00:00:00. */
  predicate InRange(t: int) {
    0 <= t <= MaxInstant
  }

  /** The day ordinal of an in-range instant. */
  function DayOf(t: int): (n: int)
    requires InRange(t)
    ensures 1 <= n <= MaxOrdinal
  {
    t / MicrosPerDay + 1
  }

  function DateOf(t: int): (d: Date)
    requires InRange(t)
    ensures ValidDate(d)
  {
    FromOrdinal(DayOf(t))
  }

  function HourOf(t: int): (h: int)
    requires InRange(t)
    ensures 0 <= h < 24
  {
    (t % MicrosPerDay) / MicrosPerHour
  }

  function MinuteOf(t: int): (m: int)
    requires InRange(t)
    ensures 0 <= m < 60
  {
    ((t % MicrosPerDay) % MicrosPerHour) / MicrosPerMinute
  }

  /** The instant of day number `day` at `h:m:s.us`. */
  function At(day: int, h: int, m: int, s: int, us: int): (t: int)
    requires 1 <= day <= MaxOrdinal
    requires 0 <= h < 24 && 0 <= m < 60 && 0 <= s < 60 && 0 <= us < MicrosPerSecond
    ensures InRange(t)
    ensures DayOf(t) == day && HourOf(t) == h && MinuteOf(t) == m
  {
    var within := TimeOfDay(h, m, s, us);
    AtSplits(day - 1, within);
    var t := (day - 1) * 86_400_000_000 + within;
    assert HourOf(t) == within / MicrosPerHour;
    assert MinuteOf(t) == (within % MicrosPerHour) / MicrosPerMinute;
    t
  }

  /** The instant of `date` at `h:m:s.us` falls on that date. */
  lemma AtDate(date: Date, h: int, m: int, s: int, us: int)
    requires ValidDate(date)
    requires 0 <= h < 24 && 0 <= m < 60 && 0 <= s < 60 && 0 <= us < MicrosPerSecond
    ensures ToOrdinal(date) <= MaxOrdinal
    ensures DateOf(At(ToOrdinal(date), h, m, s, us)) == date
  {
    FromToOrdinal(date);
  }

  /** Microseconds since midnight of the clock time `h:m:s.us`; hour and minute are recoverable. */
  function TimeOfDay(h: int, m: int, s: int, us: int): (w: int)
    requires 0 <= h < 24 && 0 <= m < 60 && 0 <= s < 60 && 0 <= us < MicrosPerSecond
    ensures 0 <= w < MicrosPerDay
    ensures w / MicrosPerHour == h && (w % MicrosPerHour) / MicrosPerMinute == m
  {
    var inMinute := s * MicrosPerSecond + us;
    var inHour := m * MicrosPerMinute + inMinute;
    DivMod(m, inMinute, MicrosPerMinute);
    DivMod(h, inHour, MicrosPerHour);
    h * MicrosPerHour + inHour
  }

  /** An instant splits into its day ordinal and its time of day. */
  lemma AtSplits(q: int, within: int)
    requires 0 <= q < MaxOrdinal && 0 <= within < MicrosPerDay
    ensures InRange(q * MicrosPerDay + within)
    ensures (q * MicrosPerDay + within) / MicrosPerDay == q
    ensures (q * MicrosPerDay + within) % MicrosPerDay == within
  {
    MaxInstantIsLastDay();
    DivMod(q, within, MicrosPerDay);
  }

  // ---------------------------------------------------------------------------
  // Text forms
  // ---------------------------------------------------------------------------

  /** `f"{year:04d}-{month:02d}"`, the month key of the override file. */
  function MonthKey(year: nat, month: nat): string {
    Padded(year, 4) + "-" + Padded(month, 2)
  }

  /** `f"{year:04d}-{month:02d}-{day:02d}"`, the form every stored date takes. */
  function DayKey(year: nat, month: nat, day: nat): (s: string)
    ensures StartsWith(s, MonthKey(year, month))
  {
    var s := MonthKey(year, month) + "-" + Padded(day, 2);
    assert s[..|MonthKey(year, month)|] == MonthKey(year, month);
    s
  }

  /** `date.strftime("%Y-%m-%d")` of a valid date, with the year padded to four digits. */
  function DateString(d: Date): string
    requires ValidDate(d)
  {
    DayKey(d.year, d.month, d.day)
  }

  /** The stored date spelled out: padded year, month and day with dashes between. */
  lemma DateStringText(d: Date)
    requires ValidDate(d)
    ensures DateString(d) == Padded(d.year, 4) + "-" + Padded(d.month, 2) + "-" + Padded(d.day, 2)
  {
  }

  /** `%H:%M` of an in-range instant. */
  function ClockString(t: int): string
    requires InRange(t)
  {
    Padded(HourOf(t), 2) + ":" + Padded(MinuteOf(t), 2)
  }
}
