/** The proleptic Gregorian calendar of Python's `datetime` module, with
    the day ordinal (`date.toordinal()`, 0001-01-01 is day 1) as the
    reference against which day stepping and `datetime + timedelta` are
    proved correct. */
module Calendar {

  import opened Wrappers

  const MinYear: int := 1
  const MaxYear: int := 9999
  /** Ordinal of 9999-12-31, the last day `datetime` can represent. */
  const MaxOrdinal: int := 3652059
  const MinutesPerDay: int := 1440
  const SecondsPerDay: int := 86400

  predicate IsLeap(year: int) {
    year % 4 == 0 && (year % 100 != 0 || year % 400 == 0)
  }

  function DaysInYear(year: int): int {
    if IsLeap(year) then 366 else 365
  }

  function DaysInMonth(year: int, month: int): (n: int)
    requires 1 <= month <= 12
    ensures 28 <= n <= 31
  {
    if month == 2 then (if IsLeap(year) then 29 else 28)
    else if month == 4 || month == 6 || month == 9 || month == 11 then 30
    else 31
  }

  /** Days of `year` that precede the first day of `month`. */
  function DaysBeforeMonth(year: int, month: int): int
    requires 1 <= month <= 12
  {
    (match month
     case 1 => 0 case 2 => 31 case 3 => 59 case 4 => 90
     case 5 => 120 case 6 => 151 case 7 => 181 case 8 => 212
     case 9 => 243 case 10 => 273 case 11 => 304 case _ => 334)
    + (if month > 2 && IsLeap(year) then 1 else 0)
  }

  /** Days before January 1 of `year`, counted from 0001-01-01; for
      years before 1 the count is negative (floor division). */
  function DaysBeforeYear(year: int): int {
    var y := year - 1;
    y * 365 + y / 4 - y / 100 + y / 400
  }

  datatype Date = Date(year: int, month: int, day: int)

  /** A day of the calendar, in any year. */
  predicate WellFormed(d: Date) {
    1 <= d.month <= 12 && 1 <= d.day <= DaysInMonth(d.year, d.month)
  }

  /** A day `datetime.date` can represent. */
  predicate ValidDate(d: Date) {
    WellFormed(d) && MinYear <= d.year <= MaxYear
  }

  /** Python's `date.toordinal()`. */
  function Ordinal(d: Date): int
    requires 1 <= d.month <= 12
  {
    DaysBeforeYear(d.year) + DaysBeforeMonth(d.year, d.month) + d.day
  }

  /** The days of the months of a year add up to the year's length. */
  lemma MonthsFillYear(year: int, month: int)
    requires 1 <= month <= 12
    ensures month < 12 ==> DaysBeforeMonth(year, month + 1) == DaysBeforeMonth(year, month) + DaysInMonth(year, month)
    ensures month == 12 ==> DaysBeforeMonth(year, month) + DaysInMonth(year, month) == DaysInYear(year)
  {
  }

  /** Floor division by 4, 100 and 400 each steps up by one exactly at the
      divisor's multiples. */
  lemma FloorDivSteps(y: int)
    ensures y / 4 - (y - 1) / 4 == (if y % 4 == 0 then 1 else 0)
    ensures y / 100 - (y - 1) / 100 == (if y % 100 == 0 then 1 else 0)
    ensures y / 400 - (y - 1) / 400 == (if y % 400 == 0 then 1 else 0)
    ensures y % 400 == 0 ==> y % 100 == 0
    ensures y % 100 == 0 ==> y % 4 == 0
  {
  }

  /** Consecutive years start `DaysInYear` days apart. */
  lemma DaysBeforeYearStep(year: int)
    ensures DaysBeforeYear(year + 1) == DaysBeforeYear(year) + DaysInYear(year)
  {
    FloorDivSteps(year);
  }

  /** Later years start after the whole of every earlier year. */
  lemma {:induction false} DaysBeforeYearMonotone(a: int, b: int)
    requires a < b
    ensures DaysBeforeYear(a) + DaysInYear(a) <= DaysBeforeYear(b)
    decreases b - a
  {
    DaysBeforeYearStep(a);
    if a + 1 < b {
      DaysBeforeYearMonotone(a + 1, b);
    }
  }

  /** The day after `d`, carrying into the next month and year. */
  function NextDay(d: Date): (r: Date)
    requires WellFormed(d)
    ensures WellFormed(r) && Ordinal(r) == Ordinal(d) + 1
  {
    MonthsFillYear(d.year, d.month);
    DaysBeforeYearStep(d.year);
    if d.day < DaysInMonth(d.year, d.month) then Date(d.year, d.month, d.day + 1)
    else if d.month < 12 then Date(d.year, d.month + 1, 1)
    else Date(d.year + 1, 1, 1)
  }

  /** The day before `d`, borrowing from the previous month and year. */
  function PreviousDay(d: Date): (r: Date)
    requires WellFormed(d)
    ensures WellFormed(r) && Ordinal(r) == Ordinal(d) - 1
  {
    DaysBeforeYearStep(d.year - 1);
    if d.day > 1 then Date(d.year, d.month, d.day - 1)
    else if d.month > 1 then
      MonthsFillYear(d.year, d.month - 1);
      Date(d.year, d.month - 1, DaysInMonth(d.year, d.month - 1))
    else
      MonthsFillYear(d.year - 1, 12);
      Date(d.year - 1, 12, 31)
  }

  /** `d` moved by `n` days, one day at a time. */
  function AddDays(d: Date, n: int): (r: Date)
    requires WellFormed(d)
    ensures WellFormed(r) && Ordinal(r) == Ordinal(d) + n
    decreases if n < 0 then -n else n
  {
    if n == 0 then d
    else if n > 0 then AddDays(NextDay(d), n - 1)
    else AddDays(PreviousDay(d), n + 1)
  }

  /** A day's ordinal lies within its year's span of ordinals. */
  lemma OrdinalWithinYear(d: Date)
    requires WellFormed(d)
    ensures DaysBeforeYear(d.year) < Ordinal(d) <= DaysBeforeYear(d.year) + DaysInYear(d.year)
  {
    if d.month < 12 {
      DaysBeforeMonthMonotone(d.year, d.month + 1, 12);
      MonthsFillYear(d.year, d.month);
    }
    MonthsFillYear(d.year, 12);
  }

  lemma DaysBeforeMonthMonotone(year: int, a: int, b: int)
    requires 1 <= a <= b <= 12
    ensures DaysBeforeMonth(year, a) <= DaysBeforeMonth(year, b)
  {
  }

  /** Distinct calendar days have distinct ordinals. */
  lemma OrdinalInjective(a: Date, b: Date)
    requires WellFormed(a) && WellFormed(b)
    requires Ordinal(a) == Ordinal(b)
    ensures a == b
  {
    OrdinalWithinYear(a);
    OrdinalWithinYear(b);
    if a.year < b.year {
      DaysBeforeYearMonotone(a.year, b.year);
    } else if b.year < a.year {
      DaysBeforeYearMonotone(b.year, a.year);
    } else if a.month < b.month {
      MonthsFillYear(a.year, a.month);
      DaysBeforeMonthMonotone(a.year, a.month + 1, b.month);
    } else if b.month < a.month {
      MonthsFillYear(a.year, b.month);
      DaysBeforeMonthMonotone(a.year, b.month + 1, a.month);
    }
  }

  /** A calendar day is representable by `datetime.date` exactly when its
      ordinal lies in 1..MaxOrdinal, the range Python checks. */
  lemma ValidIffOrdinalInRange(d: Date)
    requires WellFormed(d)
    ensures ValidDate(d) <==> 1 <= Ordinal(d) <= MaxOrdinal
  {
    OrdinalWithinYear(d);
    assert DaysBeforeYear(MinYear) == 0;
    assert DaysBeforeYear(MaxYear + 1) == MaxOrdinal;
    if d.year < MinYear {
      DaysBeforeYearMonotone(d.year, MinYear);
    } else if d.year > MinYear {
      DaysBeforeYearMonotone(MinYear, d.year);
    }
    if d.year < MaxYear + 1 {
      DaysBeforeYearStep(d.year);
      if d.year + 1 < MaxYear + 1 {
        DaysBeforeYearMonotone(d.year + 1, MaxYear + 1);
      }
    } else if d.year > MaxYear + 1 {
      DaysBeforeYearMonotone(MaxYear + 1, d.year);
    }
  }

  // ---------------------------------------------------------------------
  // Date and time of day
  // ---------------------------------------------------------------------

  /** A naive `datetime` with whole seconds (the codec never carries
      microseconds). */
  datatype DateTime = DateTime(date: Date, hour: int, minute: int, second: int)

  predicate ValidDateTime(t: DateTime) {
    && ValidDate(t.date)
    && 0 <= t.hour < 24
    && 0 <= t.minute < 60
    && 0 <= t.second < 60
  }

  /** The instant `t` names, in seconds since the start of day 0. */
  function Seconds(t: DateTime): int
    requires 1 <= t.date.month <= 12
  {
    ((Ordinal(t.date) * 24 + t.hour) * 60 + t.minute) * 60 + t.second
  }

  /** Distinct valid datetimes name distinct instants. */
  lemma SecondsInjective(a: DateTime, b: DateTime)
    requires ValidDateTime(a) && ValidDateTime(b)
    requires Seconds(a) == Seconds(b)
    ensures a == b
  {
    var ta := (a.hour * 60 + a.minute) * 60 + a.second;
    var tb := (b.hour * 60 + b.minute) * 60 + b.second;
    assert Seconds(a) == Ordinal(a.date) * SecondsPerDay + ta;
    assert Seconds(b) == Ordinal(b.date) * SecondsPerDay + tb;
    assert 0 <= ta < SecondsPerDay && 0 <= tb < SecondsPerDay;
    OrdinalInjective(a.date, b.date);
  }

  /** Python's `t + timedelta(minutes=minutes)`: the minutes are added to
      the time of day, whole days carry into the date, and a result outside
      the years 1..9999 raises `OverflowError`. Success comes exactly when
      the target instant is one `datetime` can represent, and the result
      is the valid datetime at that instant. */
  function AddMinutes(t: DateTime, minutes: int): (r: Result<DateTime>)
    requires ValidDateTime(t)
    ensures r.Success? <==> SecondsPerDay <= Seconds(t) + 60 * minutes < (MaxOrdinal + 1) * SecondsPerDay
    ensures r.Success? ==> ValidDateTime(r.value) && Seconds(r.value) == Seconds(t) + 60 * minutes
    ensures r.Failure? ==> r.error == OverflowError("date value out of range")
  {
    var total := t.hour * 60 + t.minute + minutes;
    var days := total / MinutesPerDay;
    var rest := total % MinutesPerDay;
    var ordinal := Ordinal(t.date) + days;
    assert Seconds(t) + 60 * minutes == (ordinal * MinutesPerDay + rest) * 60 + t.second;
    if ordinal < 1 || ordinal > MaxOrdinal then
      Failure(OverflowError("date value out of range"))
    else
      var d := AddDays(t.date, days);
      ValidIffOrdinalInRange(d);
      Success(DateTime(d, rest / 60, rest % 60, t.second))
  }
}
