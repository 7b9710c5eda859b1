/**
  ISO 8601 week dates (ISO 8601:2004, section 4.1.4) on the proleptic Gregorian calendar,
  as the program obtains them from Python's `datetime.date.fromisocalendar`.

  A day is its ordinal: 0001-01-01 is day 1 (a Monday) and 9999-12-31, the last day a
  date can hold, is day MaxOrdinal. Week 1 of an ISO year is the Monday-to-Sunday week
  that holds January 4th (equivalently, the year's first Thursday).
 */
module Calendar {
  import opened Wrappers

  const MinYear: int := 1
  const MaxYear: int := 9999
  /** Ordinal of 9999-12-31. */
  const MaxOrdinal: int := 3652059

  predicate IsLeap(year: int) {
    year % 4 == 0 && (year % 100 != 0 || year % 400 == 0)
  }

  /** Number of days in the years before `year`. */
  function DaysBeforeYear(year: int): (days: int)
    requires year >= 1
  {
    365 * (year - 1) + LeapYearsThrough(year - 1)
  }

  /** Number of leap years among years 1..n. */
  function LeapYearsThrough(n: int): (count: int) {
    n / 4 - n / 100 + n / 400
  }

  /** Ordinal of January 1st of `year`. */
  function Jan1(year: int): (d: int)
    requires year >= 1
    ensures d >= 1
  {
    DaysBeforeYear(year) + 1
  }

  /** ISO weekday of a day: 1 is Monday, 7 is Sunday. */
  function IsoWeekday(d: int): (wd: int)
    ensures 1 <= wd <= 7
    ensures wd == 1 <==> d % 7 == 1
  {
    (d + 6) % 7 + 1
  }

  /** The Monday that starts week 1 of ISO year `year`. */
  function Week1Monday(year: int): (monday: int)
    requires year >= 1
  {
    MondayOfWeekOne(Jan1(year))
  }

  /** Given the first day of a year, the Monday of that year's week 1. */
  function MondayOfWeekOne(first: int): (monday: int) {
    var sinceMonday := (first + 6) % 7;
    if sinceMonday > 3 then first - sinceMonday + 7 else first - sinceMonday
  }

  /** An ISO year has 53 weeks when it starts on a Thursday, or on a Wednesday in a leap year. */
  predicate HasWeek53(year: int)
    requires year >= 1
  {
    var firstWeekday := Jan1(year) % 7;
    firstWeekday == 4 || (firstWeekday == 3 && IsLeap(year))
  }

  function WeeksInYear(year: int): (n: int)
    requires year >= 1
    ensures n == 52 || n == 53
  {
    if HasWeek53(year) then 53 else 52
  }

  /** Day `d` is weekday `day` of week `week` of ISO year `year`. */
  ghost predicate IsIsoDate(d: int, year: int, week: int, day: int)
    requires year >= 1
  {
    && Week1Monday(year) <= d < Week1Monday(year + 1)
    && 1 <= day <= 7
    && d == Week1Monday(year) + 7 * (week - 1) + (day - 1)
  }

  datatype CalendarError = YearOutOfRange | InvalidWeek | InvalidWeekday | DateOutOfRange

  /**
    The day with ISO calendar date (year, week, day), or the error `fromisocalendar`
    raises: a year outside MinYear..MaxYear, a week outside 1..WeeksInYear(year), a
    weekday outside 1..7, or a day after 9999-12-31.
   */
  function FromIsoCalendar(year: int, week: int, day: int): (r: Result<int, CalendarError>)
    ensures r.Ok? ==> MinYear <= year <= MaxYear && 1 <= r.value <= MaxOrdinal
  {
    if !(MinYear <= year <= MaxYear) then Err(YearOutOfRange)
    else if !(1 <= week <= WeeksInYear(year)) then Err(InvalidWeek)
    else if !(1 <= day <= 7) then Err(InvalidWeekday)
    else
      var d := Week1Monday(year) + 7 * (week - 1) + (day - 1);
      if d > MaxOrdinal then Err(DateOutOfRange)
      else
        Week1MondayRule(year);
        Ok(d)
  }

  /** What `FromIsoCalendar` returns is the day with that ISO week date: right year, week and weekday. */
  lemma FromIsoCalendarSound(year: int, week: int, day: int)
    requires FromIsoCalendar(year, week, day).Ok?
    ensures var d := FromIsoCalendar(year, week, day).value;
            IsIsoDate(d, year, week, day) && IsoWeekday(d) == day
  {
    Week1MondayRule(year);
    IsoYearLength(year);
    WeekdayAfterMonday(Week1Monday(year), week - 1, day - 1);
  }

  /** January 1st of the next year comes 365 days later, or 366 in a leap year. */
  lemma YearLength(year: int)
    requires year >= 1
    ensures Jan1(year + 1) == Jan1(year) + (if IsLeap(year) then 366 else 365)
  {
    LeapYearStep(year - 1);
  }

  /** Counting one year further adds one leap year exactly when that year is a leap year. */
  lemma LeapYearStep(n: nat)
    ensures LeapYearsThrough(n + 1) == LeapYearsThrough(n) + (if IsLeap(n + 1) then 1 else 0)
  {
    DivStep4(n);
    DivStep100(n);
    DivStep400(n);
    DivisibilityChain(n + 1);
  }

  /** Multiples of 400 are multiples of 100, which are multiples of 4. */
  lemma DivisibilityChain(m: nat)
    ensures m % 400 == 0 ==> m % 100 == 0
    ensures m % 100 == 0 ==> m % 4 == 0
  {
    if m % 400 == 0 {
      assert m == 100 * (4 * (m / 400));
    }
    if m % 100 == 0 {
      assert m == 4 * (25 * (m / 100));
    }
  }

  lemma DivStep4(n: nat)
    ensures (n + 1) / 4 == n / 4 + (if (n + 1) % 4 == 0 then 1 else 0)
  {
    assert n == 4 * (n / 4) + n % 4;
  }

  lemma DivStep100(n: nat)
    ensures (n + 1) / 100 == n / 100 + (if (n + 1) % 100 == 0 then 1 else 0)
  {
    assert n == 100 * (n / 100) + n % 100;
  }

  lemma DivStep400(n: nat)
    ensures (n + 1) / 400 == n / 400 + (if (n + 1) % 400 == 0 then 1 else 0)
  {
    assert n == 400 * (n / 400) + n % 400;
  }

  /** Week 1 starts on a Monday and holds January 4th. */
  lemma Week1MondayRule(year: int)
    requires year >= 1
    ensures IsoWeekday(Week1Monday(year)) == 1
    ensures Week1Monday(year) <= Jan1(year) + 3 < Week1Monday(year) + 7
    ensures Week1Monday(year) >= 1
  {
    WeekOneHoldsFourth(Jan1(year));
  }

  /** The Monday of week one is a Monday, and its week holds the fourth day of the year. */
  lemma WeekOneHoldsFourth(first: int)
    requires first >= 1
    ensures IsoWeekday(MondayOfWeekOne(first)) == 1
    ensures MondayOfWeekOne(first) <= first + 3 < MondayOfWeekOne(first) + 7
    ensures first == 1 ==> MondayOfWeekOne(first) == 1
    ensures MondayOfWeekOne(first) >= first - 3
  {
    var q, r := first / 7, first % 7;
    assert first == 7 * q + r;
    assert (first + 6) % 7 == (r + 6) % 7;
  }

  /** The day `i` days into the `k`-th week after a Monday is weekday i + 1. */
  lemma WeekdayAfterMonday(monday: int, k: int, i: int)
    requires IsoWeekday(monday) == 1 && 0 <= i < 7
    ensures IsoWeekday(monday + 7 * k + i) == i + 1
  {
    var q := monday / 7;
    assert monday == 7 * q + 1;
    assert monday + 7 * k + i + 6 == 7 * (q + k + 1) + i;
  }

  /** The weeks of ISO year `year` run, without gap or overlap, up to week 1 of the next year. */
  lemma IsoYearLength(year: int)
    requires year >= 1
    ensures Week1Monday(year + 1) == Week1Monday(year) + 7 * WeeksInYear(year)
  {
    YearLength(year);
    WeekOneShift(Jan1(year), IsLeap(year));
  }

  /** Week 1 of the next year starts 52 weeks later, or 53 when the year starts on a Thursday, or on a Wednesday in a leap year. */
  lemma WeekOneShift(first: int, leap: bool)
    ensures MondayOfWeekOne(first + (if leap then 366 else 365))
         == MondayOfWeekOne(first) + 7 * (if first % 7 == 4 || (first % 7 == 3 && leap) then 53 else 52)
  {
    var len := if leap then 366 else 365;
    var q := first / 7;
    var r := first % 7;
    assert first == 7 * q + r;
    assert first + len == 7 * (q + 52) + r + (len - 364);
    assert (first + 6) % 7 == (r + 6) % 7;
    assert (first + len + 6) % 7 == (r + len - 364 + 6) % 7;
  }

  /** Later years start later. */
  lemma Jan1Monotone(a: int, b: int)
    requires 1 <= a <= b
    ensures Jan1(a) <= Jan1(b)
  {
  }

  /** The first day after year 9999 follows the last day a date can hold. */
  lemma LastDay()
    ensures Jan1(MaxYear + 1) == MaxOrdinal + 1
    ensures Week1Monday(MaxYear + 1) == MaxOrdinal + 3
  {
  }

  /** Every day of ISO week `week` up to its Friday exists, once its Monday does. */
  lemma WorkweekExists(year: int, week: int, day: int)
    requires FromIsoCalendar(year, week, 1).Ok?
    requires 1 <= day <= 5
    ensures FromIsoCalendar(year, week, day) == Ok(FromIsoCalendar(year, week, 1).value + day - 1)
  {
    FridayInRange(year, week);
  }

  /** Week `week` of ISO year `year` has a Monday exactly when the year has that week. */
  lemma MondayExists(year: int, week: int)
    requires MinYear <= year <= MaxYear
    ensures FromIsoCalendar(year, week, 1).Ok? <==> 1 <= week <= WeeksInYear(year)
  {
    if 1 <= week <= WeeksInYear(year) {
      FridayInRange(year, week);
    }
  }

  /** The Friday of every week of a supported year is a supported day, and so is its Monday. */
  lemma FridayInRange(year: int, week: int)
    requires MinYear <= year <= MaxYear && 1 <= week <= WeeksInYear(year)
    ensures 1 <= Week1Monday(year) + 7 * (week - 1)
    ensures Week1Monday(year) + 7 * (week - 1) + 4 <= MaxOrdinal
  {
    Week1MondayRule(year);
    Week1MondayRule(year + 1);
    IsoYearLength(year);
    LastDay();
    if year < MaxYear {
      Jan1Monotone(year + 1, MaxYear);
    }
  }

  /** Every day from 0001-01-01 to 9999-12-31 is obtained from its own ISO calendar date. */
  lemma FromIsoCalendarComplete(d: int, year: int, week: int, day: int)
    requires MinYear <= year <= MaxYear && 1 <= d <= MaxOrdinal
    requires IsIsoDate(d, year, week, day)
    ensures FromIsoCalendar(year, week, day) == Ok(d)
  {
    IsoYearLength(year);
  }
}
