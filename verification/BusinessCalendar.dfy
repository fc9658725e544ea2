/**
 Vietnam business-day arithmetic. A date is its day number since 1970-01-01; weekdays follow
 from it, and holidays are any finite set of dates.
 */
module BusinessCalendar {
  import opened Common

  const DAY_MS: int := 86_400_000
  /** Vietnam keeps UTC+7 all year. */
  const VIETNAM_OFFSET_MS: int := 7 * 3_600_000
  /** 16:59:59.999 UTC, the last millisecond of a Vietnam date. */
  const END_OF_DAY_MS: int := 16 * 3_600_000 + 59 * 60_000 + 59 * 1000 + 999

  type Day = int

  /** 0 for Sunday to 6 for Saturday; 1970-01-01 was a Thursday. */
  function Weekday(day: Day): nat {
    (day + 4) % 7
  }

  predicate Weekend(day: Day) {
    Weekday(day) == 0 || Weekday(day) == 6
  }

  predicate BusinessDay(day: Day, holidays: set<Day>) {
    !Weekend(day) && day !in holidays
  }

  /** Business days in (from, from + length]. */
  function Count(from: Day, length: nat, holidays: set<Day>): nat {
    if length == 0 then 0
    else Count(from, length - 1, holidays) + (if BusinessDay(from + length, holidays) then 1 else 0)
  }

  /** Weekdays in (from, from + length], holidays included. */
  function Weekdays(from: Day, length: nat): nat {
    Count(from, length, {})
  }

  lemma {:induction false} CountSplits(from: Day, a: nat, b: nat, holidays: set<Day>)
    ensures Count(from, a + b, holidays) == Count(from, a, holidays) + Count(from + a, b, holidays)
  {
    if b > 0 {
      CountSplits(from, a, b - 1, holidays);
      assert from + (a + b) == (from + a) + b;
    }
  }

  lemma {:induction false} CountGrows(from: Day, a: nat, b: nat, holidays: set<Day>)
    requires a <= b
    ensures Count(from, a, holidays) <= Count(from, b, holidays)
  {
    CountSplits(from, a, b - a, holidays);
  }

  lemma WeekdayShifts(from: Day, i: nat)
    ensures Weekday(from + i) == (Weekday(from) + i) % 7
  {
  }

  /** Any seven consecutive days hold exactly five weekdays. */
  lemma {:induction false} WeekHasFive(from: Day)
    ensures Weekdays(from, 7) == 5
  {
    WeekdayShifts(from, 1);
    WeekdayShifts(from, 2);
    WeekdayShifts(from, 3);
    WeekdayShifts(from, 4);
    WeekdayShifts(from, 5);
    WeekdayShifts(from, 6);
    WeekdayShifts(from, 7);
    assert Count(from, 1, {}) == if Weekend(from + 1) then 0 else 1;
    assert Count(from, 3, {})
        == Count(from, 1, {}) + (if Weekend(from + 2) then 0 else 1) + (if Weekend(from + 3) then 0 else 1);
    assert Count(from, 5, {})
        == Count(from, 3, {}) + (if Weekend(from + 4) then 0 else 1) + (if Weekend(from + 5) then 0 else 1);
    assert Count(from, 7, {})
        == Count(from, 5, {}) + (if Weekend(from + 6) then 0 else 1) + (if Weekend(from + 7) then 0 else 1);
  }

  lemma {:induction false} WeeksHaveFive(from: Day, weeks: nat)
    ensures Weekdays(from, 7 * weeks) == 5 * weeks
  {
    if weeks > 0 {
      WeeksHaveFive(from, weeks - 1);
      CountSplits(from, 7 * (weeks - 1), 7, {});
      WeekHasFive(from + 7 * (weeks - 1));
    }
  }

  /** Holidays take away at most as many business days as there are of them. */
  lemma {:induction false} HolidaysCostAtMostThemselves(from: Day, length: nat, holidays: set<Day>)
    ensures Count(from, length, holidays) + |holidays| >= Weekdays(from, length)
  {
    if length > 0 {
      var day := from + length;
      if day in holidays {
        var rest := holidays - {day};
        HolidaysCostAtMostThemselves(from, length - 1, rest);
        LaterHolidayIsIdle(from, length - 1, rest, day);
        assert rest + {day} == holidays;
      } else {
        HolidaysCostAtMostThemselves(from, length - 1, holidays);
      }
    }
  }

  lemma {:induction false} LaterHolidayIsIdle(from: Day, length: nat, holidays: set<Day>, day: Day)
    requires day > from + length
    ensures Count(from, length, holidays + {day}) == Count(from, length, holidays)
  {
    if length > 0 {
      LaterHolidayIsIdle(from, length - 1, holidays, day);
    }
  }

  /** The least whole number of weeks whose five-day weeks cover n business days and every holiday. */
  function WeeksNeeded(n: nat, holidays: set<Day>): nat {
    (n + |holidays| + 4) / 5
  }

  lemma {:induction false} EnoughBusinessDays(from: Day, n: nat, holidays: set<Day>)
    ensures Count(from, 7 * WeeksNeeded(n, holidays), holidays) >= n
    ensures 5 * WeeksNeeded(n, holidays) < n + |holidays| + 5
  {
    var weeks := WeeksNeeded(n, holidays);
    WeeksHaveFive(from, weeks);
    HolidaysCostAtMostThemselves(from, 7 * weeks, holidays);
  }

  /** The date exactly n business days after `from`: the earliest with n of them in (from, date]. */
  ghost predicate IsAddition(from: Day, n: nat, holidays: set<Day>, date: Day) {
    && date >= from
    && Count(from, date - from, holidays) == n
    && forall k: nat :: k < date - from ==> Count(from, k, holidays) < n
  }

  lemma {:induction false} AdditionIsUnique(from: Day, n: nat, holidays: set<Day>, a: Day, b: Day)
    requires IsAddition(from, n, holidays, a) && IsAddition(from, n, holidays, b)
    ensures a == b
  {
  }

  /** A date with n business days behind it that is one itself, or the start, is the addition. */
  lemma {:induction false} BusinessDateIsAddition(from: Day, n: nat, holidays: set<Day>, date: Day)
    requires date >= from && Count(from, date - from, holidays) == n
    requires date == from || BusinessDay(date, holidays)
    ensures IsAddition(from, n, holidays, date)
  {
    forall k: nat | k < date - from ensures Count(from, k, holidays) < n {
      CountGrows(from, k, date - from - 1, holidays);
    }
  }

  /** The least date exists, within the bound, for every start, n and finite set of holidays. */
  lemma {:induction false} AdditionExists(from: Day, n: nat, holidays: set<Day>) returns (date: Day)
    ensures IsAddition(from, n, holidays, date) && date <= from + 7 * WeeksNeeded(n, holidays)
  {
    EnoughBusinessDays(from, n, holidays);
    date := LeastDate(from, n, holidays, 7 * WeeksNeeded(n, holidays));
  }

  lemma {:induction false} LeastDate(from: Day, n: nat, holidays: set<Day>, length: nat) returns (date: Day)
    requires Count(from, length, holidays) >= n
    ensures IsAddition(from, n, holidays, date) && date <= from + length
  {
    if length > 0 && Count(from, length - 1, holidays) >= n {
      date := LeastDate(from, n, holidays, length - 1);
    } else {
      date := from + length;
      forall k: nat | k < length ensures Count(from, k, holidays) < n {
        CountGrows(from, k, length - 1, holidays);
      }
    }
  }

  // ----- dates as text and as date objects

  /** 0000-01-01 and 9999-12-31, the first and last date that YYYY-MM-DD can write. */
  const FIRST_TEXT_DAY: Day := -719_528
  const LAST_TEXT_DAY: Day := 2_932_896

  /** The last day that a date object can hold. */
  const LAST_DAY: Day := 100_000_000

  /** A date that was parsed from text. */
  type TextDay = day: Day | FIRST_TEXT_DAY <= day <= LAST_TEXT_DAY

  predicate ValidCount(n: int) { 0 <= n <= MAX_SAFE_INTEGER }

  /** There are n business days left after `from` before date objects run out. */
  predicate InRange(from: Day, n: int, holidays: set<Day>) {
    from <= LAST_DAY && n <= Count(from, LAST_DAY - from, holidays)
  }

  /** What addVietnamBusinessDays comes to: an error, a date, or ten characters that are no date. */
  datatype Sum = InvalidCount | OutOfDates | Date(day: Day) | NotADate(day: Day)

  function Printed(day: Day): Sum
    requires day >= FIRST_TEXT_DAY
  {
    if day <= LAST_TEXT_DAY then Date(day) else NotADate(day)
  }

  /**
   addVietnamBusinessDays on parsed dates: an error exactly for an unsafe count or when the walk
   leaves the range of date objects, otherwise the addition, printed as a date exactly up to the
   year 9999, and reached within 7 * ceil((n + holidays) / 5) days.
   */
  method AddBusinessDays(from: TextDay, n: int, holidays: set<TextDay>) returns (sum: Sum)
    ensures sum.InvalidCount? <==> !ValidCount(n)
    ensures sum.OutOfDates? <==> ValidCount(n) && !InRange(from, n, holidays)
    ensures sum.Date? || sum.NotADate? ==>
            IsAddition(from, n, holidays, sum.day) && sum.day <= from + 7 * WeeksNeeded(n, holidays)
    ensures sum.Date? || sum.NotADate? ==> sum.day == from || BusinessDay(sum.day, holidays)
    ensures sum.Date? ==> sum.day <= LAST_TEXT_DAY
    ensures sum.NotADate? ==> LAST_TEXT_DAY < sum.day <= LAST_DAY
  {
    if n < 0 || n > MAX_SAFE_INTEGER {
      return InvalidCount;
    }
    var date := WalkForward(from, n, holidays);
    sum := if date.None? then OutOfDates else Printed(date.value);
  }

  /** Its loop: each turn formats the new date, which fails past the last one. */
  method WalkForward(from: Day, n: nat, holidays: set<Day>) returns (date: Option<Day>)
    requires from <= LAST_DAY
    ensures date.Some? <==> InRange(from, n, holidays)
    ensures date.Some? ==> IsAddition(from, n, holidays, date.value) && date.value <= LAST_DAY
    ensures date.Some? ==> date.value == from || BusinessDay(date.value, holidays)
    ensures date.Some? ==> date.value <= from + 7 * WeeksNeeded(n, holidays)
  {
    var day := from;
    var count := 0;
    EnoughBusinessDays(from, n, holidays);
    ghost var horizon := 7 * WeeksNeeded(n, holidays);
    while count < n
      invariant from <= day <= LAST_DAY && day - from <= horizon
      invariant count == Count(from, day - from, holidays) <= n
      invariant count == n ==> day == from || BusinessDay(day, holidays)
      decreases LAST_DAY - day
    {
      day := day + 1;
      if day > LAST_DAY {
        return None;
      }
      if Weekday(day) != 0 && Weekday(day) != 6 && day !in holidays {
        count := count + 1;
      }
      assert count == Count(from, day - from, holidays);
    }
    BusinessDateIsAddition(from, n, holidays, day);
    CountGrows(from, day - from, LAST_DAY - from, holidays);
    date := Some(day);
  }

  /** Adding m and then n business days is adding m + n. */
  lemma {:induction false} AdditionComposes(from: Day, m: nat, n: nat, holidays: set<Day>, middle: Day, date: Day)
    requires IsAddition(from, m, holidays, middle) && IsAddition(middle, n, holidays, date)
    ensures IsAddition(from, m + n, holidays, date)
  {
    CountSplits(from, middle - from, date - middle, holidays);
    forall k: nat | k < date - from ensures Count(from, k, holidays) < m + n {
      if k >= middle - from {
        CountSplits(from, middle - from, k - (middle - from), holidays);
      }
    }
  }

  datatype RefundWindow = RefundWindow(notBefore: Day, due: Day)

  /** A set of days within a stretch is no larger than the stretch. */
  lemma {:induction false} DaysAreFew(days: set<Day>, from: Day, n: nat)
    requires forall day :: day in days ==> from <= day < from + n
    ensures |days| <= n
  {
    if n > 0 {
      var last := from + n - 1;
      DaysAreFew(days - {last}, from, n - 1);
      SubsetIsNoLarger(days, (days - {last}) + {last});
    } else {
      assert forall day :: day !in days;
      assert |days| == 0;
    }
  }

  /** There are fewer than four million dates to be holidays, so seven business days never run out of dates. */
  lemma {:induction false} SevenDaysFit(receipt: TextDay, holidays: set<TextDay>)
    ensures receipt + 7 * WeeksNeeded(7, holidays) <= LAST_DAY
  {
    DaysAreFew(holidays, FIRST_TEXT_DAY, 3_652_425);
  }

  /**
   The refund window's own loop: its two dates are the 5-day and the 7-day additions, and
   formatting them never fails.
   */
  method BusinessDayWindow(receipt: TextDay, holidays: set<TextDay>) returns (window: RefundWindow)
    ensures IsAddition(receipt, 5, holidays, window.notBefore)
    ensures IsAddition(receipt, 7, holidays, window.due)
    ensures window.notBefore < window.due <= LAST_DAY
  {
    SevenDaysFit(receipt, holidays);
    var cursor := receipt;
    var businessDay := 0;
    var notBefore, due := receipt, receipt;
    EnoughBusinessDays(receipt, 7, holidays);
    ghost var horizon := receipt + 7 * WeeksNeeded(7, holidays);
    while businessDay < 7
      invariant receipt <= cursor <= horizon
      invariant businessDay == Count(receipt, cursor - receipt, holidays) <= 7
      invariant businessDay >= 5 ==> IsAddition(receipt, 5, holidays, notBefore) && notBefore <= cursor
      invariant businessDay > 5 ==> notBefore < cursor
      invariant businessDay == 7 ==> IsAddition(receipt, 7, holidays, due) && notBefore < due <= horizon
      decreases horizon - cursor
    {
      cursor := cursor + 1;
      assert Count(receipt, cursor - receipt, holidays)
          == businessDay + (if BusinessDay(cursor, holidays) then 1 else 0);
      if Weekday(cursor) == 0 || Weekday(cursor) == 6 || cursor in holidays { continue; }
      businessDay := businessDay + 1;
      BusinessDateIsAddition(receipt, businessDay, holidays, cursor);
      if businessDay == 5 { notBefore := cursor; }
      if businessDay == 7 { due := cursor; }
    }
    window := RefundWindow(notBefore, due);
  }

  /** The date in Vietnam at an instant. */
  function VietnamDay(at: Instant): Day {
    (at + VIETNAM_OFFSET_MS) / DAY_MS
  }

  /** 1000-01-01, the first date whose year prints with four digits. */
  const FIRST_PADDED_DAY: Day := -354_285

  /**
   What a deadline comes to: an error; the end of the computed date; or, when ten characters of the
   printed date leave out its day, the end of the first day of that date's month.
   */
  datatype Deadline = NoDeadline | EndOf(at: Instant) | EndOfMonthStart(date: Day)

  /**
   A stored deadline: the end of the date n business days after the date of `from` in Vietnam. An
   error exactly when the year of `from` does not print with four digits, the count is refused, or
   dates run out. From the year 10000 on the day of the month is lost.
   */
  method StoredDeadline(from: Instant, n: int, holidays: set<TextDay>) returns (deadline: Deadline)
    ensures deadline.NoDeadline? <==>
              || !(FIRST_PADDED_DAY <= VietnamDay(from) <= LAST_TEXT_DAY) || !ValidCount(n)
              || !InRange(VietnamDay(from), n, holidays)
    ensures !deadline.NoDeadline? ==>
              (deadline.EndOf? <==> n <= Count(VietnamDay(from), LAST_TEXT_DAY - VietnamDay(from), holidays))
    ensures deadline.EndOf? ==>
              && ValidCount(n) && IsAddition(VietnamDay(from), n, holidays, VietnamDay(deadline.at))
              && VietnamDay(deadline.at + 1) == VietnamDay(deadline.at) + 1 && from <= deadline.at
    ensures deadline.EndOfMonthStart? ==>
              ValidCount(n) && IsAddition(VietnamDay(from), n, holidays, deadline.date) && deadline.date > LAST_TEXT_DAY
  {
    var day := VietnamDay(from);
    if day < FIRST_PADDED_DAY || day > LAST_TEXT_DAY {
      return NoDeadline;
    }
    var sum := AddBusinessDays(day, n, holidays);
    DateExactly(day, n, holidays, sum);
    match sum
    case InvalidCount => deadline := NoDeadline;
    case OutOfDates => deadline := NoDeadline;
    case NotADate(date) => deadline := EndOfMonthStart(date);
    case Date(date) =>
      EndOfDayIsLast(date);
      DayEndsLater(from, date);
      deadline := EndOf(date * DAY_MS + END_OF_DAY_MS);
  }

  /** The addition is a date that can be written exactly when n business days are left before the year 10000. */
  lemma {:induction false} DateExactly(from: TextDay, n: int, holidays: set<TextDay>, sum: Sum)
    requires sum.InvalidCount? <==> !ValidCount(n)
    requires sum.OutOfDates? <==> ValidCount(n) && !InRange(from, n, holidays)
    requires sum.Date? || sum.NotADate? ==> IsAddition(from, n, holidays, sum.day)
    requires (sum.Date? ==> sum.day <= LAST_TEXT_DAY) && (sum.NotADate? ==> LAST_TEXT_DAY < sum.day)
    ensures sum.Date? <==> ValidCount(n) && n <= Count(from, LAST_TEXT_DAY - from, holidays)
  {
    CountGrows(from, LAST_TEXT_DAY - from, LAST_DAY - from, holidays);
    if sum.Date? {
      CountGrows(from, sum.day - from, LAST_TEXT_DAY - from, holidays);
    }
  }

  /** 16:59:59.999 UTC is the last millisecond of its Vietnam date. */
  lemma EndOfDayIsLast(date: Day)
    ensures VietnamDay(date * DAY_MS + END_OF_DAY_MS) == date
    ensures VietnamDay(date * DAY_MS + END_OF_DAY_MS + 1) == date + 1
  {
  }

  lemma DayEndsLater(at: Instant, date: Day)
    requires date >= VietnamDay(at)
    ensures at <= date * DAY_MS + END_OF_DAY_MS
  {
  }

  /**
   The anchor of the week: day 2, 1970-01-03, was a Saturday. The days 7k+2 and 7k+3 are weekends
   and no others, so a day is a business day exactly when it is neither of those nor a holiday.
   */
  lemma WeekendExactly(k: int, d: Day, holidays: set<Day>)
    requires 7 * k <= d < 7 * k + 7
    ensures Weekend(d) <==> d == 7 * k + 2 || d == 7 * k + 3
    ensures BusinessDay(d, holidays) <==> d != 7 * k + 2 && d != 7 * k + 3 && d !in holidays
  {
    assert d + 4 == 7 * k + (d - 7 * k + 4);
    WeekdayShifts(7 * k, d - 7 * k);
    assert Weekday(7 * k) == 4 by {
      assert (7 * k + 4) % 7 == 4;
    }
  }

  // ----- the years behind the day numbers

  predicate LeapYear(year: nat) { year % 4 == 0 && (year % 100 != 0 || year % 400 == 0) }

  /** Days from the first day of the year 0 to the first day of this year. */
  function DaysBefore(year: nat): int {
    if year == 0 then 0 else DaysBefore(year - 1) + if LeapYear(year - 1) then 366 else 365
  }

  function OneIf(b: bool): nat { if b then 1 else 0 }

  lemma RoundedUp(year: nat)
    ensures (year + 4) / 4 == (year + 3) / 4 + OneIf(year % 4 == 0)
    ensures (year + 100) / 100 == (year + 99) / 100 + OneIf(year % 100 == 0)
    ensures (year + 400) / 400 == (year + 399) / 400 + OneIf(year % 400 == 0)
  {
  }

  lemma CenturiesAreFourfold(year: nat)
    ensures year % 400 == 0 ==> year % 100 == 0
    ensures year % 100 == 0 ==> year % 4 == 0
  {
    assert year % 400 == 0 ==> year == 100 * (4 * (year / 400));
    assert year % 100 == 0 ==> year == 4 * (25 * (year / 100));
  }

  lemma {:induction false} DaysInClosedForm(year: nat)
    ensures DaysBefore(year) == 365 * year + (year + 3) / 4 - (year + 99) / 100 + (year + 399) / 400
  {
    if year > 0 {
      var last := year - 1;
      DaysInClosedForm(last);
      RoundedUp(last);
      CenturiesAreFourfold(last);
      assert OneIf(LeapYear(last)) == OneIf(last % 4 == 0) - OneIf(last % 100 == 0) + OneIf(last % 400 == 0);
    }
  }

  /** With 1970 as day 0, dates of four digits are those of the years 0 to 9999, padded ones start with 1000. */
  lemma TextDaysAreYears()
    ensures FIRST_TEXT_DAY == DaysBefore(0) - DaysBefore(1970)
    ensures FIRST_PADDED_DAY == DaysBefore(1000) - DaysBefore(1970)
    ensures LAST_TEXT_DAY == DaysBefore(10_000) - 1 - DaysBefore(1970)
  {
    DaysInClosedForm(1000);
    DaysInClosedForm(1970);
    DaysInClosedForm(10_000);
  }
}
