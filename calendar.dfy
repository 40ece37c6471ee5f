/**
 * Gregorian calendar arithmetic as JavaScript's `Date` performs it on the
 * civil (year, month, day) fields, with zero-based months as `getMonth`
 * returns them, and the 'yyyy-MM-dd' rendering of date-fns `format`.
 */
module Calendar {
  import Text

  predicate IsLeapYear(year: int) {
    year % 4 == 0 && (year % 100 != 0 || year % 400 == 0)
  }

  /** Number of days of a month; `month` is zero-based (0 = January). */
  function DaysInMonth(year: int, month: int): (n: int)
    requires 0 <= month < 12
    ensures 28 <= n <= 31
    ensures n == 29 <==> month == 1 && IsLeapYear(year)
  {
    if month == 1 then (if IsLeapYear(year) then 29 else 28)
    else if month == 3 || month == 5 || month == 8 || month == 10 then 30
    else 31
  }

  /** A civil date; `month` is zero-based. */
  datatype Date = Date(year: int, month: int, day: int)

  predicate ValidDate(d: Date) {
    0 <= d.month < 12 && 1 <= d.day <= DaysInMonth(d.year, d.month)
  }

  /** Months elapsed since January of year 0: the quantity `setMonth` shifts. */
  function MonthIndex(d: Date): int {
    d.year * 12 + d.month
  }

  /**
   * `d.setMonth(d.getMonth() + n)`: the year carries (floor division, also
   * for negative month numbers), and a day past the end of the target month
   * rolls forward into the month after it.
   */
  function AddMonths(d: Date, n: int): (r: Date)
    requires ValidDate(d)
    ensures ValidDate(r)
    ensures var t := MonthIndex(d) + n;
      var len := DaysInMonth(t / 12, t % 12);
      if d.day <= len then MonthIndex(r) == t && r.day == d.day
      else MonthIndex(r) == t + 1 && r.day == d.day - len && r.day <= 3
  {
    var total := MonthIndex(d) + n;
    var year, month := total / 12, total % 12;
    var len := DaysInMonth(year, month);
    if d.day <= len then Date(year, month, d.day)
    else if month == 11 then Date(year + 1, 0, d.day - len)
    else Date(year, month + 1, d.day - len)
  }

  /** A valid date is determined by its month index and its day. */
  lemma {:induction false} DateFromMonthIndex(a: Date, b: Date)
    requires ValidDate(a) && ValidDate(b)
    requires MonthIndex(a) == MonthIndex(b) && a.day == b.day
    ensures a == b
  {
    assert a.year * 12 + a.month == b.year * 12 + b.month;
  }

  /** Advancing by zero months leaves a valid date unchanged. */
  lemma {:induction false} AddZeroMonths(d: Date)
    requires ValidDate(d)
    ensures AddMonths(d, 0) == d
  {
    var t := MonthIndex(d);
    assert t / 12 == d.year && t % 12 == d.month;
    DateFromMonthIndex(AddMonths(d, 0), d);
  }

  /** A day that every month has (1 to 28) is kept, and the month index moves by exactly `n`. */
  lemma {:induction false} AddMonthsKeepsEarlyDay(d: Date, n: int)
    requires ValidDate(d) && d.day <= 28
    ensures AddMonths(d, n).day == d.day
    ensures MonthIndex(AddMonths(d, n)) == MonthIndex(d) + n
  {
  }

  /**
   * The year date-fns prints for `yyyy`: the year of the era, so year 0
   * (1 BC) prints as 1 and a year `y <= 0` as `1 - y`; it never throws.
   */
  function EraYear(year: int): (n: nat)
    ensures n >= 1
    ensures year >= 1 ==> n == year
  {
    if year > 0 then year else 1 - year
  }

  /** 'yyyy-MM-dd' for a civil date, the year printed as its era year. */
  function FormatDay(year: int, month: int, day: int): (s: string)
    requires 0 <= month < 12 && 1 <= day <= 31
    ensures |s| >= 10
    ensures s[|s| - 2..] == Text.TwoDigits(day)
  {
    Text.PadZeros(EraYear(year), 4) + "-" + Text.TwoDigits(month + 1) + "-" + Text.TwoDigits(day)
  }

  /** A year before year 1 prints like its era year: year 0 as 0001, year -1 as 0002. */
  lemma EraYearsPrintAlike(y: int, month: int, day: int)
    requires y >= 1 && 0 <= month < 12 && 1 <= day <= 31
    ensures FormatDay(1 - y, month, day) == FormatDay(y, month, day)
  {
  }

  /** Within one month, different days print as different strings. */
  lemma {:induction false} FormatDayInjective(year: int, month: int, a: int, b: int)
    requires 0 <= month < 12 && 1 <= a <= 31 && 1 <= b <= 31
    requires FormatDay(year, month, a) == FormatDay(year, month, b)
    ensures a == b
  {
    Text.TwoDigitsInjective(a, b);
  }

  // ---------------------------------------------------------------------
  // Day numbers: the days-since-epoch part of a JavaScript time value
  // ---------------------------------------------------------------------

  /** The day after a valid date. */
  function NextDay(d: Date): (r: Date)
    requires ValidDate(d)
    ensures ValidDate(r)
  {
    if d.day < DaysInMonth(d.year, d.month) then Date(d.year, d.month, d.day + 1)
    else if d.month < 11 then Date(d.year, d.month + 1, 1)
    else Date(d.year + 1, 0, 1)
  }

  /**
   * The first day of the year that starts on 1 March of `y`, counted from
   * 1970-01-01: 400-year eras of 146097 days, then 365 days a year plus the
   * leap days before it within the era.
   */
  function MarchYearStart(y: int): int {
    var era := y / 400;
    var yoe := y - era * 400;
    era * 146097 + yoe * 365 + yoe / 4 - yoe / 100 - 719468
  }

  /** Days from 1 March to the first of month `mp` of a March-based year (0 = March, 11 = February). */
  function MonthOffset(mp: int): int {
    (153 * mp + 2) / 5
  }

  /**
   * The number of days from 1970-01-01 to a valid date in the proleptic
   * Gregorian calendar, negative before it: `Day(t)` of ECMAScript's time
   * values. January and February count as the end of the previous year.
   */
  function DaysFromEpoch(d: Date): int
    requires ValidDate(d)
  {
    var y := if d.month < 2 then d.year - 1 else d.year;
    var mp := if d.month < 2 then d.month + 10 else d.month - 2;
    MarchYearStart(y) + MonthOffset(mp) + d.day - 1
  }

  /** The epoch is day 0. */
  lemma EpochIsDayZero()
    ensures DaysFromEpoch(Date(1970, 0, 1)) == 0
  {
    assert 1969 / 400 == 4;
    assert MarchYearStart(1969) == -306;
    assert MonthOffset(10) == 306;
  }

  /** Consecutive dates have consecutive day numbers, so the numbering has no gaps and no repeats. */
  lemma {:induction false} NextDayIsOneLater(d: Date)
    requires ValidDate(d)
    ensures DaysFromEpoch(NextDay(d)) == DaysFromEpoch(d) + 1
  {
    if d.day < DaysInMonth(d.year, d.month) {
    } else if d.month == 1 {
      MarchYearStep(d.year - 1);
      assert MonthOffset(11) == 337 && MonthOffset(0) == 0;
    } else if d.month < 11 {
      MonthOffsetStep(d.month, d.year);
    } else {
      assert MonthOffset(9) == 275 && MonthOffset(10) == 306;
    }
  }

  lemma MonthOffsetStep(month: int, year: int)
    requires 0 <= month < 12 && month != 1
    ensures var mp := if month < 2 then month + 10 else month - 2;
      MonthOffset(mp + 1) == MonthOffset(mp) + DaysInMonth(year, month)
  {
  }

  lemma YearOfEraStep(yoe: int)
    requires 0 <= yoe < 399
    ensures (yoe + 1) * 365 + (yoe + 1) / 4 - (yoe + 1) / 100 ==
      yoe * 365 + yoe / 4 - yoe / 100 + 365 + (if IsLeapYear(yoe + 1) then 1 else 0)
  {
  }

  /** Leap years repeat every 400 years. */
  lemma LeapShift(era: int, r: int)
    ensures IsLeapYear(era * 400 + r) == IsLeapYear(r)
  {
    Shift4(era * 100, r);
    Shift100(era * 4, r);
    Shift400(era, r);
  }

  lemma Shift4(k: int, r: int)
    ensures (4 * k + r) % 4 == r % 4
  {
  }

  lemma Shift100(k: int, r: int)
    ensures (100 * k + r) % 100 == r % 100
  {
  }

  lemma Shift400(k: int, r: int)
    ensures (400 * k + r) % 400 == r % 400
  {
  }

  /** A March-based year is 366 days long exactly when the following February has 29 days. */
  lemma {:induction false} MarchYearStep(y: int)
    ensures MarchYearStart(y + 1) == MarchYearStart(y) + 365 + (if IsLeapYear(y + 1) then 1 else 0)
  {
    var era := y / 400;
    var yoe := y - era * 400;
    LeapShift(era, yoe + 1);
    if yoe < 399 {
      assert (y + 1) / 400 == era;
      YearOfEraStep(yoe);
    } else {
      assert (y + 1) / 400 == era + 1;
    }
  }
}
