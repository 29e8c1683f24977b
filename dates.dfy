/** JavaScript `Date` arithmetic reduced to what the calendar needs.

    A timestamp is a count of milliseconds of local time since local midnight
    of 1970-01-01; time zones and daylight-saving shifts are not modelled, so
    every day is exactly `DayLength` long. Months are 0-based, as in
    `new Date(year, month, day)`. */
module Dates {
  import opened Wrappers

  type Timestamp = int

  const DayLength: int := 86_400_000

  /** The calendar day a timestamp falls on, counted from 1970-01-01. */
  function DayOf(t: Timestamp): int {
    t / DayLength
  }

  /** `isSameDay(a, b)` from the date helpers: the same calendar day, and false
      when the second argument is `null`. */
  predicate IsSameDay(a: Timestamp, b: Option<Timestamp>)
    ensures IsSameDay(a, b) ==> b.Some? && -DayLength < a - b.value < DayLength
    ensures b.Some? && b.value % DayLength == 0 ==>
              (IsSameDay(a, b) <==> b.value <= a < b.value + DayLength)
  {
    b.Some? && DayOf(a) == DayOf(b.value)
  }

  /** `d.setDate(d.getDate() + 1)`: the same time of day, one day later. */
  function NextDay(t: Timestamp): (r: Timestamp)
    ensures DayOf(r) == DayOf(t) + 1
    ensures r % DayLength == t % DayLength
  {
    t + DayLength
  }

  predicate IsLeapYear(year: int) {
    year % 4 == 0 && (year % 100 != 0 || year % 400 == 0)
  }

  /** The number of days in `month` (0-based) of `year`. */
  function DaysInMonth(year: int, month: int): (n: int)
    requires 0 <= month < 12
    ensures 28 <= n <= 31
    ensures n == 29 <==> month == 1 && IsLeapYear(year)
  {
    if month == 1 then (if IsLeapYear(year) then 29 else 28)
    else if month == 3 || month == 5 || month == 8 || month == 10 then 30
    else 31
  }

  /** Days since 1970-01-01 of a proleptic Gregorian date, `month1` 1-based;
      `day` may lie outside the month, as `new Date` allows. The year is
      counted from March so that the leap day ends it. */
  function DaysFromCivil(year: int, month1: int, day: int): int
    requires 1 <= month1 <= 12
  {
    var y := if month1 <= 2 then year - 1 else year;
    var era := y / 400;
    var yoe := y % 400;
    var mp := if month1 > 2 then month1 - 3 else month1 + 9;
    var doy := (153 * mp + 2) / 5 + day - 1;
    var doe := yoe * 365 + yoe / 4 - yoe / 100 + doy;
    era * 146097 + doe - 719468
  }

  /** The year `new Date(year, month, day)` works with: a year argument of
      0..99 stands for 1900..1999 (MakeFullYear in ECMAScript). */
  function FullYear(year: int): (y: int)
    ensures 0 <= year <= 99 ==> y == 1900 + year
    ensures !(0 <= year <= 99) ==> y == year
  {
    if 0 <= year <= 99 then 1900 + year else year
  }

  /** The day number of the full-year date (`year`, `month`, `day`), where a
      month outside 0..11 rolls over into the neighbouring years and a day
      outside the month into the neighbouring months (MakeDay in ECMAScript). */
  function DayNumber(year: int, month: int, day: int): (n: int)
    ensures 0 <= month < 12 ==> n == DaysFromCivil(year, month + 1, 1) + day - 1
  {
    // the first branch is the second one for a month in range
    if 0 <= month < 12 then DaysFromCivil(year, month + 1, day)
    else DaysFromCivil(year + month / 12, month % 12 + 1, day)
  }

  /** Any month, in range or not, counts from the first of the month it rolls
      over to: `month / 12` years on, at month `month % 12`. */
  lemma DayNumberRollOver(year: int, month: int, day: int)
    ensures DayNumber(year, month, day) == DaysFromCivil(year + month / 12, month % 12 + 1, 1) + day - 1
  {
    if 0 <= month < 12 {
      assert month / 12 == 0 && month % 12 == month;
    }
  }

  /** The timestamp of `new Date(year, month, day)`: local midnight. */
  function Midnight(year: int, month: int, day: int): (t: Timestamp)
    ensures DayOf(t) == DayNumber(FullYear(year), month, day)
    ensures t % DayLength == 0
  {
    DayNumber(FullYear(year), month, day) * DayLength
  }

  /** `getDay()`: 0 for Sunday up to 6 for Saturday; 1970-01-01 was a Thursday. */
  function Weekday(t: Timestamp): (w: int)
    ensures 0 <= w < 7
  {
    (DayOf(t) + 4) % 7
  }

  /** A calendar position as `getFullYear()`, `getMonth()`, `getDate()` see it. */
  datatype CalendarDate = CalendarDate(year: int, month: int, day: int)

  /** The calendar position of `new Date(year, month, 1)`: a year argument of
      0..99 stands for 1900..1999, and a month outside 0..11 rolls over into
      the neighbouring years. */
  function MonthStart(year: int, month: int): (c: CalendarDate)
    ensures 0 <= c.month < 12 && c.day == 1
    ensures c.year * 12 + c.month == FullYear(year) * 12 + month
  {
    var y := FullYear(year);
    CalendarDate(y + month / 12, month % 12, 1)
  }

  /** The position `MonthStart` reports is the day `new Date(year, month, 1)` falls on. */
  lemma MonthStartDay(year: int, month: int)
    ensures var c := MonthStart(year, month);
            DayNumber(c.year, c.month, c.day) == DayOf(Midnight(year, month, 1))
  {
    DayNumberRollOver(FullYear(year), month, 1);
  }

  /** A month in range of a year outside 0..99 is kept as it is. */
  lemma MonthStartCanonical(year: int, month: int)
    requires 0 <= month < 12 && !(0 <= year <= 99)
    ensures MonthStart(year, month) == CalendarDate(year, month, 1)
  {
  }

  /** Days-from-civil of the first of March of the year whose leap day ends it,
      without the epoch offset. */
  function MarchFirst(y: int): int {
    (y / 400) * 146097 + (y % 400) * 365 + (y % 400) / 4 - (y % 400) / 100
  }

  /** Stepping back one from `y` against a positive divisor `k`. */
  lemma PredDivMod(y: int, k: int)
    requires k == 4 || k == 100 || k == 400
    ensures y % k == 0 ==> (y - 1) / k == y / k - 1 && (y - 1) % k == k - 1
    ensures y % k != 0 ==> (y - 1) / k == y / k && (y - 1) % k == y % k - 1
  {
  }

  /** The remainder by 400 keeps the remainders by 4 and by 100. */
  lemma ModOf400(y: int)
    ensures y % 4 == (y % 400) % 4 && y % 100 == (y % 400) % 100
  {
    var q, r := y / 400, y % 400;
    RemainderOfMultiple(y, 4, 100 * q, r);
    RemainderOfMultiple(y, 100, 4 * q, r);
  }

  /** Adding a multiple of `m` does not change the remainder by `m`. */
  lemma RemainderOfMultiple(y: int, m: int, k: int, r: int)
    requires m == 4 || m == 100
    requires y == m * k + r
    ensures y % m == r % m
  {
    var t := k + r / m - y / m;
    assert y % m - r % m == m * t;
  }

  /** From one first of March to the next there are 365 days, or 366 when
      the second year has a leap day. */
  lemma {:induction false} MarchToMarch(y: int)
    ensures MarchFirst(y) - MarchFirst(y - 1) == if IsLeapYear(y) then 366 else 365
  {
    var r := y % 400;
    ModOf400(y);
    PredDivMod(y, 400);
    if r != 0 {
      PredDivMod(r, 4);
      PredDivMod(r, 100);
    }
  }

  /** Days-from-civil as the first of March of its counting year plus the
      offset of the month within that year. */
  lemma CivilFromMarch(year: int, month1: int, day: int)
    requires 1 <= month1 <= 12
    ensures DaysFromCivil(year, month1, day) ==
            MarchFirst(if month1 <= 2 then year - 1 else year)
            + MonthOffset(month1) + day - 1 - 719468
  {
  }

  /** Days from the first of March to the first of `month1` (1-based). */
  function MonthOffset(month1: int): int
    requires 1 <= month1 <= 12
  {
    var mp := if month1 > 2 then month1 - 3 else month1 + 9;
    (153 * mp + 2) / 5
  }

  /** Day 0 of the following month is the last day of this month: the rule
      `new Date(year, month + 1, 0).getDate()` relies on to count the days. */
  lemma DayZeroOfNextMonth(year: int, month: int)
    requires 0 <= month < 12
    ensures Midnight(year, month + 1, 0) == Midnight(year, month, DaysInMonth(FullYear(year), month))
  {
    LastDayIsDayZero(FullYear(year), month);
  }

  /** `DayZeroOfNextMonth` on a full year. */
  lemma LastDayIsDayZero(y: int, month: int)
    requires 0 <= month < 12
    ensures DayNumber(y, month + 1, 0) == DayNumber(y, month, DaysInMonth(y, month))
  {
    var n := DaysInMonth(y, month);
    DayNumberInRange(y, month, n);
    if month == 11 {
      NextJanuary(y, 0);
      DecemberEnd(y);
    } else {
      DayNumberInRange(y, month + 1, 0);
      MonthEnd(y, month + 1);
    }
  }

  /** Within 0..11 the day number is days-from-civil of the 1-based month. */
  lemma DayNumberInRange(y: int, month: int, day: int)
    requires 0 <= month < 12
    ensures DayNumber(y, month, day) == DaysFromCivil(y, month + 1, day)
  {
    assert month / 12 == 0 && month % 12 == month;
  }

  /** Month 12 is January of the following year. */
  lemma NextJanuary(y: int, day: int)
    ensures DayNumber(y, 12, day) == DaysFromCivil(y + 1, 1, day)
  {
    assert 12 / 12 == 1 && 12 % 12 == 0;
  }

  /** Day 0 of January is the 31st of December of the year before. */
  lemma DecemberEnd(y: int)
    ensures DaysFromCivil(y + 1, 1, 0) == DaysFromCivil(y, 12, 31)
  {
    CivilFromMarch(y, 12, 31);
    CivilFromMarch(y + 1, 1, 0);
    assert MonthOffset(1) == MonthOffset(12) + 31;
  }

  /** Day 0 of the 1-based month `next` (2..12) is the last day of the month before. */
  lemma {:induction false} MonthEnd(y: int, next: int)
    requires 1 <= next < 12
    ensures DaysFromCivil(y, next + 1, 0) == DaysFromCivil(y, next, DaysInMonth(y, next - 1))
  {
    var n := DaysInMonth(y, next - 1);
    CivilFromMarch(y, next, n);
    CivilFromMarch(y, next + 1, 0);
    if next == 2 {
      MarchToMarch(y);
      assert MonthOffset(3) == 0 && MonthOffset(2) == 337;
    } else {
      assert MonthOffset(next + 1) == MonthOffset(next) + n;
    }
  }
}
