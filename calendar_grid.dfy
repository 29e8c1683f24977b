/** The Monday-first month grid of the dashboard's calendar. */
module CalendarGrid {
  import opened Wrappers
  import opened Dates
  import Lists

  /** A cell of the grid: a padding slot (`null`) or local midnight of a day. */
  type Cell = Option<Timestamp>

  /** The column of a day in a Monday-first week: Monday 0, …, Sunday 6. */
  function Column(t: Timestamp): (c: int)
    ensures 0 <= c < 7
  {
    (Weekday(t) + 6) % 7
  }

  /** The number of padding slots before the first of the month: the first's
      `getDay()` with Sunday (0) turned into 6 and every other day moved down one. */
  function LeadingBlanks(year: int, month: int): (offset: int)
    requires 0 <= month < 12
    ensures 0 <= offset < 7
    ensures offset == Column(Midnight(year, month, 1))
  {
    var firstDayOfWeek := Weekday(Midnight(year, month, 1));
    if firstDayOfWeek == 0 then 6 else firstDayOfWeek - 1
  }

  /** Padding slots that complete the last week after `filled` cells. */
  function TrailingBlanks(filled: int): (pad: int)
    requires filled >= 0
    ensures 0 <= pad < 7 && (filled + pad) % 7 == 0
  {
    (7 - filled % 7) % 7
  }

  function Blanks(n: nat): seq<Cell> {
    seq(n, _ => None)
  }

  /** The days of `month` (0-based) of `year` in order, each at midnight. */
  function MonthDays(year: int, month: int): (days: seq<Cell>)
    requires 0 <= month < 12
    ensures |days| == DaysInMonth(FullYear(year), month)
    ensures forall i :: 0 <= i < |days| ==> days[i] == Some(Midnight(year, month, i + 1))
  {
    var n := DaysInMonth(FullYear(year), month);
    seq(n, i requires 0 <= i < n => Some(Midnight(year, month, i + 1)))
  }

  /** The grid for `month` (0-based) of `year`: the leading padding, every day of
      the month in order, and the padding that completes the last week. */
  function MonthGrid(year: int, month: int): (g: seq<Cell>)
    requires 0 <= month < 12
    ensures |g| % 7 == 0
    ensures forall k :: 0 <= k < |g| ==>
              (g[k].Some? <==> LeadingBlanks(year, month) <= k < LeadingBlanks(year, month) + DaysInMonth(FullYear(year), month))
  {
    var offset := LeadingBlanks(year, month);
    var days := MonthDays(year, month);
    Blanks(offset) + days + Blanks(TrailingBlanks(offset + |days|))
  }

  /** `generateMonthGrid(year, month)`: pushes the leading `null`s, one date per
      day, then `null`s until the length is a multiple of seven. */
  method GenerateMonthGrid(year: int, month: int) returns (daysArray: seq<Cell>)
    requires 0 <= month < 12
    ensures daysArray == MonthGrid(year, month)
  {
    var firstDay := Midnight(year, month, 1);
    var daysInMonth := DaysInMonth(FullYear(year), month);
    var firstDayOfWeek := Weekday(firstDay);
    var offset := if firstDayOfWeek == 0 then 6 else firstDayOfWeek - 1;
    assert offset == LeadingBlanks(year, month);

    ghost var days := MonthDays(year, month);
    ghost var pad := TrailingBlanks(offset + daysInMonth);

    daysArray := [];
    for i := 0 to offset
      invariant daysArray == Blanks(i)
    {
      daysArray := daysArray + [None];
    }

    for d := 1 to daysInMonth + 1
      invariant daysArray == Blanks(offset) + days[..d - 1]
    {
      assert days[..d] == days[..d - 1] + [Some(Midnight(year, month, d))];
      daysArray := daysArray + [Some(Midnight(year, month, d))];
    }
    assert days[..daysInMonth] == days;

    while |daysArray| % 7 != 0
      invariant offset + daysInMonth <= |daysArray| <= offset + daysInMonth + pad
      invariant daysArray == Blanks(offset) + days + Blanks(|daysArray| - offset - daysInMonth)
      decreases offset + daysInMonth + pad - |daysArray|
    {
      daysArray := daysArray + [None];
    }
    OnlyPadding(offset + daysInMonth, |daysArray| - offset - daysInMonth);
  }

  /** The padding that completes a week is the only one shorter than a week. */
  lemma OnlyPadding(filled: int, pad: int)
    requires filled >= 0 && 0 <= pad < 7 && (filled + pad) % 7 == 0
    ensures pad == TrailingBlanks(filled)
  {
  }

  /** The grid is whole weeks: between four and six of them, with fewer than
      seven padding slots at each end. */
  lemma GridShape(year: int, month: int)
    requires 0 <= month < 12
    ensures var g := MonthGrid(year, month);
            |g| % 7 == 0 && 28 <= |g| <= 42
            && |g| - LeadingBlanks(year, month) - DaysInMonth(FullYear(year), month) < 7
  {
  }

  /** Cell `offset + d - 1` holds day `d`; every other cell is padding, the
      leading ones before the first and the trailing ones after the last day. */
  lemma {:induction false} GridCells(year: int, month: int)
    requires 0 <= month < 12
    ensures var g := MonthGrid(year, month);
            var offset := LeadingBlanks(year, month);
            var n := DaysInMonth(FullYear(year), month);
            (forall k :: 0 <= k < offset ==> g[k] == None)
            && (forall d :: 1 <= d <= n ==> g[offset + d - 1] == Some(Midnight(year, month, d)))
            && (forall k :: offset + n <= k < |g| ==> g[k] == None)
  {
    var g := MonthGrid(year, month);
    var offset := LeadingBlanks(year, month);
    var n := DaysInMonth(FullYear(year), month);
    forall d | 1 <= d <= n
      ensures g[offset + d - 1] == Some(Midnight(year, month, d))
    {
    }
  }

  predicate IsDate(c: Cell) {
    c.Some?
  }

  /** Exactly `DaysInMonth` cells hold a date, and they are the month's days in order. */
  lemma {:induction false} GridDays(year: int, month: int)
    requires 0 <= month < 12
    ensures var n := DaysInMonth(FullYear(year), month);
            var days := Lists.Filter(MonthGrid(year, month), IsDate);
            |days| == n && forall i :: 0 <= i < n ==> days[i] == Some(Midnight(year, month, i + 1))
  {
    var offset := LeadingBlanks(year, month);
    var days := MonthDays(year, month);
    PaddedDates(offset, days, TrailingBlanks(offset + |days|));
  }

  /** Filtering the dates out of padded dates gives the dates. */
  lemma {:induction false} PaddedDates(lead: nat, days: seq<Cell>, trail: nat)
    requires forall i :: 0 <= i < |days| ==> days[i].Some?
    ensures Lists.Filter(Blanks(lead) + days + Blanks(trail), IsDate) == days
  {
    Lists.FilterConcat(Blanks(lead) + days, Blanks(trail), IsDate);
    Lists.FilterConcat(Blanks(lead), days, IsDate);
    FilterBlanks(Blanks(lead));
    FilterBlanks(Blanks(trail));
    FilterDates(days);
  }

  lemma {:induction false} FilterBlanks(s: seq<Cell>)
    requires forall i :: 0 <= i < |s| ==> s[i].None?
    ensures Lists.Filter(s, IsDate) == []
  {
    if s != [] {
      FilterBlanks(s[1..]);
    }
  }

  lemma {:induction false} FilterDates(s: seq<Cell>)
    requires forall i :: 0 <= i < |s| ==> s[i].Some?
    ensures Lists.Filter(s, IsDate) == s
  {
    if s != [] {
      FilterDates(s[1..]);
    }
  }

  /** Every date stands in the column of its weekday: the cell at index `k`
      holds a day whose Monday-first column is `k % 7`. */
  lemma {:induction false} GridColumns(year: int, month: int)
    requires 0 <= month < 12
    ensures var g := MonthGrid(year, month);
            forall k :: 0 <= k < |g| && g[k].Some? ==> Column(g[k].value) == k % 7
  {
    var g := MonthGrid(year, month);
    var offset := LeadingBlanks(year, month);
    forall k | 0 <= k < |g| && g[k].Some?
      ensures Column(g[k].value) == k % 7
    {
      GridCell(year, month, k);
      DayColumn(year, month, k - offset + 1);
    }
  }

  /** A dated cell `k` holds day `k - offset + 1`. */
  lemma GridCell(year: int, month: int, k: int)
    requires 0 <= month < 12 && 0 <= k < |MonthGrid(year, month)|
    ensures var offset := LeadingBlanks(year, month);
            var g := MonthGrid(year, month);
            g[k].Some? ==>
              offset <= k < offset + DaysInMonth(FullYear(year), month)
              && g[k] == Some(Midnight(year, month, k - offset + 1))
  {
    var offset := LeadingBlanks(year, month);
    var days := MonthDays(year, month);
    var trail := Blanks(TrailingBlanks(offset + |days|));
    var g := MonthGrid(year, month);
    assert g == Blanks(offset) + days + trail;
    if k < offset {
      assert g[k] == Blanks(offset)[k];
    } else if k < offset + |days| {
      assert g[k] == days[k - offset];
    } else {
      assert g[k] == trail[k - offset - |days|];
    }
  }

  /** Day `d` of the month stands `d - 1` columns after the first of the month. */
  lemma DayColumn(year: int, month: int, d: int)
    requires 0 <= month < 12
    ensures Column(Midnight(year, month, d)) == (LeadingBlanks(year, month) + d - 1) % 7
  {
    var first := DayNumber(FullYear(year), month, 1);
    assert DayOf(Midnight(year, month, d)) == first + d - 1;
    assert DayOf(Midnight(year, month, 1)) == first;
    ShiftedColumn(first, LeadingBlanks(year, month), d);
  }

  /** The column arithmetic behind `GridColumns`. */
  lemma ShiftedColumn(first: int, offset: int, d: int)
    requires offset == ((first + 4) % 7 + 6) % 7
    ensures (((first + d - 1) + 4) % 7 + 6) % 7 == (offset + d - 1) % 7
  {
  }

  /** A year argument of 0..99 shows the month of 1900..1999: the grid of
      December 99 is that of December 1999. */
  lemma FullYearGrid(year: int, month: int)
    requires 0 <= month < 12
    ensures MonthGrid(year, month) == MonthGrid(FullYear(year), month)
  {
    assert FullYear(FullYear(year)) == FullYear(year);
  }

  /** August 2025 starts on a Friday: four padding slots, 31 days, five weeks. */
  lemma August2025()
    ensures Weekday(Midnight(2025, 7, 1)) == 5
    ensures LeadingBlanks(2025, 7) == 4 && |MonthGrid(2025, 7)| == 35
  {
    assert DaysFromCivil(2025, 8, 1) == 20301;
    assert DayOf(Midnight(2025, 7, 1)) == 20301;
  }
}
