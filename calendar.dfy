/**
 * The month grid of js/calendar.js: the first of the month, the Sunday that
 * opens the grid and the Saturday that closes it.
 */
module Calendar {
  import opened Dates

  /** `new Date(y, m, d)` reads a year 0..99 as 1900 + y. */
  function ConstructorYear(y: int): int {
    if 0 <= y <= 99 then 1900 + y else y
  }

  /** `firstOfMonth`: day 1 of the same month (the constructor's year rule applies). */
  function FirstOfMonth(d: Date): (f: Date)
    requires ValidDate(d)
    ensures ValidDate(f) && f.day == 1 && f.month == d.month
    ensures f.year == if 0 <= d.year <= 99 then d.year + 1900 else d.year
  {
    Date(ConstructorYear(d.year), d.month, 1)
  }

  /** The last day of f's month, `new Date(y, m + 1, 0)`: day 0 of the next month. */
  function DayZeroOfNextMonth(f: Date): (e: Date)
    requires ValidDate(f)
    ensures ValidDate(e)
  {
    var y := ConstructorYear(f.year);
    var next := if f.month == 12 then Date(y + 1, 1, 1) else Date(y, f.month + 1, 1);
    ShiftDays(next, -1)
  }

  /** The end of the grid is taken from the month's true last day. */
  lemma DayZeroIsLastDay(f: Date)
    requires ValidDate(f) && !(0 <= f.year <= 99)
    ensures DayZeroOfNextMonth(f) == Date(f.year, f.month, DaysInMonth(f.year, f.month))
  {
    hide DayNumber, FromDayNumber, ShiftDays;
    var last := Date(f.year, f.month, DaysInMonth(f.year, f.month));
    var next := if f.month == 12 then Date(f.year + 1, 1, 1) else Date(f.year, f.month + 1, 1);
    assert ConstructorYear(f.year) == f.year;
    assert NextDay(last) == next;
    ShiftBack(last, next);
  }

  /** Stepping back one day from the day after `last` lands on `last`. */
  lemma ShiftBack(last: Date, next: Date)
    requires ValidDate(last) && ValidDate(next) && NextDay(last) == next
    ensures ShiftDays(next, -1) == last
  {
    hide DayNumber, FromDayNumber, ShiftDays;
    ShiftOneIsNextDay(last);
    ShiftCompose(last, 1, -1);
    ShiftZero(last);
  }

  /** `startOfCalendar`: the Sunday on or before the first of the month. */
  function StartOfCalendar(d: Date): (s: Date)
    requires ValidDate(d)
    ensures ValidDate(s) && Weekday(s) == 0
    ensures DayNumber(s) <= DayNumber(FirstOfMonth(d)) <= DayNumber(s) + 6
  {
    hide DayNumber, FromDayNumber, Weekday;
    var f := FirstOfMonth(d);
    WeekdayShiftTo(f, 0);
    ShiftDays(f, 0 - Weekday(f))
  }

  /** `endOfCalendar`: the Saturday on or after the last day of the month. */
  function EndOfCalendar(d: Date): (e: Date)
    requires ValidDate(d)
    ensures ValidDate(e) && Weekday(e) == 6
    ensures var f := FirstOfMonth(d);
      var last := Date(f.year, f.month, DaysInMonth(f.year, f.month));
      DayNumber(last) <= DayNumber(e) <= DayNumber(last) + 6
  {
    hide DayNumber, FromDayNumber, Weekday;
    var f := FirstOfMonth(d);
    var e := DayZeroOfNextMonth(f);
    DayZeroIsLastDay(f);
    WeekdayShiftTo(e, 6);
    ShiftDays(e, 6 - Weekday(e))
  }

  /** Inclusive number of cells from the start of the grid to its end. */
  function GridLength(d: Date): int
    requires ValidDate(d)
  {
    DayNumber(EndOfCalendar(d)) - DayNumber(StartOfCalendar(d)) + 1
  }

  /** The grid splits into whole weeks: four, five or six rows of seven. */
  lemma GridIsWholeWeeks(d: Date)
    requires ValidDate(d)
    ensures GridLength(d) % 7 == 0
    ensures 28 <= GridLength(d) <= 42
  {
    hide DayNumber, FromDayNumber, ShiftDays, Weekday;
    var f := FirstOfMonth(d);
    var dim := DaysInMonth(f.year, f.month);
    var last := Date(f.year, f.month, dim);
    DayZeroIsLastDay(f);
    LastIsShift(f);
    var w := Weekday(f);
    var v := Weekday(last);
    WeekdayShift(f, dim - 1);
    assert v == (w + dim - 1) % 7;
    assert GridLength(d) == dim + w + 6 - v;
    GridArith(w + dim - 1);
  }

  /** The month's last day is `dim - 1` days after its first. */
  lemma LastIsShift(f: Date)
    requires ValidDate(f) && f.day == 1
    ensures Date(f.year, f.month, DaysInMonth(f.year, f.month)) == ShiftDays(f, DaysInMonth(f.year, f.month) - 1)
  {
    hide FromDayNumber, ShiftDays;
    var dim := DaysInMonth(f.year, f.month);
    DayNumberInjective(Date(f.year, f.month, dim), ShiftDays(f, dim - 1));
  }

  /** With x = Weekday(first) + days in month - 1, the grid has x + 7 - x % 7 cells. */
  lemma GridArith(x: int)
    requires 27 <= x <= 36
    ensures (x + 7 - x % 7) % 7 == 0 && 28 <= x + 7 - x % 7 <= 42
  {
    assert x == 7 * (x / 7) + x % 7;
  }

  /** The grid depends on the month and year only, not on the day within it. */
  lemma GridIgnoresDay(a: Date, b: Date)
    requires ValidDate(a) && ValidDate(b) && a.year == b.year && a.month == b.month
    ensures StartOfCalendar(a) == StartOfCalendar(b)
    ensures EndOfCalendar(a) == EndOfCalendar(b)
  {
    hide DayNumber, FromDayNumber, ShiftDays, Weekday, DayZeroOfNextMonth;
    assert FirstOfMonth(a) == FirstOfMonth(b);
  }
}
