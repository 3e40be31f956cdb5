/**
 * `currentStreak` of js/streaks.js: the number of consecutive done days
 * counted backwards from today. `todayISO()` is the parameter `today`;
 * `addDays` is Dates.AddDays, and the cursor is kept as a calendar day.
 */
module Streaks {
  import opened JsonValues
  import opened Dates
  import opened Records
  import opened Sets

  /** The `YYYY-MM-DD` key of the day with day number n. */
  function DayKey(n: int): string {
    FormatIso(FromDayNumber(n))
  }

  /** The date key `i` days before today (`addDays(today, -i)`). */
  function BackKey(today: Date, i: int): string
    requires ValidDate(today)
  {
    DayKey(DayNumber(today) - i)
  }

  /**
   * The streak length the loop must produce: `count` days from today backwards
   * are done, and the day before them is not.
   */
  predicate IsCurrentStreak(days: Days, habitId: string, today: Date, count: nat)
    requires ValidDate(today)
  {
    (forall i :: 0 <= i < count ==> Done(days, BackKey(today, i), habitId))
    && !Done(days, BackKey(today, count), habitId)
  }

  /** Distinct offsets from the same day give distinct date keys. */
  lemma OffsetKeysDistinct(today: Date, i: int, j: int)
    requires ValidDate(today)
    ensures BackKey(today, i) == BackKey(today, j) ==> i == j
  {
    hide FormatIso, DayNumber, FromDayNumber, ValidDate;
    if BackKey(today, i) == BackKey(today, j) {
      FormatIsoInjective(FromDayNumber(DayNumber(today) - i), FromDayNumber(DayNumber(today) - j));
    }
  }

  /** Stepping the cursor back one day is `addDays(cursor, -1)` on its key. */
  lemma BackKeyStep(today: Date, i: int)
    requires ValidDate(today) && IsIsoDate(BackKey(today, i))
    ensures BackKey(today, i + 1) == AddDays(BackKey(today, i), -1)
  {
    hide DayNumber, FromDayNumber, ShiftDays, ParseIso, FormatIso;
    var n := DayNumber(today) - i;
    var key := DayKey(n);
    FormatParse(key);
    var d := ParseIso(key).value;
    FormatIsoInjective(d, FromDayNumber(n));
    DayNumberInjective(ShiftDays(d, -1), FromDayNumber(n - 1));
  }

  /** n done days in a row need n distinct records, so a streak never exceeds `|days|`. */
  lemma StreakBound(days: Days, habitId: string, today: Date, n: nat)
    requires ValidDate(today)
    requires forall i :: 0 <= i < n ==> Done(days, BackKey(today, i), habitId)
    ensures n <= |days|
  {
    var f := (i: int) => if ValidDate(today) then BackKey(today, i) else "";
    forall i, j | 0 <= i < n && 0 <= j < n && i != j
      ensures f(i) != f(j)
    {
      OffsetKeysDistinct(today, i, j);
    }
    InjectiveBound(f, n, days.Keys);
  }

  /**
   * The `while (true)` loop: look up the cursor's record, stop at the first day
   * that is not done, otherwise count it and step back one day. The cursor is
   * kept as a day number, so `addDays(cursor, -1)` is a decrement.
   */
  method CurrentStreak(habitId: string, days: Days, today: Date) returns (count: nat)
    requires ValidDate(today)
    ensures IsCurrentStreak(days, habitId, today, count)
    ensures count <= |days|
    ensures !Done(days, FormatIso(today), habitId) ==> count == 0
  {
    hide DayKey, DayNumber, FromDayNumber, FormatIso, Done;
    count := 0;
    var cursor := DayNumber(today);
    while true
      invariant cursor == DayNumber(today) - count
      invariant forall i :: 0 <= i < count ==> Done(days, BackKey(today, i), habitId)
      invariant count <= |days|
      decreases |days| - count
    {
      var key := DayKey(cursor);
      var done := Done(days, key, habitId);
      if !done {
        break;
      }
      StreakBound(days, habitId, today, count + 1);
      count := count + 1;
      cursor := cursor - 1;
    }
    UndoneTodayMeansZero(days, habitId, today, count);
  }

  /** A streak is 0 when today's record is absent or its entry is falsy. */
  lemma UndoneTodayMeansZero(days: Days, habitId: string, today: Date, count: nat)
    requires ValidDate(today) && IsCurrentStreak(days, habitId, today, count)
    ensures !Done(days, FormatIso(today), habitId) ==> count == 0
  {
    hide FormatIso, DayNumber, Done;
    FromDayNumberOf(today);
    assert BackKey(today, 0) == DayKey(DayNumber(today)) == FormatIso(today);
  }

  /** The specification fixes the streak: at most one length satisfies it. */
  lemma StreakIsUnique(days: Days, habitId: string, today: Date, a: nat, b: nat)
    requires ValidDate(today)
    requires IsCurrentStreak(days, habitId, today, a) && IsCurrentStreak(days, habitId, today, b)
    ensures a == b
  {
  }
}
