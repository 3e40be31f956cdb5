/**
 * Calendar days of the proleptic Gregorian calendar, the day arithmetic that
 * `Date.prototype.setDate` performs on them, and the ISO `YYYY-MM-DD` text
 * that `toLocaleDateString("en-CA")` produces. Time of day and time zones are
 * not part of a `Date` here.
 */
module Dates {
  import opened Wrappers
  import opened Text
  import opened Order

  /** A calendar day; `month` is 1..12 (JavaScript's month index plus one). */
  datatype Date = Date(year: int, month: int, day: int)

  predicate IsLeapYear(y: int) {
    y % 4 == 0 && (y % 100 != 0 || y % 400 == 0)
  }

  function DaysInYear(y: int): int {
    if IsLeapYear(y) then 366 else 365
  }

  function DaysInMonth(y: int, m: int): int
    requires 1 <= m <= 12
  {
    if m == 2 then (if IsLeapYear(y) then 29 else 28)
    else if m == 4 || m == 6 || m == 9 || m == 11 then 30
    else 31
  }

  predicate ValidDate(d: Date) {
    1 <= d.month <= 12 && 1 <= d.day <= DaysInMonth(d.year, d.month)
  }

  /** Days from 0001-01-01 to January 1 of year y; negative for earlier years. */
  function DaysBeforeYear(y: int): int {
    var p := y - 1;
    365 * p + p / 4 - p / 100 + p / 400
  }

  /** Days from January 1 to the first of month m (m == 13 gives the whole year). */
  function DaysBeforeMonth(y: int, m: int): int
    requires 1 <= m <= 13
  {
    var table := [0, 31, 59, 90, 120, 151, 181, 212, 243, 273, 304, 334, 365];
    table[m - 1] + (if m > 2 && IsLeapYear(y) then 1 else 0)
  }

  /** The number of days from 0001-01-01 (day 0, a Monday) to d. */
  function DayNumber(d: Date): int
    requires ValidDate(d)
  {
    DaysBeforeYear(d.year) + DaysBeforeMonth(d.year, d.month) + d.day - 1
  }

  lemma DivStep(y: int, k: int)
    requires k == 4 || k == 100 || k == 400
    ensures y / k == (y - 1) / k + (if y % k == 0 then 1 else 0)
  {
    var q, r := (y - 1) / k, (y - 1) % k;
    assert y == k * q + r + 1;
    if r == k - 1 {
      assert y == k * (q + 1);
    } else {
      assert 0 <= r + 1 < k;
    }
  }

  /** Every multiple of 400 is a multiple of 100, and every multiple of 100 a multiple of 4. */
  lemma DivisorChain(y: int)
    ensures y % 400 == 0 ==> y % 100 == 0
    ensures y % 100 == 0 ==> y % 4 == 0
  {
    if y % 400 == 0 {
      var q := y / 400;
      assert y == 100 * (4 * q);
    }
    if y % 100 == 0 {
      var q := y / 100;
      assert y == 4 * (25 * q);
    }
  }

  /** A year has 366 days exactly when the leap corrections of the day count add one. */
  lemma LeapIndicator(y: int)
    ensures DaysInYear(y) == 365 + (if y % 4 == 0 then 1 else 0) - (if y % 100 == 0 then 1 else 0)
                                 + (if y % 400 == 0 then 1 else 0)
  {
    DivisorChain(y);
  }

  lemma DaysBeforeNextYear(y: int)
    ensures DaysBeforeYear(y + 1) == DaysBeforeYear(y) + DaysInYear(y)
  {
    var p := y - 1;
    assert DaysBeforeYear(y + 1) == 365 * y + y / 4 - y / 100 + y / 400;
    assert DaysBeforeYear(y) == 365 * p + p / 4 - p / 100 + p / 400;
    DivStep(y, 4);
    DivStep(y, 100);
    DivStep(y, 400);
    LeapIndicator(y);
  }

  lemma DaysBeforeNextMonth(y: int, m: int)
    requires 1 <= m <= 12
    ensures DaysBeforeMonth(y, m + 1) == DaysBeforeMonth(y, m) + DaysInMonth(y, m)
    ensures DaysBeforeMonth(y, 13) == DaysInYear(y)
  {
  }

  lemma {:induction false} DaysBeforeYearMonotone(a: int, b: int)
    requires a <= b
    ensures DaysBeforeYear(a) + 365 * (b - a) <= DaysBeforeYear(b)
    decreases b - a
  {
    if a < b {
      DaysBeforeNextYear(b - 1);
      DaysBeforeYearMonotone(a, b - 1);
    }
  }

  lemma {:induction false} DaysBeforeMonthMonotone(y: int, a: int, b: int)
    requires 1 <= a <= b <= 13
    ensures DaysBeforeMonth(y, a) <= DaysBeforeMonth(y, b)
    decreases b - a
  {
    if a < b {
      DaysBeforeNextMonth(y, b - 1);
      DaysBeforeMonthMonotone(y, a, b - 1);
    }
  }

  /** The day within its year, 0 for January 1. */
  lemma DayOfYearBound(d: Date)
    requires ValidDate(d)
    ensures 0 <= DayNumber(d) - DaysBeforeYear(d.year) < DaysInYear(d.year)
  {
    DaysBeforeNextMonth(d.year, d.month);
    DaysBeforeMonthMonotone(d.year, d.month + 1, 13);
  }

  function LocateMonth(y: int, m: int, rem: int): (d: Date)
    requires 1 <= m <= 12 && 0 <= rem < DaysInYear(y) - DaysBeforeMonth(y, m)
    ensures ValidDate(d) && d.year == y
    ensures DaysBeforeMonth(y, d.month) + d.day - 1 == DaysBeforeMonth(y, m) + rem
    decreases 12 - m
  {
    DaysBeforeNextMonth(y, m);
    if rem < DaysInMonth(y, m) then Date(y, m, rem + 1)
    else LocateMonth(y, m + 1, rem - DaysInMonth(y, m))
  }

  function LocateFrom(y: int, rem: int): (d: Date)
    requires 0 <= rem
    ensures ValidDate(d) && DayNumber(d) == DaysBeforeYear(y) + rem
    decreases rem
  {
    DaysBeforeNextYear(y);
    if rem < DaysInYear(y) then LocateMonth(y, 1, rem)
    else LocateFrom(y + 1, rem - DaysInYear(y))
  }

  function LocateBefore(y: int, rem: int): (d: Date)
    requires rem < 0
    ensures ValidDate(d) && DayNumber(d) == DaysBeforeYear(y) + rem
    decreases -rem
  {
    DaysBeforeNextYear(y - 1);
    var r := rem + DaysInYear(y - 1);
    if r >= 0 then LocateFrom(y - 1, r) else LocateBefore(y - 1, r)
  }

  /** The calendar day with a given day number. */
  function FromDayNumber(n: int): (d: Date)
    ensures ValidDate(d) && DayNumber(d) == n
  {
    if n >= 0 then LocateFrom(1, n) else LocateBefore(1, n)
  }

  /** Strictly earlier in (year, month, day) order. */
  predicate Before(a: Date, b: Date) {
    a.year < b.year || (a.year == b.year && (a.month < b.month || (a.month == b.month && a.day < b.day)))
  }

  /** Day numbers count days in calendar order. */
  lemma BeforeIncreasing(a: Date, b: Date)
    requires ValidDate(a) && ValidDate(b) && Before(a, b)
    ensures DayNumber(a) < DayNumber(b)
  {
    if a.year < b.year {
      DayOfYearBound(a);
      DaysBeforeNextYear(a.year);
      DaysBeforeYearMonotone(a.year + 1, b.year);
    } else if a.month < b.month {
      DaysBeforeNextMonth(a.year, a.month);
      DaysBeforeMonthMonotone(a.year, a.month + 1, b.month);
    }
  }

  lemma DayNumberInjective(a: Date, b: Date)
    requires ValidDate(a) && ValidDate(b) && DayNumber(a) == DayNumber(b)
    ensures a == b
  {
    if Before(a, b) {
      BeforeIncreasing(a, b);
    } else if Before(b, a) {
      BeforeIncreasing(b, a);
    }
  }

  lemma FromDayNumberOf(d: Date)
    requires ValidDate(d)
    ensures FromDayNumber(DayNumber(d)) == d
  {
    DayNumberInjective(FromDayNumber(DayNumber(d)), d);
  }

  /** `getDay()`: 0 for Sunday through 6 for Saturday. */
  function Weekday(d: Date): (w: int)
    requires ValidDate(d)
    ensures 0 <= w < 7
  {
    (DayNumber(d) + 1) % 7
  }

  /** `dt.setDate(dt.getDate() + n)`: n days later (earlier when n < 0). */
  function ShiftDays(d: Date, n: int): (r: Date)
    requires ValidDate(d)
    ensures ValidDate(r) && DayNumber(r) == DayNumber(d) + n
  {
    FromDayNumber(DayNumber(d) + n)
  }

  /** The next calendar day, written out rule by rule. */
  function NextDay(d: Date): Date
    requires ValidDate(d)
  {
    if d.day < DaysInMonth(d.year, d.month) then Date(d.year, d.month, d.day + 1)
    else if d.month < 12 then Date(d.year, d.month + 1, 1)
    else Date(d.year + 1, 1, 1)
  }

  /** Shifting by one day rolls over months and years as the calendar does. */
  lemma ShiftOneIsNextDay(d: Date)
    requires ValidDate(d)
    ensures ShiftDays(d, 1) == NextDay(d)
  {
    var e := NextDay(d);
    assert ValidDate(e);
    DaysBeforeNextMonth(d.year, d.month);
    DaysBeforeNextYear(d.year);
    assert DayNumber(e) == DayNumber(d) + 1;
    DayNumberInjective(ShiftDays(d, 1), e);
  }

  lemma ShiftZero(d: Date)
    requires ValidDate(d)
    ensures ShiftDays(d, 0) == d
  {
    FromDayNumberOf(d);
  }

  lemma ShiftCompose(d: Date, a: int, b: int)
    requires ValidDate(d)
    ensures ShiftDays(ShiftDays(d, a), b) == ShiftDays(d, a + b)
  {
    DayNumberInjective(ShiftDays(ShiftDays(d, a), b), ShiftDays(d, a + b));
  }

  lemma ModSeven(q: int, z: int)
    ensures (7 * q + z) % 7 == z % 7
  {
  }

  lemma WeekdayShift(d: Date, n: int)
    requires ValidDate(d)
    ensures Weekday(ShiftDays(d, n)) == (Weekday(d) + n) % 7
  {
    var x := DayNumber(d) + 1;
    assert x == 7 * (x / 7) + x % 7;
    ModSeven(x / 7, x % 7 + n);
  }

  /** Moving by `t - Weekday(d)` days lands on weekday t. */
  lemma WeekdayShiftTo(d: Date, t: int)
    requires ValidDate(d) && 0 <= t < 7
    ensures Weekday(ShiftDays(d, t - Weekday(d))) == t
  {
    var w := Weekday(d);
    WeekdayShift(d, t - w);
    SumMod(w, t);
  }

  lemma SumMod(w: int, t: int)
    requires 0 <= t < 7
    ensures (w + (t - w)) % 7 == t
  {
  }

  /* ISO dates */

  function Pad2(n: nat): string {
    PadStart(NatToString(n), 2)
  }

  /** The year as at least four digits, with a minus sign before year 1 BC and earlier. */
  function YearString(y: int): string {
    if y >= 0 then PadStart(NatToString(y), 4) else "-" + PadStart(NatToString(-y), 4)
  }

  /** `toLocaleDateString("en-CA")` of a calendar day. */
  function FormatIso(d: Date): string
    requires ValidDate(d)
  {
    YearString(d.year) + "-" + Pad2(d.month) + "-" + Pad2(d.day)
  }

  /** The days JavaScript writes as a four-digit `YYYY-MM-DD`. */
  predicate InIsoRange(d: Date) {
    ValidDate(d) && 1000 <= d.year <= 9999
  }

  /** Reads `YYYY-MM-DD`; None for text that is not a real day of years 1000..9999. */
  function ParseIso(s: string): (r: Option<Date>)
    ensures r.Some? ==> InIsoRange(r.value)
  {
    if |s| == 10 && s[4] == '-' && s[7] == '-'
       && AllDigits(s[..4]) && AllDigits(s[5..7]) && AllDigits(s[8..])
    then
      var d := Date(Value(s[..4]), Value(s[5..7]), Value(s[8..]));
      if InIsoRange(d) then Some(d) else None
    else None
  }

  predicate IsIsoDate(s: string) {
    ParseIso(s).Some?
  }

  lemma Pad2Facts(n: nat)
    requires n < 100
    ensures |Pad2(n)| == 2 && AllDigits(Pad2(n)) && Value(Pad2(n)) == n
  {
    PadStartWidth(n, 2);
    PadStartValue(n, 2);
  }

  lemma YearStringFacts(y: int)
    requires 1000 <= y <= 9999
    ensures YearString(y) == NatToString(y)
    ensures |YearString(y)| == 4 && AllDigits(YearString(y)) && Value(YearString(y)) == y
  {
    NatToStringLength(y, 4);
    NatToStringLength(y, 3);
  }

  lemma {:induction false} ParseFormat(d: Date)
    requires InIsoRange(d)
    ensures ParseIso(FormatIso(d)) == Some(d)
  {
    var s := FormatIso(d);
    YearStringFacts(d.year);
    Pad2Facts(d.month);
    Pad2Facts(d.day);
    assert s[..4] == YearString(d.year);
    assert s[5..7] == Pad2(d.month);
    assert s[8..] == Pad2(d.day);
  }

  lemma {:induction false} FormatParse(s: string)
    requires IsIsoDate(s)
    ensures FormatIso(ParseIso(s).value) == s
  {
    var d := ParseIso(s).value;
    YearStringFacts(d.year);
    Pad2Facts(d.month);
    Pad2Facts(d.day);
    DigitsInjective(YearString(d.year), s[..4]);
    DigitsInjective(Pad2(d.month), s[5..7]);
    DigitsInjective(Pad2(d.day), s[8..]);
    assert s == s[..4] + "-" + s[5..7] + "-" + s[8..];
  }

  lemma {:induction false} YearStringInjective(a: int, b: int)
    requires YearString(a) == YearString(b)
    ensures a == b
  {
    var ta, tb := if a >= 0 then a else -a, if b >= 0 then b else -b;
    var pa, pb := PadStart(NatToString(ta), 4), PadStart(NatToString(tb), 4);
    PadStartValue(ta, 4);
    PadStartValue(tb, 4);
    assert IsDigit(pa[0]) && IsDigit(pb[0]);
    if a >= 0 && b >= 0 {
      assert pa == pb;
    } else if a < 0 && b < 0 {
      assert pa == YearString(a)[1..];
      assert pb == YearString(b)[1..];
    }
  }

  lemma {:induction false} FormatIsoSplit(d: Date)
    requires ValidDate(d)
    ensures var s := FormatIso(d);
      |s| == |YearString(d.year)| + 6
      && s[..|s| - 6] == YearString(d.year)
      && s[|s| - 6] == '-' && s[|s| - 3] == '-'
      && s[|s| - 5..|s| - 3] == Pad2(d.month)
      && s[|s| - 2..] == Pad2(d.day)
  {
    Pad2Facts(d.month);
    Pad2Facts(d.day);
  }

  /** Different days never share a key, whatever their year. */
  lemma {:induction false} FormatIsoInjective(a: Date, b: Date)
    requires ValidDate(a) && ValidDate(b) && FormatIso(a) == FormatIso(b)
    ensures a == b
  {
    hide DayNumber, NatToString, PadStart, FormatIso;
    FormatIsoSplit(a);
    FormatIsoSplit(b);
    assert YearString(a.year) == YearString(b.year);
    YearStringInjective(a.year, b.year);
    assert Pad2(a.month) == Pad2(b.month);
    Pad2Facts(a.month);
    Pad2Facts(b.month);
    assert Pad2(a.day) == Pad2(b.day);
    Pad2Facts(a.day);
    Pad2Facts(b.day);
  }

  /** ISO keys compare as strings the way their days compare in (year, month, day) order. */
  lemma {:induction false} IsoLexIsBefore(a: Date, b: Date)
    requires InIsoRange(a) && InIsoRange(b)
    ensures LexLt(FormatIso(a), FormatIso(b)) <==> Before(a, b)
  {
    hide DayNumber, NatToString, PadStart, LexLt;
    YearStringFacts(a.year);
    YearStringFacts(b.year);
    Pad2Facts(a.month);
    Pad2Facts(a.day);
    Pad2Facts(b.month);
    Pad2Facts(b.day);
    var ya, ma, da := YearString(a.year), Pad2(a.month), Pad2(a.day);
    var yb, mb, db := YearString(b.year), Pad2(b.month), Pad2(b.day);
    assert FormatIso(a) == ya + ("-" + (ma + ("-" + da)));
    assert FormatIso(b) == yb + ("-" + (mb + ("-" + db)));
    LexLtConcat(ya, "-" + (ma + ("-" + da)), yb, "-" + (mb + ("-" + db)));
    LexLtConcat("-", ma + ("-" + da), "-", mb + ("-" + db));
    LexLtConcat(ma, "-" + da, mb, "-" + db);
    LexLtConcat("-", da, "-", db);
    LexLtIrreflexive("-");
    DigitOrder(ya, yb);
    DigitOrder(ma, mb);
    DigitOrder(da, db);
  }

  /** (year, month, day) order is day-number order. */
  lemma BeforeIffEarlier(a: Date, b: Date)
    requires ValidDate(a) && ValidDate(b)
    ensures Before(a, b) <==> DayNumber(a) < DayNumber(b)
  {
    hide DayNumber;
    if Before(a, b) {
      BeforeIncreasing(a, b);
    } else if Before(b, a) {
      BeforeIncreasing(b, a);
    }
  }

  /** Sorting ISO keys as strings sorts them by date. */
  lemma IsoOrderIsChronological(a: Date, b: Date)
    requires InIsoRange(a) && InIsoRange(b)
    ensures LexLt(FormatIso(a), FormatIso(b)) <==> DayNumber(a) < DayNumber(b)
  {
    hide DayNumber, FormatIso, LexLt;
    IsoLexIsBefore(a, b);
    BeforeIffEarlier(a, b);
  }

  /** `addDays(iso, n)` of js/streaks.js, for a real `YYYY-MM-DD` day. */
  function AddDays(iso: string, n: int): (r: string)
    requires IsIsoDate(iso)
    ensures InIsoRange(ShiftDays(ParseIso(iso).value, n)) ==>
              ParseIso(r) == Some(ShiftDays(ParseIso(iso).value, n))
  {
    var d := ParseIso(iso).value;
    var r := FormatIso(ShiftDays(d, n));
    if InIsoRange(ShiftDays(d, n)) then ParseFormat(ShiftDays(d, n)); r else r
  }

  lemma AddDaysZero(iso: string)
    requires IsIsoDate(iso)
    ensures AddDays(iso, 0) == iso
  {
    ShiftZero(ParseIso(iso).value);
    FormatParse(iso);
  }

  lemma AddDaysCompose(iso: string, a: int, b: int)
    requires IsIsoDate(iso) && IsIsoDate(AddDays(iso, a))
    ensures AddDays(AddDays(iso, a), b) == AddDays(iso, a + b)
  {
    var d := ParseIso(iso).value;
    var da := ShiftDays(d, a);
    var m := AddDays(iso, a);
    FormatParse(m);
    FormatIsoInjective(ParseIso(m).value, da);
    ShiftCompose(d, a, b);
  }

  lemma AddDaysInverse(iso: string, n: int)
    requires IsIsoDate(iso) && IsIsoDate(AddDays(iso, n))
    ensures AddDays(AddDays(iso, n), -n) == iso
  {
    var m := AddDays(iso, n);
    AddDaysCompose(iso, n, -n);
    assert AddDays(m, -n) == AddDays(iso, 0);
    AddDaysZero(iso);
  }

  /** One day on crosses month and year ends, and February 29 in leap years. */
  lemma AddDaysOneRollsOver(iso: string)
    requires IsIsoDate(iso)
    ensures AddDays(iso, 1) == FormatIso(NextDay(ParseIso(iso).value))
  {
    ShiftOneIsNextDay(ParseIso(iso).value);
  }

  /** The day numbering puts weekdays where the calendar has them. */
  lemma KnownWeekdays()
    ensures Weekday(Date(1970, 1, 1)) == 4
    ensures Weekday(Date(2024, 1, 1)) == 1
  {
  }

  /** Day steps across February in a leap and a common year, and across a year end. */
  lemma RolloverExamples()
    ensures ShiftDays(Date(2024, 2, 28), 1) == Date(2024, 2, 29)
    ensures ShiftDays(Date(2024, 2, 29), 1) == Date(2024, 3, 1)
    ensures ShiftDays(Date(2023, 2, 28), 1) == Date(2023, 3, 1)
    ensures ShiftDays(Date(2024, 12, 31), 1) == Date(2025, 1, 1)
  {
    hide DayNumber, FromDayNumber, ShiftDays;
    ShiftOneIsNextDay(Date(2024, 2, 28));
    ShiftOneIsNextDay(Date(2024, 2, 29));
    ShiftOneIsNextDay(Date(2023, 2, 28));
    ShiftOneIsNextDay(Date(2024, 12, 31));
  }
}
