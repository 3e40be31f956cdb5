/**
 * The data computations of the Today view: the record shown for a date
 * (`loadDay` of js/ui-helpers.js), the done count, the percentage chip and
 * the checked state of each habit's box (js/views/today.js).
 */
module Views {
  import opened Wrappers
  import opened JsonValues
  import opened Text
  import opened Sets
  import opened Records

  /** `{ habits: {}, journal: "" }`. */
  const BlankDay := DayRecord(Some(map[]), Some(""), None, map[])

  /** `state.days[iso] || { habits: {}, journal: "" }`: absent and `null` records both give the blank one. */
  function LoadDay(days: Days, iso: string): (rec: DayRecord)
    ensures iso in days && days[iso].Day? ==> rec == days[iso].rec
    ensures !(iso in days && days[iso].Day?) ==> rec == BlankDay
  {
    if iso in days && days[iso].Day? then days[iso].rec else BlankDay
  }

  /** `Math.round((done / total) * 100)`, the halves rounded up, and 0 when there are no habits. */
  function Percent(done: nat, total: nat): (p: nat)
    ensures total == 0 ==> p == 0
    ensures total > 0 ==> 2 * total * p <= 200 * done + total < 2 * total * (p + 1)
    ensures done <= total ==> p <= 100
  {
    if total == 0 then 0
    else
      var p := (200 * done + total) / (2 * total);
      DivBounds(200 * done + total, 2 * total);
      if done <= total then PercentCap(done, total, p); p else p
  }

  lemma DivBounds(n: nat, d: nat)
    requires d > 0
    ensures d * (n / d) <= n < d * (n / d + 1)
  {
  }

  lemma PercentCap(done: nat, total: nat, p: nat)
    requires 0 < total && done <= total && 2 * total * p <= 200 * done + total
    ensures p <= 100
  {
    MulMonotone(2 * total, 101, p);
    assert 2 * total * 101 == 202 * total;
    assert 200 * done <= 200 * total;
  }

  lemma MulMonotone(a: nat, b: nat, c: nat)
    ensures b <= c ==> a * b <= a * c
  {
  }

  /** The percentage is the one whole number within half a point of 100·done/total. */
  lemma PercentIsNearest(done: nat, total: nat, q: nat)
    requires total > 0
    requires 2 * total * q <= 200 * done + total < 2 * total * (q + 1)
    ensures q == Percent(done, total)
  {
    var p := Percent(done, total);
    MulMonotone(2 * total, q + 1, p);
    MulMonotone(2 * total, p + 1, q);
  }

  /** The chip text: `"0%"` with no habits, otherwise the rounded percentage and a `%`. */
  function PercentLabel(done: nat, total: nat): (s: string)
    ensures |s| >= 2 && s[|s| - 1] == '%'
    ensures AllDigits(s[..|s| - 1]) && Value(s[..|s| - 1]) == Percent(done, total)
    ensures total == 0 ==> s == "0%"
  {
    if total == 0 then "0%"
    else
      var digits := NatToString(Percent(done, total));
      assert (digits + "%")[..|digits|] == digits;
      digits + "%"
  }

  /** `!!day.habits[habit.id]`; None is the TypeError of a record without `habits`. */
  function Checked(rec: DayRecord, id: string): (r: Option<bool>)
    ensures r.Some? <==> rec.habits.Some?
    ensures r == Some(true) <==> rec.habits.Some? && id in rec.habits.value && Truthy(rec.habits.value[id])
  {
    if rec.habits.None? then None
    else Some(id in rec.habits.value && Truthy(rec.habits.value[id]))
  }

  /** The box shown for a habit is checked exactly when the habit counts as done for that date. */
  lemma CheckedIsDone(days: Days, iso: string, id: string)
    requires iso in days && days[iso].Day? ==> days[iso].rec.habits.Some?
    ensures Checked(LoadDay(days, iso), id) == Some(Done(days, iso, id))
  {
  }

  /**
   * When every truthy entry of the shown record names a listed habit, the
   * done count is the number of listed habits whose box is checked.
   */
  lemma DoneCountIsChecked(habits: seq<Habit>, days: Days, iso: string)
    requires TruthyKeys(HabitsOf(LoadDay(days, iso))) <= HabitIds(habits)
    ensures CheckedCount(LoadDay(days, iso)) == |set k | k in HabitIds(habits) && Checked(LoadDay(days, iso), k) == Some(true)|
  {
    var rec := LoadDay(days, iso);
    assert (set k | k in HabitIds(habits) && Checked(rec, k) == Some(true)) == TruthyKeys(HabitsOf(rec));
  }

  /** When every truthy entry of the shown record names a listed habit, the done count is at most the habit count and the percentage at most 100. */
  lemma PercentInRange(habits: seq<Habit>, days: Days, iso: string)
    requires TruthyKeys(HabitsOf(LoadDay(days, iso))) <= HabitIds(habits)
    ensures CheckedCount(LoadDay(days, iso)) <= |habits|
    ensures Percent(CheckedCount(LoadDay(days, iso)), |habits|) <= 100
  {
    var m := HabitsOf(LoadDay(days, iso));
    SubsetCard(TruthyKeys(m), HabitIds(habits));
  }

  /** The state the actions keep (every entry names a listed habit) meets that condition on every date. */
  lemma PercentInRangeUnderIntegrity(habits: seq<Habit>, days: Days, iso: string)
    requires RefIntegrity(habits, days)
    ensures CheckedCount(LoadDay(days, iso)) <= |habits|
    ensures Percent(CheckedCount(LoadDay(days, iso)), |habits|) <= 100
  {
    assert TruthyKeys(HabitsOf(LoadDay(days, iso))) <= HabitIds(habits);
    PercentInRange(habits, days, iso);
  }
}
