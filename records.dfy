/**
 * The typed records the app's actions, streaks and aggregates work on: a
 * habit of the habit list and the per-day record stored under an ISO date.
 */
module Records {
  import opened Wrappers
  import opened JsonValues
  import opened Sets

  /**
   * One entry of the habit list stored by js/app.js; `extra` holds the other
   * fields a stored habit may carry (such as the `color` the Today view reads).
   */
  datatype Habit = Habit(
    id: string,
    name: string,
    icon: string,
    targetDays: seq<int>,
    strict: bool,
    createdAt: int,
    extra: map<string, Json>)

  /**
   * A day record `{ habits, journal, ts }`. `habits` maps habit ids to the
   * stored check value; None is a record without a (truthy) `habits` field.
   * `extra` holds the record's other fields, which the actions carry along.
   */
  datatype DayRecord = DayRecord(
    habits: Option<map<string, Json>>,
    journal: Option<string>,
    ts: Option<int>,
    extra: map<string, Json>)

  /** A value stored under a date key: a record or `null`. */
  datatype DayEntry = NullDay | Day(rec: DayRecord)

  /** `days`: ISO date to the value stored for it. */
  type Days = map<string, DayEntry>

  /** `day.habits || {}` of a record. */
  function HabitsOf(rec: DayRecord): map<string, Json> {
    if rec.habits.Some? then rec.habits.value else map[]
  }

  /** The keys whose stored check value is truthy. */
  function TruthyKeys(m: map<string, Json>): (ks: set<string>)
    ensures forall k :: k in ks <==> k in m && Truthy(m[k])
  {
    set k | k in m && Truthy(m[k])
  }

  /** `Object.values(day.habits || {}).filter(Boolean).length`. */
  function CheckedCount(rec: DayRecord): (n: nat)
    ensures n <= |HabitsOf(rec)|
    ensures n == 0 <==> forall k :: k in HabitsOf(rec) ==> !Truthy(HabitsOf(rec)[k])
  {
    var m := HabitsOf(rec);
    SubsetKeysBound(m, TruthyKeys(m));
    |TruthyKeys(m)|
  }

  lemma SubsetKeysBound(m: map<string, Json>, s: set<string>)
    requires s <= m.Keys
    ensures |s| <= |m|
  {
    SubsetCard(s, m.Keys);
  }

  /**
   * `!!(day && day.habits && day.habits[habitId])`: the date has a record whose
   * entry for the habit is truthy; an absent date and a `null` record both fail.
   */
  predicate Done(days: Days, key: string, habitId: string)
    ensures Done(days, key, habitId) <==> key in days && days[key].Day? && habitId in TruthyKeys(HabitsOf(days[key].rec))
  {
    key in days && days[key].Day? && days[key].rec.habits.Some?
    && habitId in days[key].rec.habits.value && Truthy(days[key].rec.habits.value[habitId])
  }

  /** The ids of a habit list. */
  function HabitIds(hs: seq<Habit>): (ids: set<string>)
    ensures |ids| <= |hs|
    ensures |hs| > 0 ==> hs[0].id in ids
  {
    if |hs| == 0 then {}
    else
      var rest := HabitIds(hs[1..]);
      UnionOneBound(hs[0].id, rest);
      {hs[0].id} + rest
  }

  lemma UnionOneBound(x: string, s: set<string>)
    ensures |{x} + s| <= |s| + 1
  {
    if x !in s {
      assert {x} + s == s + {x};
    } else {
      assert {x} + s == s;
    }
  }

  /** Every id of the list is the id of one of its entries, and conversely. */
  lemma {:induction false} HabitIdsMember(hs: seq<Habit>, k: string)
    ensures k in HabitIds(hs) <==> exists i :: 0 <= i < |hs| && hs[i].id == k
  {
    if |hs| > 0 {
      HabitIdsMember(hs[1..], k);
      if k in HabitIds(hs[1..]) {
        var i :| 0 <= i < |hs[1..]| && hs[1..][i].id == k;
        assert hs[i + 1].id == k;
      }
      if exists i :: 0 <= i < |hs| && hs[i].id == k {
        var i :| 0 <= i < |hs| && hs[i].id == k;
        if i > 0 {
          assert hs[1..][i - 1].id == k;
        }
      }
    }
  }

  /** Every habit entry of every day record names a habit of the list. */
  predicate RefIntegrity(habits: seq<Habit>, days: Days) {
    forall d, k :: d in days && days[d].Day? && k in HabitsOf(days[d].rec) ==> k in HabitIds(habits)
  }
}
