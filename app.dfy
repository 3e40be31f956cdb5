/**
 * The habit and day actions of js/app.js, as transformations from the loaded
 * state to the fields each action saves, and the field wiring of the
 * Replace-All import. The random id suffix, the clock reading and today's
 * date are parameters.
 */
module App {
  import opened Wrappers
  import opened JsonValues
  import opened Records
  import opened Import

  /** The loaded state the actions read: the habit list and the day records. */
  datatype AppState = AppState(habits: seq<Habit>, days: Days)

  /** The fields an action passes to the save helper; None is a field it does not save. */
  datatype Patch = Patch(habits: Option<seq<Habit>>, days: Option<Days>)

  const FireIcon := "\U{1F525}"
  const EveryWeekday: seq<int> := [0, 1, 2, 3, 4, 5, 6]

  /** What `addHabit` saves, and the habit it returns. */
  datatype Added = Added(patch: Patch, habit: Habit)

  /** `addHabit(name)` with random id suffix `suffix` at clock reading `now`. */
  function AddHabit(state: AppState, name: string, suffix: string, now: int): (r: Added)
    ensures r.patch.days.None? && r.patch.habits.Some?
    ensures var hs := r.patch.habits.value;
      |hs| == |state.habits| + 1 && hs[..|state.habits|] == state.habits && hs[|state.habits|] == r.habit
    ensures r.habit.name == name && r.habit.icon == FireIcon && r.habit.targetDays == EveryWeekday
    ensures !r.habit.strict && r.habit.createdAt == now
    ensures |r.habit.id| >= 2 && r.habit.id[..2] == "h_"
  {
    var habit := Habit("h_" + suffix, name, FireIcon, EveryWeekday, false, now, map[]);
    Added(Patch(Some(state.habits + [habit]), None), habit)
  }

  /** `habits.filter(h => h.id !== id)`. */
  function FilterOut(habits: seq<Habit>, id: string): (r: seq<Habit>)
    ensures |r| <= |habits|
  {
    if |habits| == 0 then []
    else (if habits[0].id != id then [habits[0]] else []) + FilterOut(habits[1..], id)
  }

  /** The filter keeps exactly the habits whose id differs. */
  lemma {:induction false} FilterOutMembers(habits: seq<Habit>, id: string)
    ensures forall h :: h in FilterOut(habits, id) <==> h in habits && h.id != id
  {
    if |habits| > 0 {
      FilterOutMembers(habits[1..], id);
      assert habits == [habits[0]] + habits[1..];
    }
  }

  /** The filter works element by element: it commutes with concatenation, so the kept habits keep their order. */
  lemma {:induction false} FilterOutConcat(a: seq<Habit>, b: seq<Habit>, id: string)
    ensures FilterOut(a + b, id) == FilterOut(a, id) + FilterOut(b, id)
  {
    if |a| > 0 {
      var head := if a[0].id != id then [a[0]] else [];
      assert (a + b)[0] == a[0] && (a + b)[1..] == a[1..] + b;
      assert FilterOut(a + b, id) == head + FilterOut(a[1..] + b, id);
      FilterOutConcat(a[1..], b, id);
      assert FilterOut(a, id) == head + FilterOut(a[1..], id);
      assert head + (FilterOut(a[1..], id) + FilterOut(b, id)) == (head + FilterOut(a[1..], id)) + FilterOut(b, id);
    } else {
      assert a + b == b;
    }
  }

  /** A list without the id passes the filter unchanged. */
  lemma {:induction false} FilterOutUnknown(habits: seq<Habit>, id: string)
    requires id !in HabitIds(habits)
    ensures FilterOut(habits, id) == habits
  {
    if |habits| > 0 {
      FilterOutUnknown(habits[1..], id);
      assert habits == [habits[0]] + habits[1..];
    }
  }

  /** The ids left after the filter are the old ones less `id`. */
  lemma {:induction false} FilterOutIds(habits: seq<Habit>, id: string)
    ensures HabitIds(FilterOut(habits, id)) == HabitIds(habits) - {id}
  {
    if |habits| > 0 {
      FilterOutIds(habits[1..], id);
      var rest := FilterOut(habits[1..], id);
      if habits[0].id != id {
        assert FilterOut(habits, id) == [habits[0]] + rest;
        assert ([habits[0]] + rest)[1..] == rest;
      } else {
        assert FilterOut(habits, id) == rest;
      }
    }
  }

  /** The day entry's `habits` map holds the id (`days[d]?.habits && id in days[d].habits`). */
  predicate References(e: DayEntry, id: string) {
    e.Day? && e.rec.habits.Some? && id in e.rec.habits.value
  }

  /** `days[d] = { ...days[d], habits: copy }` with `copy` lacking the id, for an entry that holds it. */
  function StripEntry(e: DayEntry, id: string): (r: DayEntry)
    ensures !References(r, id)
    ensures !References(e, id) ==> r == e
    ensures r.Day? <==> e.Day?
    ensures r.Day? ==> r.rec.journal == e.rec.journal && r.rec.ts == e.rec.ts && r.rec.extra == e.rec.extra
    ensures r.Day? ==> (r.rec.habits.Some? <==> e.rec.habits.Some?)
    ensures r.Day? && r.rec.habits.Some? ==> forall h :: h != id ==>
              (h in r.rec.habits.value <==> h in e.rec.habits.value)
              && (h in r.rec.habits.value ==> r.rec.habits.value[h] == e.rec.habits.value[h])
  {
    if References(e, id) then Day(e.rec.(habits := Some(e.rec.habits.value - {id}))) else e
  }

  /** The days map after the cascade: every entry stripped of the id. */
  function Cascade<K>(days: map<K, DayEntry>, id: string): map<K, DayEntry> {
    map d | d in days :: StripEntry(days[d], id)
  }

  /** The `for (const d in days)` loop of `deleteHabit`, over a copy of the map. */
  method CascadeDelete<K>(days: map<K, DayEntry>, id: string) returns (out: map<K, DayEntry>)
    ensures out == Cascade(days, id)
  {
    out := days;
    var rest := days.Keys;
    while rest != {}
      invariant rest <= days.Keys && out.Keys == days.Keys
      invariant forall d :: d in out ==> out[d] == if d in rest then days[d] else StripEntry(days[d], id)
      decreases rest
    {
      var d :| d in rest;
      if References(out[d], id) {
        out := out[d := StripEntry(out[d], id)];
      }
      rest := rest - {d};
    }
    assert forall d :: d in out ==> out[d] == Cascade(days, id)[d];
  }

  /** `deleteHabit(id)`: the filtered habit list and the cascaded days. */
  method DeleteHabit(state: AppState, id: string) returns (p: Patch)
    ensures p == Patch(Some(FilterOut(state.habits, id)), Some(Cascade(state.days, id)))
  {
    var habits := FilterOut(state.habits, id);
    var days := CascadeDelete(state.days, id);
    p := Patch(Some(habits), Some(days));
  }

  /** After a delete no habit has the id and no day record refers to it. */
  lemma DeleteRemovesEveryReference(state: AppState, id: string)
    ensures forall h :: h in FilterOut(state.habits, id) ==> h.id != id
    ensures forall d :: d in Cascade(state.days, id) ==> !References(Cascade(state.days, id)[d], id)
    ensures id !in HabitIds(FilterOut(state.habits, id))
  {
    FilterOutMembers(state.habits, id);
    FilterOutIds(state.habits, id);
  }

  /** The cascade keeps the date keys and, in each record, the journal, the timestamp, the other fields and every other entry. */
  lemma DeleteKeepsTheRest<K>(days: map<K, DayEntry>, id: string, d: K, h: string)
    requires d in days && h != id
    ensures Cascade(days, id).Keys == days.Keys
    ensures var e, r := days[d], Cascade(days, id)[d];
      (r.Day? <==> e.Day?)
      && (r.Day? ==> r.rec.journal == e.rec.journal && r.rec.ts == e.rec.ts && r.rec.extra == e.rec.extra)
      && (r.Day? ==> (h in HabitsOf(r.rec) <==> h in HabitsOf(e.rec)))
      && (r.Day? && h in HabitsOf(r.rec) ==> HabitsOf(r.rec)[h] == HabitsOf(e.rec)[h])
  {
  }

  /** Deleting twice is deleting once. */
  lemma DeleteIdempotent(state: AppState, id: string)
    ensures FilterOut(FilterOut(state.habits, id), id) == FilterOut(state.habits, id)
    ensures Cascade(Cascade(state.days, id), id) == Cascade(state.days, id)
  {
    DeleteRemovesEveryReference(state, id);
    FilterOutUnknown(FilterOut(state.habits, id), id);
    var once := Cascade(state.days, id);
    assert forall d :: d in once ==> Cascade(once, id)[d] == once[d];
  }

  /** Deleting an id no habit and no record has changes nothing. */
  lemma DeleteUnknownId(state: AppState, id: string)
    requires id !in HabitIds(state.habits)
    requires forall d :: d in state.days ==> !References(state.days[d], id)
    ensures FilterOut(state.habits, id) == state.habits
    ensures Cascade(state.days, id) == state.days
  {
    FilterOutUnknown(state.habits, id);
    assert forall d :: d in state.days ==> Cascade(state.days, id)[d] == state.days[d];
  }

  /** Deleting the habit just added, under a fresh id, gives the old habit list back. */
  lemma AddThenDelete(state: AppState, name: string, suffix: string, now: int)
    requires "h_" + suffix !in HabitIds(state.habits)
    ensures var added := AddHabit(state, name, suffix, now);
      FilterOut(added.patch.habits.value, added.habit.id) == state.habits
  {
    var added := AddHabit(state, name, suffix, now);
    var id := added.habit.id;
    FilterOutConcat(state.habits, [added.habit], id);
    FilterOutUnknown(state.habits, id);
    assert FilterOut([added.habit], id) == [];
  }

  /** A delete keeps every day record's entries pointing at existing habits. */
  lemma DeletePreservesIntegrity(state: AppState, id: string)
    requires RefIntegrity(state.habits, state.days)
    ensures RefIntegrity(FilterOut(state.habits, id), Cascade(state.days, id))
  {
    FilterOutIds(state.habits, id);
    var days := Cascade(state.days, id);
    forall d, k | d in days && days[d].Day? && k in HabitsOf(days[d].rec)
      ensures k in HabitIds(FilterOut(state.habits, id))
    {
      assert k != id;
      DeleteKeepsTheRest(state.days, id, d, k);
    }
  }

  /** `state.days[iso] || { habits: {}, ts: now }`. */
  function TodayRecord(days: Days, todayIso: string, now: int): DayRecord {
    if todayIso in days && days[todayIso].Day? then days[todayIso].rec else DayRecord(Some(map[]), None, Some(now), map[])
  }

  /** What `toggleHabitForToday` saves, and the record it returns. */
  datatype Toggled = Toggled(patch: Patch, day: DayRecord)

  /** `toggleHabitForToday(habitId, checked)` on date `todayIso` at clock reading `now`. */
  function ToggleHabitForToday(state: AppState, habitId: string, checked: Json, todayIso: string, now: int): (r: Toggled)
    ensures r.patch.habits.None? && r.patch.days.Some?
    ensures var days := r.patch.days.value;
      days.Keys == state.days.Keys + {todayIso} && days[todayIso] == Day(r.day)
      && forall k :: k in state.days && k != todayIso ==> days[k] == state.days[k]
    ensures r.day.ts == Some(now) && r.day.journal == TodayRecord(state.days, todayIso, now).journal
    ensures r.day.extra == TodayRecord(state.days, todayIso, now).extra
    ensures r.day.habits.Some? && habitId in r.day.habits.value && r.day.habits.value[habitId] == JBool(Truthy(checked))
    ensures forall h :: h != habitId ==>
              (h in HabitsOf(r.day) <==> h in HabitsOf(TodayRecord(state.days, todayIso, now)))
              && (h in HabitsOf(r.day) ==> HabitsOf(r.day)[h] == HabitsOf(TodayRecord(state.days, todayIso, now))[h])
  {
    var day := TodayRecord(state.days, todayIso, now);
    var toggled := day.(habits := Some(HabitsOf(day)[habitId := JBool(Truthy(checked))]), ts := Some(now));
    Toggled(Patch(None, Some(state.days[todayIso := Day(toggled)])), toggled)
  }

  /** After a toggle the habit is done today exactly when `checked` is truthy; other habits keep their state. */
  lemma ToggleSetsDone(state: AppState, habitId: string, checked: Json, todayIso: string, now: int, other: string)
    requires other != habitId
    ensures var days := ToggleHabitForToday(state, habitId, checked, todayIso, now).patch.days.value;
      (Done(days, todayIso, habitId) <==> Truthy(checked))
      && (Done(days, todayIso, other) <==> Done(state.days, todayIso, other))
  {
    var r := ToggleHabitForToday(state, habitId, checked, todayIso, now);
    assert Truthy(JBool(Truthy(checked))) == Truthy(checked);
    if Done(state.days, todayIso, other) {
      assert TodayRecord(state.days, todayIso, now) == state.days[todayIso].rec;
    }
  }

  /** Toggling again with the same value saves the same days. */
  lemma ToggleIdempotent(state: AppState, habitId: string, checked: Json, todayIso: string, now: int)
    ensures var once := ToggleHabitForToday(state, habitId, checked, todayIso, now).patch.days.value;
      ToggleHabitForToday(AppState(state.habits, once), habitId, checked, todayIso, now).patch.days.value == once
  {
    var once := ToggleHabitForToday(state, habitId, checked, todayIso, now);
    var twice := ToggleHabitForToday(AppState(state.habits, once.patch.days.value), habitId, checked, todayIso, now);
    assert HabitsOf(twice.day) == HabitsOf(once.day);
  }

  /** Toggling a habit of the list keeps every entry pointing at an existing habit. */
  lemma TogglePreservesIntegrity(state: AppState, habitId: string, checked: Json, todayIso: string, now: int)
    requires RefIntegrity(state.habits, state.days)
    requires habitId in HabitIds(state.habits)
    ensures RefIntegrity(state.habits, ToggleHabitForToday(state, habitId, checked, todayIso, now).patch.days.value)
  {
    var r := ToggleHabitForToday(state, habitId, checked, todayIso, now);
    var days := r.patch.days.value;
    forall d, k | d in days && days[d].Day? && k in HabitsOf(days[d].rec)
      ensures k in HabitIds(state.habits)
    {
      if d == todayIso && k != habitId {
        assert k in HabitsOf(TodayRecord(state.days, todayIso, now));
      }
    }
  }

  /**
   * `importReplaceAll(file)` after the file's text is read: validation comes
   * first, so a rejected file leaves the store as it was.
   */
  method ImportReplaceAll(text: string, parse: string -> Option<Json>, store: KeyStore) returns (r: Result<bool, ImportError>)
    modifies store
    ensures r.Err? <==> ReadSnapshotFile(text, parse).Err?
    ensures r.Err? ==> r.error == ReadSnapshotFile(text, parse).error
    ensures r.Err? ==> store.slots == old(store.slots) && store.writes == old(store.writes)
    ensures r.Ok? ==> r.value && store.slots == ReplaceAll(old(store.slots), ReadSnapshotFile(text, parse).value.fields)
    ensures r.Ok? ==> store.writes == old(store.writes) + WriteOrder(ReadSnapshotFile(text, parse).value.fields)
  {
    var read := ReadSnapshotFile(text, parse);
    if read.Err? {
      return Err(read.error);
    }
    AcceptedHasFields(text, parse);
    ApplySnapshotReplaceAll(read.value, store);
    return Ok(true);
  }
}
