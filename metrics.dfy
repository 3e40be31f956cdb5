/**
 * The aggregates of js/metrics.js, with `days` and `habits` passed in instead
 * of read through `loadState()`: the total number of check-ins, the longest
 * run of done records in key order, and per-habit counts over one week.
 */
module Metrics {
  import opened Wrappers
  import opened JsonValues
  import opened Dates
  import opened Order
  import opened Records
  import opened Streaks

  /* totalCheckins */

  /** The check-ins a stored value contributes; `null` is the record the loop cannot read. */
  function EntryCount(e: DayEntry): nat {
    if e.Day? then CheckedCount(e.rec) else 0
  }

  /** The sum of the check-ins of the records under the keys `ks`. */
  ghost function Total(days: Days, ks: set<string>): nat
    requires ks <= days.Keys
    decreases |ks|
  {
    if ks == {} then 0
    else
      var k :| k in ks;
      EntryCount(days[k]) + Total(days, ks - {k})
  }

  /** The sum does not depend on the order the keys are taken in. */
  lemma {:induction false} TotalRemove(days: Days, ks: set<string>, k: string)
    requires ks <= days.Keys && k in ks
    ensures Total(days, ks) == EntryCount(days[k]) + Total(days, ks - {k})
    decreases |ks|
  {
    var j :| j in ks && Total(days, ks) == EntryCount(days[j]) + Total(days, ks - {j});
    if j != k {
      TotalRemove(days, ks - {j}, k);
      TotalRemove(days, ks - {k}, j);
      assert ks - {j} - {k} == ks - {k} - {j};
    }
  }

  /** The sum only reads the records under the keys it sums. */
  lemma {:induction false} TotalFrame(a: Days, b: Days, ks: set<string>)
    requires ks <= a.Keys && ks <= b.Keys
    requires forall k :: k in ks ==> a[k] == b[k]
    ensures Total(a, ks) == Total(b, ks)
    decreases |ks|
  {
    if ks != {} {
      var k :| k in ks && Total(a, ks) == EntryCount(a[k]) + Total(a, ks - {k});
      TotalRemove(b, ks, k);
      TotalFrame(a, b, ks - {k});
    }
  }

  /**
   * The `for...in` loop over the records. Reading `.habits` of a `null` record
   * throws a TypeError, which is the None result.
   */
  method TotalCheckins(days: Days) returns (r: Option<nat>)
    ensures r.None? <==> exists k :: k in days && days[k].NullDay?
    ensures r.Some? ==> r.value == Total(days, days.Keys)
    ensures days == map[] ==> r == Some(0)
  {
    var total := 0;
    var rest := days.Keys;
    while rest != {}
      invariant rest <= days.Keys
      invariant total + Total(days, rest) == Total(days, days.Keys)
      invariant forall k :: k in days && k !in rest ==> days[k].Day?
      decreases |rest|
    {
      var k :| k in rest;
      if days[k].NullDay? {
        return None;
      }
      TotalRemove(days, rest, k);
      total := total + CheckedCount(days[k].rec);
      rest := rest - {k};
    }
    return Some(total);
  }

  /** Storing a record under a new date adds exactly its check-ins, so the total never drops. */
  lemma AddRecordTotal(days: Days, k: string, rec: DayRecord)
    requires k !in days
    ensures Total(days[k := Day(rec)], days.Keys + {k}) == Total(days, days.Keys) + CheckedCount(rec)
  {
    var e := days[k := Day(rec)];
    TotalRemove(e, days.Keys + {k}, k);
    assert days.Keys + {k} - {k} == days.Keys;
    TotalFrame(e, days, days.Keys);
  }

  /** An entry adds one check-in when its value is truthy and none when it is falsy. */
  lemma EntryContribution(rec: DayRecord, h: string, v: Json)
    ensures CheckedCount(rec.(habits := Some(HabitsOf(rec)[h := v])))
         == CheckedCount(rec.(habits := Some(HabitsOf(rec) - {h}))) + (if Truthy(v) then 1 else 0)
  {
    var m := HabitsOf(rec);
    if Truthy(v) {
      assert TruthyKeys(m[h := v]) == TruthyKeys(m - {h}) + {h};
    } else {
      assert TruthyKeys(m[h := v]) == TruthyKeys(m - {h});
    }
  }

  /* longestStreak */

  /** `hit` of every key of `ks`, in order. */
  function Hits(days: Days, ks: seq<string>, habitId: string): (hits: seq<bool>)
    ensures |hits| == |ks|
    ensures forall i :: 0 <= i < |ks| ==> hits[i] == Done(days, ks[i], habitId)
  {
    seq(|ks|, i requires 0 <= i < |ks| => Done(days, ks[i], habitId))
  }

  /** `run` after the keys of h: the number of hits at its end. */
  function Run(h: seq<bool>): (r: nat)
    ensures r <= |h|
  {
    if |h| == 0 || !h[|h| - 1] then 0 else Run(h[..|h| - 1]) + 1
  }

  /** `best` after the keys of h: the largest `run` seen so far. */
  function Best(h: seq<bool>): (b: nat)
    ensures Run(h) <= b <= |h|
  {
    if |h| == 0 then 0
    else
      var p := Best(h[..|h| - 1]);
      if Run(h) > p then Run(h) else p
  }

  /** The c entries of h just before position j are all hits. */
  predicate Window(h: seq<bool>, j: int, c: int) {
    0 <= c <= j <= |h| && forall i :: j - c <= i < j ==> h[i]
  }

  lemma {:induction false} BestPrefix(h: seq<bool>, j: nat)
    requires j <= |h|
    ensures Best(h[..j]) <= Best(h)
    decreases |h| - j
  {
    if j < |h| {
      assert h[..|h| - 1][..j] == h[..j];
      BestPrefix(h[..|h| - 1], j);
    } else {
      assert h[..j] == h;
    }
  }

  lemma {:induction false} RunWindow(h: seq<bool>, j: int, c: nat)
    requires Window(h, j, c)
    ensures c <= Run(h[..j])
    decreases c
  {
    if c > 0 {
      assert h[..j][..j - 1] == h[..j - 1];
      RunWindow(h, j - 1, c - 1);
    }
  }

  /** Every run of consecutive hits is at most `best`. */
  lemma WindowBound(h: seq<bool>, j: int, c: nat)
    requires Window(h, j, c)
    ensures c <= Best(h)
  {
    RunWindow(h, j, c);
    BestPrefix(h, j);
  }

  lemma {:induction false} RunIsWindow(h: seq<bool>)
    ensures Window(h, |h|, Run(h))
  {
    if |h| > 0 && h[|h| - 1] {
      var p := h[..|h| - 1];
      RunIsWindow(p);
      assert forall i :: |p| - Run(p) <= i < |p| ==> p[i] == h[i];
    }
  }

  /** `best` is the length of an actual run of hits, so it is the longest one. */
  lemma {:induction false} BestAchieved(h: seq<bool>)
    ensures exists j :: Window(h, j, Best(h))
  {
    if |h| == 0 {
      assert Window(h, 0, 0);
    } else {
      var p := h[..|h| - 1];
      if Run(h) > Best(p) {
        RunIsWindow(h);
        assert Window(h, |h|, Best(h));
      } else {
        BestAchieved(p);
        var j :| Window(p, j, Best(p));
        assert forall i :: 0 <= i < |p| ==> p[i] == h[i];
        assert Window(h, j, Best(h));
      }
    }
  }

  /** `best` is 0 exactly when nothing is a hit. */
  lemma {:induction false} BestZeroIff(h: seq<bool>)
    ensures Best(h) == 0 <==> forall i :: 0 <= i < |h| ==> !h[i]
  {
    if exists i :: 0 <= i < |h| && h[i] {
      var i :| 0 <= i < |h| && h[i];
      assert Window(h, i + 1, 1);
      WindowBound(h, i + 1, 1);
    } else {
      NoHitsBestZero(h);
    }
  }

  lemma {:induction false} NoHitsBestZero(h: seq<bool>)
    requires forall i :: 0 <= i < |h| ==> !h[i]
    ensures Best(h) == 0
  {
    if |h| > 0 {
      var p := h[..|h| - 1];
      assert forall i :: 0 <= i < |p| ==> p[i] == h[i];
      NoHitsBestZero(p);
    }
  }

  /** When every record is a hit the run covers them all: gaps between dates do not reset it. */
  lemma AllHitsRunThrough(h: seq<bool>)
    requires forall i :: 0 <= i < |h| ==> h[i]
    ensures Best(h) == |h|
  {
    assert Window(h, |h|, |h|);
    WindowBound(h, |h|, |h|);
  }

  /**
   * The loop over `Object.keys(days).sort()`: a hit adds one to `run` and
   * raises `best` to it, anything else resets `run`.
   */
  method LongestStreak(habitId: string, days: Days) returns (best: nat)
    ensures best == Best(Hits(days, SortKeys(days.Keys), habitId))
    ensures best <= |days|
    ensures best == 0 <==> forall k :: k in days ==> !Done(days, k, habitId)
  {
    hide Done, Run, Best;
    var dates := SortKeys(days.Keys);
    ghost var hits := Hits(days, dates, habitId);
    best := 0;
    var run := 0;
    for i := 0 to |dates|
      invariant best == Best(hits[..i]) && run == Run(hits[..i])
    {
      BestStep(hits, i);
      var hit := Done(days, dates[i], habitId);
      if hit {
        run := run + 1;
        best := if best > run then best else run;
      } else {
        run := 0;
      }
    }
    assert hits[..|dates|] == hits;
    BestZeroIff(hits);
    if !(forall k :: k in days ==> !Done(days, k, habitId)) {
      var k :| k in days && Done(days, k, habitId);
      var i :| 0 <= i < |dates| && dates[i] == k;
      assert hits[i];
    }
  }

  /** One more key: a hit extends `run` and may raise `best`, a miss resets `run`. */
  lemma BestStep(h: seq<bool>, i: nat)
    requires i < |h|
    ensures Run(h[..i + 1]) == if h[i] then Run(h[..i]) + 1 else 0
    ensures Best(h[..i + 1]) == if Run(h[..i + 1]) > Best(h[..i]) then Run(h[..i + 1]) else Best(h[..i])
  {
    assert h[..i + 1][..i] == h[..i];
  }

  /* longestStreak against currentStreak */

  /** A key that is a real ISO date names a day of years 1000..9999. */
  lemma IsoKeyInRange(n: int)
    requires IsIsoDate(DayKey(n))
    ensures InIsoRange(FromDayNumber(n))
  {
    hide FormatIso, FromDayNumber, ParseIso;
    FormatParse(DayKey(n));
    FormatIsoInjective(ParseIso(DayKey(n)).value, FromDayNumber(n));
  }

  /** The key of a day sorts before the key of the next day. */
  lemma NextKeySortsAfter(n: int)
    requires IsIsoDate(DayKey(n)) && IsIsoDate(DayKey(n + 1))
    ensures LexLt(DayKey(n), DayKey(n + 1))
  {
    hide FormatIso, FromDayNumber, DayNumber, LexLt, IsIsoDate;
    IsoKeyInRange(n);
    IsoKeyInRange(n + 1);
    IsoOrderIsChronological(FromDayNumber(n), FromDayNumber(n + 1));
  }

  /** No ISO date sorts strictly between the keys of two consecutive days. */
  lemma NothingBetween(n: int, x: string)
    requires IsIsoDate(DayKey(n)) && IsIsoDate(DayKey(n + 1)) && IsIsoDate(x)
    ensures !(LexLt(DayKey(n), x) && LexLt(x, DayKey(n + 1)))
  {
    hide FormatIso, FromDayNumber, DayNumber, LexLt;
    var e := ParseIso(x).value;
    FormatParse(x);
    IsoKeyInRange(n);
    IsoKeyInRange(n + 1);
    IsoOrderIsChronological(FromDayNumber(n), e);
    IsoOrderIsChronological(e, FromDayNumber(n + 1));
  }

  /** The key of day `base + t`, the t-th day of a streak that starts on day `base`. */
  function StreakKey(base: int, t: int): string {
    DayKey(base + t)
  }

  /**
   * Keys of consecutive days that all occur in the sorted key sequence, with
   * no element of it between neighbours, sit at consecutive positions.
   */
  lemma {:induction false} ConsecutiveKeys(ks: seq<string>, base: int, c: nat, p: nat, t: nat)
    requires StrictlySorted(ks)
    requires p < |ks| && ks[p] == StreakKey(base, 0)
    requires forall i :: 0 <= i < c ==> StreakKey(base, i) in ks
    requires forall i :: 0 <= i < c - 1 ==> LexLt(StreakKey(base, i), StreakKey(base, i + 1))
    requires forall i, x :: 0 <= i < c - 1 && x in ks ==>
               !(LexLt(StreakKey(base, i), x) && LexLt(x, StreakKey(base, i + 1)))
    requires t < c
    ensures p + t < |ks| && ks[p + t] == StreakKey(base, t)
  {
    hide StreakKey, LexLt;
    if t > 0 {
      ConsecutiveKeys(ks, base, c, p, t - 1);
      var prev, key := StreakKey(base, t - 1), StreakKey(base, t);
      assert key in ks;
      var q :| 0 <= q < |ks| && ks[q] == key;
      assert LexLt(prev, StreakKey(base, t - 1 + 1));
      LexLtIrreflexive(prev);
      assert q != p + t - 1;
      LexLtAsymmetric(prev, key);
      assert !(q < p + t - 1);
      assert ks[p + t] in ks;
      assert !(LexLt(prev, ks[p + t]) && LexLt(ks[p + t], StreakKey(base, t - 1 + 1)));
      assert !(q > p + t);
    }
  }

  /** The days of a current streak of length c are recorded, and done. */
  lemma StreakKeysDone(days: Days, habitId: string, today: Date, c: nat, base: int)
    requires ValidDate(today)
    requires IsCurrentStreak(days, habitId, today, c)
    requires base == DayNumber(today) - (c - 1)
    ensures forall t :: 0 <= t < c ==> Done(days, StreakKey(base, t), habitId)
  {
    hide FormatIso, FromDayNumber, DayNumber, Done, DayKey;
    forall t | 0 <= t < c
      ensures Done(days, StreakKey(base, t), habitId)
    {
      assert StreakKey(base, t) == BackKey(today, c - 1 - t);
    }
  }

  /** Keys of consecutive real ISO days are in increasing order with nothing recorded between them. */
  lemma StreakKeysAdjacent(ks: seq<string>, base: int, c: nat)
    requires forall x :: x in ks ==> IsIsoDate(x)
    requires forall t :: 0 <= t < c ==> IsIsoDate(StreakKey(base, t))
    ensures forall i :: 0 <= i < c - 1 ==> LexLt(StreakKey(base, i), StreakKey(base, i + 1))
    ensures forall i, x :: 0 <= i < c - 1 && x in ks ==>
              !(LexLt(StreakKey(base, i), x) && LexLt(x, StreakKey(base, i + 1)))
  {
    hide FormatIso, FromDayNumber, DayNumber, LexLt, IsIsoDate, DayKey;
    forall i | 0 <= i < c - 1
      ensures LexLt(StreakKey(base, i), StreakKey(base, i + 1))
    {
      assert IsIsoDate(StreakKey(base, i)) && IsIsoDate(StreakKey(base, i + 1));
      NextKeySortsAfter(base + i);
    }
    forall i, x | 0 <= i < c - 1 && x in ks
      ensures !(LexLt(StreakKey(base, i), x) && LexLt(x, StreakKey(base, i + 1)))
    {
      assert IsIsoDate(StreakKey(base, i)) && IsIsoDate(StreakKey(base, i + 1));
      NothingBetween(base + i, x);
    }
  }

  /** The done days of a streak whose keys sit side by side form a window of hits. */
  lemma StreakIsWindow(days: Days, habitId: string, ks: seq<string>, base: int, c: nat)
    requires 0 < c
    requires StrictlySorted(ks)
    requires forall t :: 0 <= t < c ==> StreakKey(base, t) in ks && Done(days, StreakKey(base, t), habitId)
    requires forall i :: 0 <= i < c - 1 ==> LexLt(StreakKey(base, i), StreakKey(base, i + 1))
    requires forall i, x :: 0 <= i < c - 1 && x in ks ==>
               !(LexLt(StreakKey(base, i), x) && LexLt(x, StreakKey(base, i + 1)))
    ensures exists j :: Window(Hits(days, ks, habitId), j, c)
  {
    hide StreakKey, LexLt, Done, StrictlySorted;
    assert StreakKey(base, 0) in ks;
    var p :| 0 <= p < |ks| && ks[p] == StreakKey(base, 0);
    var hits := Hits(days, ks, habitId);
    ConsecutiveKeys(ks, base, c, p, c - 1);
    forall i | p <= i < p + c
      ensures hits[i]
    {
      ConsecutiveKeys(ks, base, c, p, i - p);
    }
    assert Window(hits, p + c, c);
  }

  /**
   * When every key is a real ISO date, the current streak is a run of hits
   * in sorted key order, so `longestStreak` is at least `currentStreak`.
   */
  lemma LongestAtLeastCurrent(days: Days, habitId: string, today: Date, c: nat)
    requires ValidDate(today)
    requires forall k :: k in days ==> IsIsoDate(k)
    requires IsCurrentStreak(days, habitId, today, c)
    ensures c <= Best(Hits(days, SortKeys(days.Keys), habitId))
  {
    hide FormatIso, FromDayNumber, DayNumber, LexLt, IsIsoDate, DayKey, StreakKey, IsCurrentStreak, Best,
      Hits, StrictlySorted, Window;
    if c > 0 {
      var ks := SortKeys(days.Keys);
      var base := DayNumber(today) - (c - 1);
      StreakKeysDone(days, habitId, today, c, base);
      forall t | 0 <= t < c
        ensures StreakKey(base, t) in ks && IsIsoDate(StreakKey(base, t))
      {
        assert StreakKey(base, t) in days;
      }
      StreakKeysAdjacent(ks, base, c);
      StreakIsWindow(days, habitId, ks, base, c);
      var j :| Window(Hits(days, ks, habitId), j, c);
      WindowBound(Hits(days, ks, habitId), j, c);
    }
  }

  /* weekSummary */

  /** The 7-day window's starting day `new Date(weekStartIso)`. */
  function WeekStart(iso: string): int
    requires IsIsoDate(iso)
  {
    DayNumber(ParseIso(iso).value)
  }

  /** The record of day `start + i` checks `id`. */
  predicate DoneOn(days: Days, id: string, start: int, i: int) {
    Done(days, DayKey(start + i), id)
  }

  /** The number of the n days from day number `start` on whose record checks `id`. */
  function WeekCount(days: Days, id: string, start: int, n: nat): (c: nat)
    ensures c <= n
  {
    if n == 0 then 0
    else WeekCount(days, id, start, n - 1) + (if DoneOn(days, id, start, n - 1) then 1 else 0)
  }

  /** The offsets among the first n days from `start` on whose record checks `id`. */
  ghost function DoneOffsets(days: Days, id: string, start: int, n: nat): set<int> {
    set i | 0 <= i < n && DoneOn(days, id, start, i)
  }

  lemma WeekCountStep(days: Days, id: string, start: int, i: nat)
    ensures WeekCount(days, id, start, i + 1) == WeekCount(days, id, start, i) + (if DoneOn(days, id, start, i) then 1 else 0)
  {
  }

  /** `(days[iso]?.habits || {})[id]` is truthy exactly when the record of `iso` checks `id`. */
  lemma HitIsDone(days: Days, start: int, i: int, id: string)
    ensures (var iso := DayKey(start + i);
             var d := if iso in days && days[iso].Day? then HabitsOf(days[iso].rec) else map[];
             id in d && Truthy(d[id])) == DoneOn(days, id, start, i)
  {
  }

  /** The running count is the size of the set of days it counts. */
  lemma {:induction false} WeekCountIsSize(days: Days, id: string, start: int, n: nat)
    ensures WeekCount(days, id, start, n) == |DoneOffsets(days, id, start, n)|
  {
    hide DoneOn;
    if n > 0 {
      WeekCountIsSize(days, id, start, n - 1);
      var prev := DoneOffsets(days, id, start, n - 1);
      assert n - 1 !in prev;
      if DoneOn(days, id, start, n - 1) {
        assert DoneOffsets(days, id, start, n) == prev + {n - 1};
      } else {
        assert DoneOffsets(days, id, start, n) == prev;
      }
    }
  }

  /**
   * The inner loop `for (const id of Object.keys(habits))`: add `hit(id)` to
   * the count of every key, starting a missing count at 0 (`res[id] || 0`).
   */
  method AddHits<K>(counts: map<K, nat>, keys: set<K>, hit: K -> nat) returns (res: map<K, nat>)
    ensures forall k :: k in res <==> k in counts || k in keys
    ensures forall k :: k in res ==>
              res[k] == (if k in counts then counts[k] else 0) + (if k in keys then hit(k) else 0)
  {
    res := counts;
    var rest := keys;
    while rest != {}
      invariant rest <= keys
      invariant forall k :: k in res <==> k in counts || (k in keys && k !in rest)
      invariant forall k :: k in res ==>
                  res[k] == (if k in counts then counts[k] else 0) + (if k in keys && k !in rest then hit(k) else 0)
      decreases |rest|
    {
      var k :| k in rest;
      var prev := if k in res then res[k] else 0;
      res := res[k := prev + hit(k)];
      rest := rest - {k};
    }
  }

  /** One day of the week: add the hits of day `start + i` to the counts of the days before it. */
  method AddDay(days: Days, habits: map<string, Json>, start: int, i: nat, counts: map<string, nat>)
    returns (res: map<string, nat>)
    requires counts.Keys == (if i == 0 then {} else habits.Keys)
    requires forall id :: id in counts ==> counts[id] == WeekCount(days, id, start, i)
    ensures res.Keys == habits.Keys
    ensures forall id :: id in res ==> res[id] == WeekCount(days, id, start, i + 1)
  {
    hide DayKey, Done, WeekCount, DoneOn;
    var iso := DayKey(start + i);
    var d := (if iso in days && days[iso].Day? then HabitsOf(days[iso].rec) else map[]);
    res := AddHits(counts, habits.Keys, (id: string) => if id in d && Truthy(d[id]) then 1 else 0);
    forall id | id in res
      ensures res[id] == WeekCount(days, id, start, i + 1)
    {
      HitIsDone(days, start, i, id);
      WeekCountStep(days, id, start, i);
    }
    assert res.Keys == habits.Keys;
  }

  /**
   * The nested loops: for each of the 7 days and each key of `habits`, add 1
   * when that day's record checks it. An unparseable start date makes
   * `toISOString()` throw a RangeError, the None result.
   */
  method WeekSummary(weekStartIso: string, days: Days, habits: map<string, Json>)
    returns (r: Option<map<string, nat>>)
    ensures r.None? <==> !IsIsoDate(weekStartIso)
    ensures r.Some? ==> IsIsoDate(weekStartIso) && r.value.Keys == habits.Keys
    ensures r.Some? ==> IsIsoDate(weekStartIso) && forall id :: id in r.value ==>
              r.value[id] == WeekCount(days, id, WeekStart(weekStartIso), 7) && r.value[id] <= 7
  {
    hide DayKey, IsIsoDate, WeekStart, Done, WeekCount;
    if !IsIsoDate(weekStartIso) {
      return None;
    }
    var start := WeekStart(weekStartIso);
    var res: map<string, nat> := map[];
    for i := 0 to 7
      invariant res.Keys == (if i == 0 then {} else habits.Keys)
      invariant forall id :: id in res ==> res[id] == WeekCount(days, id, start, i)
    {
      res := AddDay(days, habits, start, i, res);
    }
    return Some(res);
  }
}
