/**
 The monthly statistics panel: for each habit, the number of days
 1..daysInMonth[monthIndex] on which it is marked. `CountDays` is the
 specification; `MonthlyStats` is the counting loop, proved against it.
 */
module Stats {
  import opened DayKeys
  import opened Months
  import opened Completions

  /** Days among 1..n of month `monthIndex` on which `habitId` is marked. */
  function CountDays(s: Store, monthIndex: nat, habitId: string, n: nat): nat
    decreases n
  {
    if n == 0 then 0
    else CountDays(s, monthIndex, habitId, n - 1) + (if Completed(s, monthIndex, n, habitId) then 1 else 0)
  }

  lemma {:induction false} CountBounded(s: Store, monthIndex: nat, habitId: string, n: nat)
    ensures CountDays(s, monthIndex, habitId, n) <= n
    decreases n
  {
    if n > 0 {
      CountBounded(s, monthIndex, habitId, n - 1);
    }
  }

  /** A habit marked on every day of the range is counted on every day. */
  lemma {:induction false} CountAllMarked(s: Store, monthIndex: nat, habitId: string, n: nat)
    requires forall d :: 1 <= d <= n ==> Completed(s, monthIndex, d, habitId)
    ensures CountDays(s, monthIndex, habitId, n) == n
    decreases n
  {
    if n > 0 {
      CountAllMarked(s, monthIndex, habitId, n - 1);
    }
  }

  /** The empty store counts zero for every habit. */
  lemma {:induction false} CountEmptyStore(monthIndex: nat, habitId: string, n: nat)
    ensures CountDays(map[], monthIndex, habitId, n) == 0
    decreases n
  {
    if n > 0 {
      CountEmptyStore(monthIndex, habitId, n - 1);
    }
  }

  /** One click changes the count of the clicked habit in the clicked month by
      one (up when it was unmarked, down when it was marked), provided the day
      lies in the counted range; every other count is unchanged. */
  lemma {:induction false} CountAfterToggle(s: Store, monthIndex: nat, day: nat, habitId: string,
                                            m: nat, h: string, n: nat)
    ensures CountDays(Toggled(s, monthIndex, day, habitId), m, h, n) ==
            CountDays(s, m, h, n) +
            (if m == monthIndex && h == habitId && 1 <= day <= n then
               (if Completed(s, monthIndex, day, habitId) then -1 else 1)
             else 0)
    decreases n
  {
    if n > 0 {
      CountAfterToggle(s, monthIndex, day, habitId, m, h, n - 1);
      ToggleFlipsOnlyItsCell(s, monthIndex, day, habitId, m, n, h);
    }
  }

  /** The habit ids as a set. */
  function HabitSet(): set<string> {
    set h | h in HabitIds
  }

  /** No habit id is listed twice: the one at `j` is not among those before
      it, and the prefix through `j` is the prefix before it plus that id (the
      step `TallyDay`'s loop takes). */
  lemma HabitIdFirstAt(j: nat)
    requires j < |HabitIds|
    ensures HabitIds[..j + 1] == HabitIds[..j] + [HabitIds[j]]
    ensures HabitIds[j] !in HabitIds[..j]
  {
    assert HabitIds[0][0] == 'b' && HabitIds[1][0] == 'p' && HabitIds[2][0] == 'e';
  }

  /** Counters for days 1..days of a month: each habit id mapped to its day count. */
  ghost predicate IsCounts(s: Store, monthIndex: nat, days: nat, stats: map<string, nat>) {
    && stats.Keys == HabitSet()
    && forall h :: h in stats ==> stats[h] == CountDays(s, monthIndex, h, days)
  }

  /** The inner `habitTypes.forEach` of the counting loop: add one to the
      counter of every habit id marked on the day. */
  method TallyDay(stats: map<string, nat>, dayHabits: set<string>) returns (tallied: map<string, nat>)
    requires stats.Keys == HabitSet()
    ensures tallied.Keys == stats.Keys
    ensures forall h :: h in stats ==> tallied[h] == stats[h] + (if h in dayHabits then 1 else 0)
  {
    tallied := stats;
    var j := 0;
    while j < |HabitIds|
      invariant 0 <= j <= |HabitIds|
      invariant tallied.Keys == stats.Keys
      invariant forall h :: h in stats ==>
                  tallied[h] == stats[h] + (if h in HabitIds[..j] && h in dayHabits then 1 else 0)
    {
      var id := HabitIds[j];
      HabitIdFirstAt(j);
      if id in dayHabits {
        tallied := tallied[id := tallied[id] + 1];
      }
      j := j + 1;
    }
    assert HabitIds[..j] == HabitIds;
  }

  /** The counting loop of the statistics panel, over days 1..days. */
  method CountMonth(habits: Store, monthIndex: nat, days: nat) returns (stats: map<string, nat>)
    ensures IsCounts(habits, monthIndex, days, stats)
    ensures forall h :: h in stats ==> stats[h] <= days
  {
    stats := map h | h in HabitIds :: 0;
    var day := 1;
    while day <= days
      invariant 1 <= day <= days + 1
      invariant stats.Keys == HabitSet()
      invariant forall h :: h in stats ==> stats[h] == CountDays(habits, monthIndex, h, day - 1)
    {
      var dayHabits := Lookup(habits, DayKey(monthIndex, day));
      stats := TallyDay(stats, dayHabits);
      day := day + 1;
    }
    forall h | h in stats ensures stats[h] <= days {
      CountBounded(habits, monthIndex, h, days);
    }
  }

  /** The statistics panel: the counting loop run over `daysInMonth[monthIndex]` days. */
  method MonthlyStats(habits: Store, monthIndex: nat) returns (stats: map<string, nat>)
    ensures IsCounts(habits, monthIndex, MonthLength(monthIndex), stats)
    ensures forall h :: h in stats ==> stats[h] <= MonthLength(monthIndex)
  {
    stats := CountMonth(habits, monthIndex, MonthLength(monthIndex));
  }

  /** From an empty store, marking "book" on January 5th gives January the
      counts book 1, prayer 0, exercise 0. */
  lemma FirstClickExample()
    ensures CountDays(Toggled(map[], 0, 5, "book"), 0, "book", MonthLength(0)) == 1
    ensures CountDays(Toggled(map[], 0, 5, "book"), 0, "prayer", MonthLength(0)) == 0
    ensures CountDays(Toggled(map[], 0, 5, "book"), 0, "exercise", MonthLength(0)) == 0
  {
    var n := MonthLength(0);
    assert "prayer"[0] != "book"[0] && "exercise"[0] != "book"[0];
    CountEmptyStore(0, "book", n);
    CountEmptyStore(0, "prayer", n);
    CountEmptyStore(0, "exercise", n);
    CountAfterToggle(map[], 0, 5, "book", 0, "book", n);
    CountAfterToggle(map[], 0, 5, "book", 0, "prayer", n);
    CountAfterToggle(map[], 0, 5, "book", 0, "exercise", n);
  }
}
