/**
 The completion store as a value: a map from day key to the set of habit ids
 completed that day. An absent key reads as the empty set. `Toggled` is the
 state after one click; the lemmas state what a click changes and what it
 leaves alone.
 */
module Completions {
  import opened DayKeys

  type Store = map<string, set<string>>

  /** The three habit ids, in display order. */
  const HabitIds: seq<string> := ["book", "prayer", "exercise"]

  /** `habits[key] || new Set()` */
  function Lookup(s: Store, key: string): (r: set<string>)
    ensures key !in s ==> r == {}
    ensures key in s ==> r == s[key]
  {
    if key in s then s[key] else {}
  }

  /** `isHabitCompleted`: whether `habitId` is marked on that day. */
  function Completed(s: Store, monthIndex: nat, day: nat, habitId: string): (r: bool)
    ensures DayKey(monthIndex, day) !in s ==> !r
  {
    habitId in Lookup(s, DayKey(monthIndex, day))
  }

  /** The store after `toggleHabit(monthIndex, day, habitId)`. */
  function Toggled(s: Store, monthIndex: nat, day: nat, habitId: string): (r: Store)
    ensures r.Keys == s.Keys + {DayKey(monthIndex, day)}
    ensures forall k :: k in s && k != DayKey(monthIndex, day) ==> r[k] == s[k]
    ensures forall x :: x in r[DayKey(monthIndex, day)] <==>
              (x in Lookup(s, DayKey(monthIndex, day)) <==> x != habitId)
  {
    var key := DayKey(monthIndex, day);
    var dayHabits := Lookup(s, key);
    s[key := if habitId in dayHabits then dayHabits - {habitId} else dayHabits + {habitId}]
  }

  /** A click flips exactly the clicked cell: every other (day, habit) pair,
      in any month, reads as before. */
  lemma ToggleFlipsOnlyItsCell(s: Store, monthIndex: nat, day: nat, habitId: string,
                               m: nat, d: nat, h: string)
    ensures Completed(Toggled(s, monthIndex, day, habitId), m, d, h) ==
            if m == monthIndex && d == day && h == habitId then !Completed(s, m, d, h)
            else Completed(s, m, d, h)
  {
    DayKeyInjective(monthIndex, day, m, d);
  }

  /** Clicking the same cell twice restores every query; the map itself may
      differ only by an empty entry left behind for that day. */
  lemma ToggleTwiceRestores(s: Store, monthIndex: nat, day: nat, habitId: string)
    ensures forall m: nat, d: nat, h: string ::
              Completed(Toggled(Toggled(s, monthIndex, day, habitId), monthIndex, day, habitId), m, d, h)
              == Completed(s, m, d, h)
    ensures Toggled(Toggled(s, monthIndex, day, habitId), monthIndex, day, habitId) ==
            s[DayKey(monthIndex, day) := Lookup(s, DayKey(monthIndex, day))]
  {
    var t := Toggled(s, monthIndex, day, habitId);
    var key := DayKey(monthIndex, day);
    assert Toggled(t, monthIndex, day, habitId)[key] == Lookup(s, key);
    forall m: nat, d: nat, h: string
      ensures Completed(Toggled(t, monthIndex, day, habitId), m, d, h) == Completed(s, m, d, h)
    {
      ToggleFlipsOnlyItsCell(t, monthIndex, day, habitId, m, d, h);
      ToggleFlipsOnlyItsCell(s, monthIndex, day, habitId, m, d, h);
    }
  }

  /** One click of the calendar grid. */
  datatype Click = Click(monthIndex: nat, day: nat, habitId: string)

  /** The store after a session's clicks, in order. */
  function ApplyClicks(s: Store, clicks: seq<Click>): Store
    decreases |clicks|
  {
    if clicks == [] then s
    else ApplyClicks(Toggled(s, clicks[0].monthIndex, clicks[0].day, clicks[0].habitId), clicks[1..])
  }

  /** A day no click touched reads exactly as it did before the clicks; from
      the empty initial store, that means nothing is completed on it. */
  lemma {:induction false} UntouchedDayUnchanged(s: Store, clicks: seq<Click>, m: nat, d: nat, h: string)
    requires forall i :: 0 <= i < |clicks| ==> clicks[i].monthIndex != m || clicks[i].day != d
    ensures Completed(ApplyClicks(s, clicks), m, d, h) == Completed(s, m, d, h)
    ensures s == map[] ==> !Completed(ApplyClicks(s, clicks), m, d, h)
    decreases |clicks|
  {
    if clicks != [] {
      var c := clicks[0];
      var t := Toggled(s, c.monthIndex, c.day, c.habitId);
      UntouchedDayUnchanged(t, clicks[1..], m, d, h);
      ToggleFlipsOnlyItsCell(s, c.monthIndex, c.day, c.habitId, m, d, h);
    }
  }
}
