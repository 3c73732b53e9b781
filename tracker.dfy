/**
 The habit tracker component's state and its event handlers: the completion
 store, the current month, whether the component has mounted in the browser,
 and the `habits` entry of local storage. JSON text is abstracted by the
 `parse` and `stringify` parameters; `parse` returns `None` wherever
 `JSON.parse` or the set conversion would throw.
 */
module Tracker {
  import opened Options
  import opened Months
  import opened DayKeys
  import opened Completions
  import opened Transfer

  class HabitTracker {
    var isClient: bool
    var currentMonth: int
    var habits: Store
    /** The `habits` entry of local storage, as text; `None` when absent. */
    var stored: Option<string>

    ghost predicate Valid()
      reads this
    {
      0 <= currentMonth < 12
    }

    /** First render: not yet mounted, month 0, empty store. */
    constructor(stored: Option<string>)
      ensures Valid()
      ensures !isClient && currentMonth == 0 && habits == map[] && this.stored == stored
    {
      isClient := false;
      currentMonth := 0;
      habits := map[];
      this.stored := stored;
    }

    /** The mount effect: switch to today's month and load the stored entry.
        An absent or empty entry, or one that does not parse, leaves the store
        as it was. */
    method Mount(today: int, parse: string -> Option<StoredForm>)
      requires 0 <= today < 12
      modifies this`isClient, this`currentMonth, this`habits
      ensures Valid() && isClient && currentMonth == today
      ensures habits ==
                if stored.Some? && stored.value != "" && parse(stored.value).Some?
                then AsSets(parse(stored.value).value)
                else old(habits)
    {
      isClient := true;
      currentMonth := today;
      if stored.Some? && stored.value != "" {
        var parsed := parse(stored.value);
        if parsed.Some? {
          var converted := FromArrays(parsed.value);
          habits := converted;
        }
      }
    }

    /** The save effect. It writes only once mounted and only when the store
        has at least one key, so an empty store never overwrites the entry. */
    method Save(stringify: StoredForm -> string) returns (written: Option<StoredForm>)
      requires Valid()
      modifies this`stored
      ensures Valid()
      ensures written.Some? <==> isClient && |habits| > 0
      ensures written.Some? ==> Represents(habits, written.value) && stored == Some(stringify(written.value))
      ensures written.None? ==> stored == old(stored)
    {
      written := None;
      if isClient && |habits| > 0 {
        var forStorage := ToArrays(habits);
        stored := Some(stringify(forStorage));
        written := Some(forStorage);
      }
    }

    /** `toggleHabit`: copy the map, create the day's set if absent, flip one id. */
    method Toggle(monthIndex: nat, day: nat, habitId: string)
      requires Valid()
      modifies this`habits
      ensures Valid()
      ensures habits == Toggled(old(habits), monthIndex, day, habitId)
    {
      var key := DayKey(monthIndex, day);
      var newHabits := habits;
      if key !in newHabits {
        newHabits := newHabits[key := {}];
      }
      var dayHabits := newHabits[key];
      if habitId in dayHabits {
        dayHabits := dayHabits - {habitId};
      } else {
        dayHabits := dayHabits + {habitId};
      }
      newHabits := newHabits[key := dayHabits];
      habits := newHabits;
    }

    /** The export handler: the arrays form that is stringified and offered
        for download. */
    method Export() returns (data: StoredForm)
      ensures Represents(habits, data)
      ensures AsSets(data) == habits
    {
      data := ToArrays(habits);
      SetsArraysRoundTrip(habits, data);
    }

    /** The import handler, once the file has been read. No file picked: nothing
        happens. A file that does not parse raises the alert and leaves the store
        untouched; otherwise it replaces the store wholesale. */
    method Import(fileText: Option<string>, parse: string -> Option<StoredForm>) returns (alerted: bool)
      requires Valid()
      modifies this`habits
      ensures Valid()
      ensures alerted <==> fileText.Some? && parse(fileText.value).None?
      ensures habits ==
                if fileText.Some? && parse(fileText.value).Some?
                then AsSets(parse(fileText.value).value)
                else old(habits)
    {
      alerted := false;
      if fileText.Some? {
        var parsed := parse(fileText.value);
        if parsed.Some? {
          var converted := FromArrays(parsed.value);
          habits := converted;
        } else {
          alerted := true;
        }
      }
    }

    /** The "next month" button. */
    method GoNext()
      requires Valid()
      modifies this`currentMonth
      ensures Valid() && currentMonth == NextMonth(old(currentMonth))
    {
      currentMonth := NextMonth(currentMonth);
    }

    /** The "previous month" button. */
    method GoPrev()
      requires Valid()
      modifies this`currentMonth
      ensures Valid() && currentMonth == PrevMonth(old(currentMonth))
    {
      currentMonth := PrevMonth(currentMonth);
    }
  }
}
