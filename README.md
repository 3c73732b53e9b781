# Habit tracker store, modelled in Dafny

A model of the state logic of the monthly habit-tracking calendar in
`src/app/page.tsx`. The model covers:

- the completion store, a map from day key `"<month>-<day>"` to the set of
  habit ids marked that day;
- the toggle handler and the completion query, where an absent key reads as
  empty;
- the monthly statistics loop over the fixed, non-leap month table;
- the set-to-array and array-to-set conversions used by save, load, export
  and import;
- the commit rules: an import that fails to parse changes nothing, and an
  empty store is never saved;
- month navigation with JavaScript's truncating `%`.

Modules:

- `DayKeys` (`day_keys.dfy`) renders the key as a real string. It proves that
  distinct days get distinct keys by giving an inverse `ParseDayKey`.
- `Months` (`months.dfy`) holds the month table and the next/previous steps.
- `Completions` (`completions.dfy`) gives the store as a value: `Lookup`,
  `Completed` and `Toggled`, with the toggle lemmas.
- `Stats` (`stats.dfy`) holds the specification `CountDays`, its lemmas, and
  the counting loop (`CountMonth`, run by `MonthlyStats` over the month's days).
- `Transfer` (`transfer.dfy`) holds the converter loops and the two round
  trips between the set form and the array form.
- `Tracker` (`tracker.dfy`) has the class `HabitTracker`. It holds the
  component's state (`habits`, `currentMonth`, `isClient`) and the local
  storage entry. Its methods are the event handlers and effects.

## Model

| member | source | states |
|---|---|---|
| `DayKeys.NatToString` | src/app/page.tsx:138 | a number in a template string is a non-empty run of decimal digits with no leading zero |
| `DayKeys.DayKey` | src/app/page.tsx:138 | the key `${monthIndex}-${day}`: its first dash separates exactly the month digits from exactly the day digits; with `NatToStringRoundTrip` this is what makes keys of different days differ |
| `DayKeys.NatToStringRoundTrip` | src/app/page.tsx:138 | reading the rendered digits back gives the number |
| `DayKeys.ParseDayKeyRoundTrip` | src/app/page.tsx:138 | the key `${monthIndex}-${day}` can be split back into month index and day |
| `DayKeys.DayKeyInjective` | src/app/page.tsx:158 | two days share a key exactly when month and day are equal, so the key format used at lines 138, 158 and 203 never conflates days |
| `Months.MonthLength` | src/app/page.tsx:69 | valid months have 28 to 31 days, only month 1 has 28, and an out-of-range index gives an empty loop |
| `Months.JsRem` | src/app/page.tsx:192 | JavaScript `%` with a positive divisor: `a` is the quotient rounded toward zero times `b` plus the result, which lies in `[0, b)` for a non-negative dividend and in `(-b, 0]` for a negative one |
| `Months.NextMonth` | src/app/page.tsx:192 | `(prev + 1) % 12` stays in 0..11 for every month from -1 on, moves 0..10 one month on, and wraps 11 to 0 |
| `Months.PrevMonth` | src/app/page.tsx:196 | `(prev - 1 + 12) % 12` stays in 0..11 for every month from -11 on, moves 1..12 one month back, and wraps 0 to 11 |
| `Months.NextPrevInverse` | src/app/page.tsx:191-197 | next and previous undo each other on every valid month |
| `Months.ForwardWithinLap` | src/app/page.tsx:192 | k next-presses (k at most 12) add k modulo 12 |
| `Months.TwelveStepsReturn` | src/app/page.tsx:192 | twelve next-presses return to the starting month |
| `Months.ForwardPeriodic` | src/app/page.tsx:192 | next-presses are periodic with period 12 |
| `Completions.Lookup` | src/app/page.tsx:159 | the lookup with an empty-set default: an absent key reads as the empty set, a present key as its own set |
| `Completions.Completed` | src/app/page.tsx:159-163 | a day whose key is absent reads as not completed for every habit id |
| `Completions.Toggled` | src/app/page.tsx:137-155 | after a toggle, the day's key is present. Every other key keeps its set. The day's set holds the old set with exactly the clicked id flipped |
| `Completions.ToggleFlipsOnlyItsCell` | src/app/page.tsx:140-152 | a toggle flips the query of the clicked (month, day, habit) and leaves every other query, in any month, unchanged |
| `Completions.ToggleTwiceRestores` | src/app/page.tsx:141-152 | toggling the same cell twice restores every query. The map equals the original except that an empty entry may remain for that day |
| `Completions.UntouchedDayUnchanged` | src/app/page.tsx:137-163 | after any sequence of clicks, a day none of them touched reads as before. Starting from the empty store, it reads as not completed |
| `Stats.CountBounded` | src/app/page.tsx:202-209 | a habit's count over days 1..n is at most n |
| `Stats.CountAllMarked` | src/app/page.tsx:202-209 | a habit marked on every day 1..n counts n |
| `Stats.CountEmptyStore` | src/app/page.tsx:200-209 | the empty store counts zero for every habit |
| `Stats.CountAfterToggle` | src/app/page.tsx:137-155 | a toggle changes a count only for the clicked habit in the clicked month, and only when the day is in range. That count goes up by one when the cell was unmarked and down by one when it was marked |
| `Stats.TallyDay` | src/app/page.tsx:205-209 | the inner `forEach` keeps the three counters' keys and adds one to exactly the counters of the ids marked that day |
| `Stats.CountMonth` | src/app/page.tsx:202-210 | the day loop maps each of the three habit ids to the number of days in 1..days on which it is marked, and each count is at most `days` |
| `Stats.MonthlyStats` | src/app/page.tsx:199-210 | the statistics for a month are those counts over 1..daysInMonth[monthIndex], each at most that month length |
| `Stats.FirstClickExample` | src/app/page.tsx:200-209 | from an empty store, marking book on day 5 of month 0 gives counts book 1, prayer 0, exercise 0 |
| `Transfer.AsSets` | src/app/page.tsx:115-118 | the set form of an array map has the same keys, and an id is in a day's set exactly when it occurs in that day's array |
| `Transfer.NoDuplicatesLength` | src/app/page.tsx:55 | an array without duplicates is as long as its set of elements |
| `Transfer.ElemsBound` | src/app/page.tsx:41 | a set built from an array has at most as many elements as the array |
| `Transfer.SetToArray` | src/app/page.tsx:55 | `Array.from(set)` lists every element of the set exactly once, so its length equals the set's size |
| `Transfer.ArrayToSet` | src/app/page.tsx:41 | `new Set(array)` holds exactly the array's elements |
| `Transfer.ToArrays` | src/app/page.tsx:53-56 | the save and export loop produces the same keys, with each day's set as a duplicate-free array |
| `Transfer.FromArrays` | src/app/page.tsx:39-42 | the load and import loop produces, for each key, the set of that key's array elements |
| `Transfer.SetsArraysRoundTrip` | src/app/page.tsx:79-82 | export then import gives back exactly the same store |
| `Transfer.ArraysSetsRoundTrip` | src/app/page.tsx:115-118 | import then export keeps the keys and per-key membership. Duplicates collapse, so arrays never grow |
| `Tracker.HabitTracker.constructor` | src/app/page.tsx:27-29 | the first render is unmounted, at month 0, with an empty store |
| `Tracker.HabitTracker.Mount` | src/app/page.tsx:31-48 | mounting sets today's month. The stored entry replaces the store only when it is present, non-empty and parses; otherwise the store is unchanged |
| `Tracker.HabitTracker.Save` | src/app/page.tsx:50-62 | the effect writes only when mounted and the store has a key. It writes the stringified arrays form. Otherwise the stored entry is left as it was |
| `Tracker.HabitTracker.Toggle` | src/app/page.tsx:137-155 | the new store is `Toggled` of the old one |
| `Tracker.HabitTracker.Export` | src/app/page.tsx:77-84 | the exported arrays form represents the store and reads back as the same store |
| `Tracker.HabitTracker.Import` | src/app/page.tsx:105-123 | an unparsable file raises the alert and leaves the store unchanged. A parsable one replaces the store with its set form. No file selected means no change and no alert |
| `Tracker.HabitTracker.GoNext` | src/app/page.tsx:191-193 | the month advances with `NextMonth` and stays in 0..11 |
| `Tracker.HabitTracker.GoPrev` | src/app/page.tsx:195-197 | the month steps back with `PrevMonth` and stays in 0..11 |

## Left out

- Rendering, JSX, icons, colours, month and weekday names, the placeholder
  shown before mount, and the UI strings: presentation only.
- `useState`/`useEffect` scheduling: `Save` is the body of the save effect,
  and the model does not force it to run after every change. React runs it
  after each render in which `habits` or `isClient` changed.
- `JSON.parse`, `JSON.stringify` and `encodeURIComponent`: these are library
  calls. They are the `parse` and `stringify` parameters. `parse` returns
  `None` wherever parsing or the set conversion would throw. Odd shapes, such
  as a string value spread into characters by `new Set`, are not modelled.
- `localStorage` write failures (quota exceeded, storage disabled): these are
  logged and swallowed by the code. `Save` always succeeds in the model.
- The file picker, `FileReader`, the `data:` URI and the anchor click are
  browser I/O. `Import` receives the file's text, or `None` when no file was
  chosen. `Export` returns the arrays form that is stringified for download.
  Export's catch-and-alert path has no counterpart, because nothing in the
  model can fail.
- `new Date().getMonth()` is a clock read. It is the `today` parameter of
  `Mount`.
- Transfer.SetToArray: does not model the order; `Array.from` lists a set in insertion
  order. The model picks an arbitrary order, because the stored form is read
  back as a set and order never matters.
- Habit ids are not validated on import. Unknown ids are kept, as in the
  source. No query from the calendar asks for them.
