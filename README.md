# Daily to-do list: state logic

This project models the state handling of the `DailyTodoApp` React component
(`src/App.jsx`), a single-page daily to-do list. The user adds tasks, ticks them
off, deletes them, and "ends the day". Ending the day archives the day's
completion statistics at the head of a history log of at most 30 entries, then
empties the list. Both the list (tagged with today's date) and the log are
written to a key-value store after every change. At startup they are read back,
and a list dated another day is discarded.

Modules:

- `JsText` (`JsText.dfy`): JavaScript's `trim`, which decides whether the input
  box is blank.
- `Tasks` (`Tasks.dfy`): the `Task` record and the pure transforms behind toggle
  (a pointwise map) and delete (a filter).
- `DayEnd` (`DayEnd.dfy`): the completed count, the rounded percentage, the
  `Stats` triple, the `Entry` record, and the 30-entry capped log.
- `App` (`App.dfy`): the store (class `Store`, one field per key) and the
  component (class `DailyTodoApp`, with the fields `tasks`, `newTask`,
  `dailyHistory` and `showProgress`). Its methods are the handlers. Each one
  assigns new state built by the pure functions and then writes to the store.

The clock and the outcome of each store operation are inputs. Each handler takes
`today` (a `YYYY-MM-DD` string; `EndDay` takes two, see below) and, for `AddTask`, the new `id`. Each store
write takes an `ok` flag. A failed write is swallowed, so the in-memory change
stands and the store keeps its old value. `LoadData` takes a `readOk` flag for the
two key reads. A stored value is `Absent`, `Corrupt` (it does not parse) or
`Present` with structured content.

Points where the code's behaviour is easy to misread; the model follows the code:

- `addTask` uses the trimmed input only as a test. It stores the input untrimmed
  (src/App.jsx:58-59).
- `toggleTask` and `deleteTask` act on every task with the given id, not just
  one. Ids are `Date.now()` timestamps and can repeat.
- "Today" is the UTC date (`toISOString`), not the local date.
- A stored task record that fails to parse throws before the history is parsed.
  The history is then not loaded either, even if it is valid.

## Model

| member | source | states |
|---|---|---|
| `JsText.TrimEmptyIffBlank` | src/App.jsx:58 | the trimmed input is empty exactly when every character is whitespace or a line terminator, so "" and "   " are blank |
| `JsText.TrimStartDropsLead` | src/App.jsx:58 | trimming the front removes exactly the maximal leading run of whitespace and line terminators |
| `JsText.TrimEndDropsTrail` | src/App.jsx:58 | trimming the back removes exactly the maximal trailing run of whitespace and line terminators |
| `JsText.TrimIsInfix` | src/App.jsx:58 | trim returns the infix of the input left after removing the maximal whitespace prefix and suffix; that infix neither starts nor ends with whitespace |
| `Tasks.ToggledPointwise` | src/App.jsx:67-69 | toggling keeps the length, the order, every id and every text, and flips `completed` on exactly the tasks whose id matches (all of them) |
| `Tasks.ToggledUnknownId` | src/App.jsx:67-69 | toggling an id that no task carries returns the list unchanged |
| `Tasks.ToggledTwice` | src/App.jsx:67-69 | toggling the same id twice restores the original list |
| `Tasks.WithoutAppend` | src/App.jsx:75 | deleting distributes over concatenation, so the kept tasks stay in their original relative order |
| `Tasks.WithoutCounts` | src/App.jsx:75 | after deleting, each task with the id occurs zero times and every other task occurs as often as before |
| `Tasks.WithoutUnknownId` | src/App.jsx:75 | deleting an id that no task carries returns the list unchanged |
| `Tasks.WithoutRemovesId` | src/App.jsx:75 | after deleting, no task carries the id, and the list gets shorter exactly when the id was present |
| `DayEnd.CompletedCount` | src/App.jsx:82 | the number of completed tasks is at most the number of tasks |
| `DayEnd.CompletedCountExtremes` | src/App.jsx:82 | the count equals the total exactly when every task is completed, and is 0 exactly when none is |
| `DayEnd.PercentageIsNearest` | src/App.jsx:83 | for a non-empty list the percentage is the integer nearest to 100·completed/total, rounding halves up (Math.round) |
| `DayEnd.PercentageBounds` | src/App.jsx:83 | for completed ≤ total the percentage is in 0..100; it is 0 when total or completed is 0, and 100 when everything is completed |
| `DayEnd.StatsOf` | src/App.jsx:81-83 | total = list length, 0 ≤ completed ≤ total, 0 ≤ percentage ≤ 100, percentage 0 for an empty list, percentage 100 when all tasks are completed |
| `DayEnd.Archived` | src/App.jsx:92 | the new log has length min(old + 1, 30) ≤ 30, the new entry at index 0, then the first min(old, 29) old entries in order |
| `DayEnd.ArchivedAllIsWindow` | src/App.jsx:92 | after any run of day ends the log is the first 30 of (archived days, newest first) followed by the older log, so it keeps the 30 most recent entries |
| `App.Store.constructor` | src/main.jsx:8-15 | the store holds the given values under the two keys |
| `App.DailyTodoApp.constructor` | src/App.jsx:5-8 | the component mounts with an empty list, empty input, empty log and the progress view closed |
| `App.DailyTodoApp.LoadData` | src/App.jsx:14-32 | the stored list is restored only when it is dated today, otherwise the list stays as it was; the stored log is restored when present unless a read failed or the task record did not parse; nothing is written |
| `App.DailyTodoApp.SaveTasks` | src/App.jsx:38-47 | a successful write leaves `{date: today, tasks}` under the task key; a failed one changes nothing; the history key is untouched |
| `App.DailyTodoApp.SaveHistory` | src/App.jsx:49-55 | a successful write leaves the log under the history key; a failed one changes nothing; the task key is untouched |
| `App.DailyTodoApp.EditNewTask` | src/App.jsx:208 | typing sets the input text and changes nothing else |
| `App.DailyTodoApp.AddTask` | src/App.jsx:57-64 | a blank input changes nothing, including the store; otherwise exactly one task is appended with the given id, the untrimmed text and `completed = false`, the input is cleared, and a successful write leaves the store in sync with the list dated today |
| `App.DailyTodoApp.ToggleTask` | src/App.jsx:66-72 | the list becomes the toggled list (same length; see `Tasks.ToggledPointwise`), and a successful write leaves the store in sync with it dated today; the other fields are unchanged |
| `App.DailyTodoApp.DeleteTask` | src/App.jsx:74-78 | the list becomes the filtered list, no task carries the id, and a successful write leaves the store in sync with it dated today; the other fields are unchanged |
| `App.DailyTodoApp.EndDay` | src/App.jsx:80-99 | the log gains an entry dated by the first clock reading at index 0 (total = list length, completed ≤ total, percentage ≤ 100), followed by the first min(old, 29) old entries; it holds at most 30 entries and is what the history write stores; the list is emptied and stored as `{date, []}` with the date of the second clock reading, taken after the history write; the progress view opens |
| `App.DailyTodoApp.TodayStats` | src/App.jsx:101-103 | the panel's figures: total = list length, completed ≤ total, percentage in 0..100, 0 for an empty list, 100 when all tasks are completed |
| `App.EndDayThenReload` | src/App.jsx:19-23 | ending the day (both clock readings on one date) and reloading on that date restores no tasks, and reloads the capped log with that day's entry first |

## Left out

- Rendering, styling and icons (src/App.jsx:105-305). The button that shows or
  hides the progress view, and the rule that shows End Day only when tasks
  exist, are UI only.
- The clock (`getCurrentDate`, `Date.now()`). Its readings are parameters, one per
  reading the source takes: `EndDay` takes two dates, one for the archived entry and
  one for the task record it saves after awaiting the history write.
- JSON serialisation. The store holds structured values, so the
  stringify/parse round trip is assumed rather than proved. A parse failure is
  the `Corrupt` slot. A stored value that parses to something of the wrong shape
  is not modelled.
- Asynchrony. A load or a day end that another handler interleaves with at an
  `await` is not modelled; every handler runs to completion.
- Console logging in the error paths.
- The store's `delete` and `list` operations, and its `localStorage` backing in
  src/main.jsx. The component never calls them.
- `DayEnd.Percentage`: computed in exact integer arithmetic, rounding halves up.
  `Math.round` over floating point can differ when the exact value ends in .5
  (29 of 200 can come out as 14 in floating point; it is 15 here).
