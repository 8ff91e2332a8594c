# Workout tracker: page logic in Dafny

A model of the client-side logic in a small fitness-tracking web application.
Users log daily steps, body weight and workouts, and tick off daily tasks.
Every page is bound to a hosted backend that stores the records. In this model
each backend call is a request value that the page emits. The backend's answer
is an input to the page's next transition. Each handler becomes a pure
function of the page state.

Modelled:

- **Daily tasks** (`pages/daily-tasks.js`):
  - the seven-day window of dates ending today, with dates as integer day
    numbers (`DateWindow`);
  - the folding of fetched rows into a date → task → value table, where the
    later row wins (`TaskTable`);
  - the same fold for the checklist's per-task states (`TaskTable`);
  - the tri-state summary cell and the checkbox state (`DailyTasksPage`);
  - the optimistic toggle with its upsert, and the two fetch handlers
    (`DailyTasksPage`).
- **Form/edit lifecycle** of the steps, weights and workouts pages. Each page
  is a state machine over `(form, editingId, error)`. The shared shape is in
  `Lifecycle`. The page-specific forms, validation and payloads are in
  `StepsPage`, `WeightsPage` and `WorkoutsPage`.
- **Auth gate**, shared by every data page (`AuthGate`).

JavaScript values are `JsValue.Value` (`null`, strings, numbers, booleans).
The pages test these values by JavaScript truthiness (`JsValue.Truthy`), with
two exceptions that are strict equalities: `editingId === id` in each delete
handler (`Lifecycle.Delete`) and `tableData[date]?.[task] === undefined` in
the summary cell (`DailyTasksPage.RenderCell`).
`parseInt` and `parseFloat` results stay symbolic as `Store.ParseInt(src)` and
`Store.ParseFloat(src)`.

Some behaviours of the code are easy to misread; the model follows the code:

- The submit handlers choose an update with `if (editingId)`, which tests
  truthiness and not "non-null". A falsy id (0 or `''`) is therefore inserted
  anew (`Lifecycle.FalsyIdInserts`).
- Required fields are checked for truthiness, not presence. A stored step
  count of 0, loaded by Edit, is rejected on resubmission
  (`StepsPage.ZeroStepsRejected`).
- `fetchTable` does not drop rows outside the window. The query only bounds
  dates from below, so future-dated rows (a box ticked for a future date) are
  returned first and enter `tableData`. Wherever such rows stand in the
  answer, the summary renders exactly as it would for the in-window rows
  alone (`DailyTasksPage.OutsideRowsIgnored`).
- Only a successful insert or update re-fetches the list. A confirmed delete
  re-fetches whatever the store answers, and so does a checklist toggle.

## Model

| member | source | states |
|---|---|---|
| DateWindow.Window | pages/daily-tasks.js:82-87 | the window has the requested length, and element i is today minus i days |
| DateWindow.QueryLowerBound | pages/daily-tasks.js:64-66 | the `.gte` bound of the table query: today moved back six days |
| DateWindow.BuildWindow | pages/daily-tasks.js:82-87 | the `for (i = 0; i < 7; i++)` push loop builds exactly the seven-day window ending today |
| DateWindow.WindowShape | pages/daily-tasks.js:82-87 | the first date is today; each next date is one day earlier; dates strictly descend, so none repeats; the oldest date (i = 6) is the query's lower bound `today − 6` |
| DateWindow.WindowMembership | pages/daily-tasks.js:64-87 | a date is in the window iff it lies between the `.gte('date', fromStr)` lower bound and today |
| TaskTable.LastWinsDomain | pages/daily-tasks.js:39-41 | after the `obj[k] = v` fold, a key is present iff some pair carries it |
| TaskTable.LastWinsValue | pages/daily-tasks.js:39-41 | the value kept for a key is that of its last occurrence |
| TaskTable.LastWinsFromLast | pages/daily-tasks.js:39-41 | every kept key has a last occurrence, and that occurrence's value is the one kept |
| TaskTable.LastWinsSnoc | pages/daily-tasks.js:39-41 | folding one more pair is one more assignment `obj[k] = v` on the object so far |
| TaskTable.LastWins | pages/daily-tasks.js:39-41 | the `obj[k] = v` fold in order; the last pair's key holds the last pair's value |
| TaskTable.States | pages/daily-tasks.js:39-41 | the checklist states are the last-wins fold of (task, value); the last row's task holds its value |
| TaskTable.StatesDomain | pages/daily-tasks.js:39-41 | `states` has a task iff some fetched checklist row names it |
| TaskTable.Put | pages/daily-tasks.js:78-80 | one fold step adds the row's date bucket, sets that (date, task) to the row's value and leaves every other (date, task) lookup as it was |
| TaskTable.BucketDates | pages/daily-tasks.js:77-81 | `map[d]` exists iff some row has date d, so no rows give an empty map |
| TaskTable.Bucket | pages/daily-tasks.js:77-81 | the nested fold in row order; the last row's (date, task) cell holds its value |
| TaskTable.Lookup | pages/daily-tasks.js:141 | `tableData[date]?.[task]`: undefined when the date bucket or the task is missing |
| TaskTable.BucketSnoc | pages/daily-tasks.js:77-81 | folding one more row is one more fold step on the table so far |
| TaskTable.BucketFlattens | pages/daily-tasks.js:77-81 | the nested date → task table equals the last-wins fold keyed by the (date, task) pair |
| TaskTable.BucketDefined | pages/daily-tasks.js:77-81 | `map[d][t]` is defined iff some row has date d and task t |
| TaskTable.BucketLastWins | pages/daily-tasks.js:77-81 | `map[d][t]` equals the value of the last row, in iteration order, that has date d and task t |
| TaskTable.BucketIgnoresOtherDates | pages/daily-tasks.js:77-81 | rows of other dates, placed before or after the others, do not change any cell of date d |
| TaskTable.Within | pages/daily-tasks.js:72 | a specification filter, not code the page runs: the rows dated in lo..hi, the two-sided range that the `.gte` bound and the seven-day window together show; it never lengthens the list |
| TaskTable.WithinSnoc | pages/daily-tasks.js:72 | filtering one more row appends it exactly when its date is in range |
| TaskTable.WithinMembers | pages/daily-tasks.js:72 | a row is kept iff it is one of the input rows and its date is in range, both directions |
| TaskTable.WithinAppend | pages/daily-tasks.js:72 | the filter distributes over concatenation, so kept rows stay in their input order |
| TaskTable.WithinAll | pages/daily-tasks.js:72 | rows that all lie in the range are kept unchanged |
| TaskTable.BucketWithin | pages/daily-tasks.js:77-81 | for a date in a range, a cell of the fold over all rows equals the cell of the fold over the rows in the range alone |
| TaskTable.StatesMatchTable | pages/daily-tasks.js:39-41 | given the same rows of one date, the checklist state of a task equals the table cell for that date and task, because both use the same bucketing |
| DailyTasksPage.RenderCell | pages/daily-tasks.js:141-145 | a cell is `''` iff the lookup is undefined, ✔️ iff it is true and ❌ iff it is false |
| DailyTasksPage.Grid | pages/daily-tasks.js:136-147 | one row per date and one cell per task, in the order of `dates` and `TASKS` |
| DailyTasksPage.RenderCellRoundTrip | pages/daily-tasks.js:141-145 | the three cell texts are distinct: the tri-state value can be read back from the rendered text |
| DailyTasksPage.GridAt | pages/daily-tasks.js:136-147 | the cell in row i, column j depends only on the lookup of date i and task j |
| DailyTasksPage.GridCellUnset | pages/daily-tasks.js:136-147 | a summary cell is empty iff no fetched row has its date and task |
| DailyTasksPage.GridCellLastRow | pages/daily-tasks.js:136-147 | a summary cell shows the value of the last fetched row with its date and task |
| DailyTasksPage.EmptyRowsAllUnset | pages/daily-tasks.js:136-147 | with no rows fetched, every cell of the seven-day summary is unset |
| DailyTasksPage.OutsideRowsIgnored | pages/daily-tasks.js:72-81 | the summary of any answer renders exactly as that of its rows dated between the lower bound and today; rows outside, before, after or among the others, change nothing |
| DailyTasksPage.TwoEntryExample | pages/daily-tasks.js:77-147 | worked example: vitamin ticked today and protein shake false two days ago render as ✔️ and ❌ in those two cells; every other cell is empty |
| DailyTasksPage.CheckedIffPresentTrue | pages/daily-tasks.js:114 | a checkbox is checked iff its task's state is present and true; an absent task reads as unchecked |
| DailyTasksPage.Get | pages/daily-tasks.js:114 | reading `taskStates[task]`: undefined when the task has no state, its value otherwise |
| DailyTasksPage.Checked | pages/daily-tasks.js:114 | `!!taskStates[task]`: present and true |
| DailyTasksPage.Mount | pages/daily-tasks.js:11-15 | the initial state: the date input at today, no task states, no error, an empty table and no dates |
| DailyTasksPage.FetchTasks | pages/daily-tasks.js:30-43 | queries the selected date's rows for the user. On success it clears the error and sets the states to the last-wins fold of the rows, which has a task iff a row names it; nothing else changes. On failure only the error changes |
| DailyTasksPage.FetchTable | pages/daily-tasks.js:62-91 | queries from `today − 6`. On success the dates become the 7-day window, `tableData` becomes the fold of the rows (so every cell value is that of the last matching row), and `map[d]` exists iff a row has date d; the error is not cleared. On failure only the error changes |
| DailyTasksPage.HandleChange | pages/daily-tasks.js:45-60 | sets only `taskStates[task] := checked`, so the box reads `checked` and every other task is unchanged. Emits one upsert of (user, selected date, task, checked) on conflict `user_id,date,task_name`. Re-fetches the table whatever the upsert returns; the error is the upsert's message or `''` |
| AuthGate.Evaluate | pages/steps.js:20-22 | redirects to `/login` iff `!loading && !user`; renders the placeholder iff loading or no user (line 98); a redirect always comes with the placeholder |
| Lifecycle.Mount | pages/steps.js:15-17 | the initial state: the initial form, `editingId` null and no error |
| Lifecycle.Submit | pages/steps.js:41-73 | sends no write iff validation fails; the write is an update by `editingId` iff in edit mode, otherwise an insert; re-fetches iff valid and the store succeeded; otherwise the form and id are kept; success resets the form, clears the error and leaves edit mode; keeps the exact-indicator invariant |
| Lifecycle.Editing | pages/steps.js:48 | `if (editingId)`: edit mode is the truthiness of the held id, the same test as weights.js:49 and workouts.js:54 |
| Lifecycle.Edit | pages/steps.js:75-81 | sets `editingId` and the form to the row's id and the loaded row; the error is unchanged; a truthy id enters edit mode |
| Lifecycle.CancelEdit | pages/steps.js:93-96 | leaves edit mode and resets the form; the error is unchanged |
| Lifecycle.Delete | pages/steps.js:83-96 | unconfirmed: nothing changes. Confirmed: one delete by id and a re-fetch; edit state is reset iff the id equals `editingId`, otherwise the state is unchanged; the error is never touched |
| Lifecycle.FalsyIdInserts | pages/steps.js:48 | a falsy edited id selects the insert branch |
| Lifecycle.CancelThenSubmitInserts | pages/steps.js:93-96 | after Cancel, the next valid submission is an insert |
| StepsPage.Submit | pages/steps.js:41-73 | empty date or steps: 'Date and steps required' and no request. Edit mode: update of {date, steps} by `editingId`. Otherwise: insert with `user_id`. A store error keeps form and id; success resets the form and clears the id after an update |
| StepsPage.Valid | pages/steps.js:44 | a submission needs a truthy date and a truthy step count |
| StepsPage.Edit | pages/steps.js:75-81 | `editingId := row.id`; date and steps are copied verbatim |
| StepsPage.Delete | pages/steps.js:83-96 | unconfirmed: no change. Confirmed: deletes from `steps` and re-fetches; edit state is cleared iff the deleted id is `editingId` |
| StepsPage.CancelEdit | pages/steps.js:93-96 | always clears `editingId` and resets the form |
| StepsPage.EditSubmitRoundTrip | pages/steps.js:41-81 | editing a row and resubmitting unchanged updates that row with the same date and steps; on success the page is back to its mounted state |
| StepsPage.ZeroStepsRejected | pages/steps.js:43-81 | a row with `steps = 0` loaded by Edit is rejected on resubmission: required error, no request, still editing |
| WeightsPage.Values | pages/weights.js:50-54 | the payload has exactly `date`, `weight_lbs` and `measured_at`; the form's date is written as is, `weight` is written to `weight_lbs` through `parseFloat`, and a blank `measured_at` is written as null |
| WeightsPage.Submit | pages/weights.js:42-76 | empty date or weight: 'Date and weight required' and no request. The update by `editingId` carries no `user_id`; the insert carries it. An error keeps everything but the message; success resets the form and clears the id after an update |
| WeightsPage.Valid | pages/weights.js:45 | a submission needs a truthy date and a truthy weight |
| WeightsPage.Edit | pages/weights.js:78-85 | `editingId := row.id`; `weight_lbs` is read into `weight`; a falsy `measured_at` is loaded as `''` |
| WeightsPage.Delete | pages/weights.js:87-95 | unconfirmed: no change. Confirmed: deletes from `weights`; edit state is cleared iff the deleted id is `editingId` |
| WeightsPage.CancelEdit | pages/weights.js:97-100 | always clears `editingId` and resets the form |
| WeightsPage.EditSubmitRoundTrip | pages/weights.js:42-85 | editing and resubmitting updates the same row with the same date and weight; a null `measured_at` goes back as null, not `''` |
| WorkoutsPage.Fields | pages/workouts.js:7-16 | the form object has exactly the eight `initialForm` keys |
| WorkoutsPage.Normalised | pages/workouts.js:58-62 | blank `reps`/`weight`/`distance`/`calories`/`notes` become null; otherwise `reps` goes through `parseInt(…, 10)`, the three decimal columns through `parseFloat`, and notes are kept as written |
| WorkoutsPage.UpdateValues | pages/workouts.js:56-63 | the update payload has exactly the form's columns and no `user_id`; `time` stays as the form holds it; the five optional columns are normalised |
| Store.Spread | pages/workouts.js:57 | `...form` copies every field of the form, under the same key and with the same value, so a blank `time` stays `''` |
| WorkoutsPage.InsertRow | pages/workouts.js:72-84 | the inserted row has `user_id` plus every form column; a blank `time` is null; the five optional columns are normalised |
| WorkoutsPage.Submit | pages/workouts.js:47-91 | empty date or workout name: 'Date and workout name required' and no request. Otherwise an update by `editingId` or an insert with `user_id`. An error keeps form and id; success resets the form and, after an update, clears the id |
| WorkoutsPage.Valid | pages/workouts.js:50 | a submission needs a truthy date and a truthy workout name |
| WorkoutsPage.Edit | pages/workouts.js:93-105 | `editingId := row.id`; date and name are verbatim; every other field falls back to `''` when falsy, so falsy values (including 0) become `''` |
| WorkoutsPage.Loaded | pages/workouts.js:95-104 | the form loaded from a row: date and name verbatim, every other column falling back to `''` when falsy |
| WorkoutsPage.Delete | pages/workouts.js:107-115 | unconfirmed: no change. Confirmed: deletes from `workouts`; edit state is cleared iff the deleted id is `editingId` |
| WorkoutsPage.CancelEdit | pages/workouts.js:117-120 | always clears `editingId` and resets the form |
| WorkoutsPage.BlankTimeDiffers | pages/workouts.js:56-84 | a blank `time` is null in an insert but stays `''` in an update |
| WorkoutsPage.BlankOptionalsNull | pages/workouts.js:56-84 | every blank optional column is null in both the insert and the update payload |
| WorkoutsPage.LoadedUpdateValues | pages/workouts.js:56-63 | the update payload of a form loaded from a row: date and name verbatim, truthy numbers re-parsed, falsy ones (including 0) as null, notes unchanged, a missing time as `''` |
| WorkoutsPage.EditSubmitRoundTrip | pages/workouts.js:54-105 | editing and resubmitting sends an update of the same row with the loaded form's payload, and success returns the page to its initial state |
| JsValue.Or | pages/workouts.js:62 | JavaScript's logical or yields its left operand when that is truthy and its right operand otherwise |
| JsValue.OrBlankKeepsTruthiness | pages/workouts.js:98-103 | a column loaded with a fallback to `''` is truthy iff the stored value was, and is then that value |
| JsValue.OrBlankThenNull | pages/weights.js:53-83 | a value loaded with a fallback to `''` and written back with a fallback to null is written exactly as the fallback to null alone would write it |

## Left out

- The hosted store's query client and all persistence. Writes and queries are emitted values, and their answers are inputs.
- Store-side guarantees: upsert uniqueness on `(user_id, date, task_name)` and row-level access policy. Two toggles leaving one row is a property of the store, not of the page.
- React hooks and effects, which decide when fetches run. Also left out: the render lifecycle, router navigation, and the `confirm()` dialog, which is a boolean input.
- Each page's list fetch (`fetchSteps`, `fetchWeights`, `fetchWorkouts`). It replaces the displayed list on success and is modelled only as the `refetch` flag. The lists' table markup is display-only.
- The controlled-input handler `handleChange(e)` of the three CRUD pages. It writes one named field of the form.
- `parseInt` and `parseFloat`, NaN and floating-point rounding. Parsed values are symbolic cells, and numbers are exact reals.
- JavaScript `Date` arithmetic, time zones and ISO date formatting. This includes the mismatch between local `setDate` and UTC `toISOString`. Dates are integer day numbers, and "today" is a parameter.
- Async races between in-flight requests, the order of re-fetches, and responses arriving after unmount.
- The task labels' capitalisation and the summary's date column text.
- The login, signup and home pages, the session provider, the dark-mode context, the navigation bar and the app shell. They are thin wrappers over the auth client, or browser plumbing.
