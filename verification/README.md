# Task list store

A model of the task store behind a single-page to-do list (`script.js`): an
ordered list of tasks, newest first, with the handlers that add, complete,
delete, clear and edit tasks, the filter bar's pending/completed views, and
the progress statistics. It also covers the two pieces of session state the
handlers keep, the selected filter and the id of the task open in the
details dialog, and the copy of the list written to local storage.

Layout:

- `wrappers.dfy`: `Option`, standing for JavaScript's `null` and for a
  `findIndex` result of -1.
- `js_text.dfy` (`JsText`): `String.prototype.trim`, over the ECMAScript
  WhiteSpace and LineTerminator code points.
- `sequences.dfy` (`Sequences`): `Array.prototype.filter` as `Keep`, and the
  facts the store needs about it: order is kept, and a predicate and its
  negation split a list.
- `tasks.dfy` (`Tasks`): the task record and the pure rules. `IndexOf` is
  `findIndex`. `Toggled`, `Edited`/`Saved` and `WithoutId` give the list after
  each update. `View` is the filter step of rendering, and `StatsOf` is the
  arithmetic of the progress panel. The lemmas state what each update does
  and leaves alone.
- `store.dfy` (`Store.TaskStore`): a class with the script's variables as
  fields (`tasks`, `currentFilter`, `currentEditingTaskId`, plus `storage` for
  the local-storage entry) and one method per handler. Each method's
  `ensures` gives the new state in terms of the old one and the functions of
  `Tasks`.
- `scenarios.dfy`: client methods that replay usage scenarios against the
  class's contracts. They add, toggle to 50% and back, clear with and without
  a yes, and open the details dialog from the input box.

What the environment supplies is a parameter. That covers the input box
text, `Date.now()` (the new id), the ISO timestamp, the answer to `confirm`,
and the values of the details dialog.

Behaviour worth knowing, as the code has it:

- Toggling and editing touch only the FIRST task with the id (`findIndex`).
  Deleting removes EVERY task with the id (`filter`). With unique ids the
  two agree (`DeleteUnique`). Nothing in the code makes ids unique, so
  uniqueness is a precondition wherever it is used. `AddKeepsIdsUnique` and
  `UpdatesKeepIdsUnique` show that the operations keep it when the new id is
  fresh.
- `deleteTask` writes to storage even when no task had the id. A blank add, a
  toggle of an unknown id, a declined or empty clear, and a failed save do not
  write.
- The confetti test ("this task is now completed and exactly one task is")
  holds exactly when the completed count went from 0 to 1 (`FirstCompletion`).
- The dialog opened from the feature buttons (`showTaskModal`) sets the
  editing id to null. Saving it therefore matches no task and changes
  nothing; the typed task is not created (`Scenarios.DetailsWithoutTaskScenario`).
- The percentage reads 100 exactly when 200·completed ≥ 199·total
  (`PercentFull`). Below 200 tasks that means all tasks are done. From 200
  tasks on it does not: 199 of 200 shows 100% (`PercentFullWithOnePending`).
- Three things one might expect from a task list do not hold, and the model
  follows the code in each. Adding does not return the new id. Deleting
  removes every task with the id, not exactly one. The clear-all prompt is
  shown only when the list is non-empty (`ClearAllTasks` returns whether it
  was shown).

The model computes the percentage over exact rationals, rounding to the
nearest integer with ties up. The script divides in floating point first,
which can land just below a tie (see `Tasks.RoundedPercent` under "## Left
out").

## Model

| member | source | states |
|---|---|---|
| JsText.TrimmableCodeUnits | script.js:58 | `IsTrimmable`, the code points `trim` removes: each is one UTF-16 code unit, and the ASCII ones are exactly space and TAB through CR |
| JsText.TrimStart | script.js:58 | the result is a suffix of the input, everything dropped is whitespace, and it does not start with whitespace |
| JsText.TrimEnd | script.js:58 | the result is a prefix of the input, everything dropped is whitespace, and it does not end with whitespace |
| JsText.Trim | script.js:58-59 | `trim()` is empty exactly when the input is all whitespace, and otherwise starts and ends with non-whitespace |
| JsText.TrimIsInfix | script.js:58 | `trim()` keeps a contiguous infix of the input and drops only whitespace around it |
| JsText.TrimFixed | script.js:180 | a string that neither starts nor ends with whitespace is its own trim |
| JsText.TrimIdempotent | script.js:180 | trimming an already trimmed text changes nothing |
| Sequences.Keep | script.js:85-87 | `filter` keeps only elements that satisfy the predicate, all of them, and nothing from outside the list |
| Sequences.KeepIsSubsequence | script.js:85-87 | `filter` preserves the relative order of the elements it keeps |
| Sequences.KeepPartition | script.js:85-87 | filtering by a predicate and by its negation splits the list: the multisets add up to the list's and so do the lengths |
| Sequences.KeepAll | script.js:149 | a filter every element passes returns the list unchanged |
| Sequences.KeepDropsOne | script.js:149 | a filter that rejects exactly one position removes exactly that element |
| Sequences.KeepCountUpdate | script.js:135 | replacing one element changes the filtered count by what the old and new element contribute |
| Tasks.AddSpec | script.js:61-72 | `NewTask` is pending with the dialog's default field values; putting it in front adds it to the front of the pending view, leaves the completed view alone, and raises the total but not the completed count |
| Tasks.DetailsRoundTrip | script.js:165-193 | spreading the values `DetailsOf` loads into the dialog back over the task gives the task back |
| Tasks.WithDetails | script.js:186-193 | spreading the dialog values over a task keeps its id, completion flag and creation time, and sets its five editable fields |
| Tasks.IndexOf | script.js:132-133 | `findIndex` returns the first position whose id matches, or "not found" exactly when no task has the id |
| Tasks.UpdateFirst | script.js:132-135 | updating the first task with an id keeps the length, never changes a task with another id, and a changed task is the update applied to the old one |
| Tasks.UpdateFirstAt | script.js:132-135 | updating the first task with an id is assigning at the position `findIndex` returns, and an absent id changes nothing |
| Tasks.Toggled | script.js:131-135 | the list after a toggle has the same ids at the same positions |
| Tasks.ToggleSpec | script.js:131-135 | toggling flips only `completed` of the first task with the id and keeps every other task and field; an unknown id changes nothing |
| Tasks.ToggleCount | script.js:135 | toggling moves the completed count by one, up when the task becomes completed and down otherwise |
| Tasks.FirstCompletion | script.js:140-143 | the confetti condition holds exactly when the completed count goes from 0 to 1 |
| Tasks.DeleteSpec | script.js:149 | `WithoutId` keeps exactly the tasks with another id, in their original order and as often as each occurs, and removes exactly the tasks with the id; an absent id changes nothing |
| Tasks.WithoutId | script.js:149 | after deleting an id the list is no longer and no task in it has that id |
| Tasks.DeleteUnique | script.js:149 | with unique ids, deleting a present id removes exactly that one task and shortens the list by one |
| Tasks.Edited | script.js:183-193 | the list after editing a task's details has the same ids at the same positions |
| Tasks.Saved | script.js:179-193 | a null editing id never saves, and a successful save keeps the ids at their positions |
| Tasks.SaveSpec | script.js:179-193 | saving fails exactly on a blank title or an editing id that matches no task (null included); on success only the five editable fields of that task change |
| Tasks.EditSaveRoundTrip | script.js:165-193 | saving the values `editTask` loaded, for a task whose text is trimmed and non-empty, gives back the same list |
| Tasks.UpdateFirstNoChange | script.js:183-193 | an update that leaves the matched task as it is leaves the list as it is |
| Tasks.AddKeepsIdsUnique | script.js:61-72 | putting a task with a fresh id in front keeps ids unique |
| Tasks.UpdatesKeepIdsUnique | script.js:131-198 | toggling, saving edits and deleting keep ids unique |
| Tasks.KeepKeepsIdsUnique | script.js:149 | filtering a list with unique ids yields unique ids |
| Tasks.View | script.js:83-88 | a view is no longer than the list and holds only tasks of the list, only pending ones under "pending" and only completed ones under "completed" |
| Tasks.CountCompleted | script.js:220 | the completed count is at most the length, and 0 exactly when no task is completed |
| Tasks.ViewPartition | script.js:83-88 | the "all" view is the list; pending and completed views are order-preserving, each holds only its kind, and together they hold every task exactly once |
| Tasks.RoundedPercent | script.js:221 | the percentage is 0 for an empty list or no completed task, at most 100, 100 when all are done, and the nearest integer to 100·completed/total with ties up |
| Tasks.StatsOf | script.js:218-221 | total is the list length, completed is at most total, and the percentage is in 0..100, 0 on an empty list, 100 when every task is completed |
| Tasks.StatsMatchViews | script.js:219-220 | the completed count is the size of the completed view, and total minus completed is the size of the pending view |
| Tasks.PercentFull | script.js:221 | the percentage is 100 exactly when 200·completed ≥ 199·total |
| Tasks.PercentFullMeansAllDone | script.js:221 | with fewer than 200 tasks, 100% holds exactly when every task is completed |
| Tasks.PercentFullWithOnePending | script.js:221 | 199 completed tasks out of 200 already show 100% |
| Store.TaskStore.constructor | script.js:24-26 | the list starts as the stored list or empty, the filter as "all", and the editing id as null |
| Store.TaskStore.SaveTasks | script.js:237-239 | storage afterwards holds the current list, and nothing else changes |
| Store.TaskStore.AddTask | script.js:57-78 | a blank input changes nothing; otherwise the list grows by one with the new task in front, its text trimmed and its fields at their defaults, the old tasks following in order, and the list saved |
| Store.TaskStore.ToggleTaskComplete | script.js:131-146 | the new list is the toggled list, saved only if the id was found; the confetti result holds exactly on a 0-to-1 change of the completed count |
| Store.TaskStore.DeleteTask | script.js:148-154 | the new list keeps the tasks with another id, and it is saved |
| Store.TaskStore.ClearAllTasks | script.js:156-163 | the user is asked exactly when the list is non-empty; the list is emptied and saved only on a yes; otherwise nothing changes |
| Store.TaskStore.EditTask | script.js:165-177 | for a known id, the editing id becomes that id and the dialog gets the first matching task's fields; an unknown id changes nothing; the list is never changed |
| Store.TaskStore.ShowTaskModal | script.js:201-216 | a blank input changes nothing; otherwise the dialog gets the trimmed input and default values, and the editing id becomes null |
| Store.TaskStore.SaveTaskDetails | script.js:179-199 | a save that fails keeps the list, the storage and the editing id; one that succeeds stores the edited list and resets the editing id to null |
| Store.TaskStore.SetFilter | script.js:229-230 | only the filter changes |
| Store.TaskStore.VisibleTasks | script.js:83-88 | the shown tasks are the filter's view: an order-preserving selection holding only pending or only completed tasks as selected, computed without modifying the store |
| Store.TaskStore.UpdateStats | script.js:218-221 | the panel numbers are the list's statistics: total is the length, completed is the size of the completed view, and the percentage is in 0..100 |

## Left out

- DOM construction, event wiring, the empty-list messages and the showing and hiding of the details dialog (script.js:1-54, 90-128, 176, 197, 214, 223-226) are presentation. So are clearing the input box after an add (script.js:76) and the alert and focus of `showTaskModal`.
- Local storage is a field holding the saved list. The JSON encoding is taken to round-trip exactly. Malformed stored data, which makes `JSON.parse` throw, is not modelled.
- Theme handling (script.js:241-262) is browser and media-query I/O.
- `formatDate` (script.js:264-268) depends on the locale formatter.
- Animations and the confetti drawing (script.js:270-332) are timers, randomness and styling. Only the confetti signal is modelled.
- `Date.now()` and `new Date().toISOString()` are parameters of `AddTask`. Their uniqueness and format are not modelled.
- Tasks.RoundedPercent: computes `Math.round(completed / total * 100)` on exact rationals, rounding ties up. The script divides in doubles first, so a quotient that should sit exactly on a tie can land just below it: 23 of 40 gives 57.49999999999999 and shows 57%, where the model gives 58; 29 of 200 shows 14% against 15. Floating-point rounding is not modelled.
- Store.TaskStore.SetFilter: takes one of the three filters. The script calls `setFilter` only with 'all', 'pending' and 'completed' (script.js:39-41). Any other string would render as "all", and that is not modelled.
- JsText.Trim: works on Unicode code points, while JavaScript strings are UTF-16. Every code point `trim` removes is a single UTF-16 unit (`TrimmableCodeUnits`). Input holding a lone surrogate, which a JavaScript string can contain and a Dafny `string` cannot, is not modelled.
