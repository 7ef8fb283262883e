# Moment Mídia agenda — a verified model of its task and user logic

The agenda is a small web application: people create tasks, assign them to
users, schedule them on a calendar day and tick them off. The data lives in two
remote tables, `tasks` and `users`. The application itself only derives views
from the list of tasks it has loaded, validates and normalises what its two
forms produce, and moves a little dialog and form state around. This project
models exactly that logic in Dafny and proves what it promises.

- `wrappers.dfy` — `Option`, standing in for TypeScript's `T | null`.
- `strings.dfy` — `Strings`: JavaScript's `String.prototype.trim`, over the
  ECMAScript whitespace and line-terminator characters.
- `seqs.dfy` — `Seqs`: `Array.prototype.filter`. The result is an
  order-preserving sublist, holds exactly the elements that pass, and keeps each
  of them exactly as often as it occurs. Filtering by a predicate and by its
  negation partitions the input.
- `dates.dfy` — `Dates`: calendar days as (year, month, day) triples,
  `YYYY<sep>MM<sep>DD` parsing and formatting (both round trips are proved),
  next and previous day, and what a fixed time-zone offset does to "midnight
  UTC" and "local midnight".
- `task_model.dfy` — `TaskModel`: the `Task` and `User` records, and
  JavaScript falsiness of a nullable string.
- `task_list.dfy` — `TaskList`: the priority badge lookups.
- `task_calendar.dfy` — `TaskCalendar`: the calendar's per-day task list,
  its two counters and its two cell modifiers.
- `index_page.dfy` — `Index`: the page's task views and counters, the
  completion toggle, and the page state as a class, `Index.Page`, whose methods
  are the page's handlers.
- `add_task_dialog.dfy` — `AddTaskDialog`: the new-task form and the insert it
  builds. The class `AddTaskDialog.Dialog` holds the form state and its submit
  handler.
- `user_management.dfy` — `UserManagement`: the user form, the insert-or-update
  choice, the delete confirmation gate and the role lookups. The class
  `UserManagement.Dialog` holds the form state.

The database is never called. Each remote call is a parameter of the handler
that makes it:
- whether the call succeeded;
- for a `select`, the rows it returned (a `Fetch` value);
- for a write, the record the handler sends, which the handler returns.

Each asynchronous submit handler is split at its single `await`:
- `BeginSubmit` validates the form, builds the write and raises `loading`;
- `FinishSubmit` takes the outcome, then resets or keeps the form and clears
  `loading`;
- `HandleSubmit` composes the two.

**Time zones.** The local time zone is an explicit parameter,
`utcOffsetMinutes`. It is local time minus UTC, of magnitude less than one day.
The code converts between days and `YYYY-MM-DD` strings in three places:
- The page (`src/pages/Index.tsx:176`) first turns the dashes into slashes.
  The runtime then reads the string as a local day. For years 100 to 9999 the
  page lists a task under the day its string names in every zone
  (`Index.ListedOnTheDayItNames`); years 0 to 99 are listed under "## Left out".
- The calendar (`src/components/TaskCalendar.tsx:26`) passes the string to
  `new Date` unchanged. The runtime reads it as midnight UTC. West of UTC, that
  instant falls on the previous local day. `Index.CalendarVersusList` proves
  that the calendar's cell for day d then shows the tasks the page lists under
  the following day. `Index.CalendarMissesMarchTenthWestOfUtc` gives a concrete
  case at UTC-3.
- The new-task dialog (`src/components/AddTaskDialog.tsx:79`) stores
  `toISOString().split('T')[0]` of a date picked at local midnight. East of UTC,
  that is the previous day (`AddTaskDialog.StoredDayIsPickedDayIffNotEastOfUtc`,
  `AddTaskDialog.NewTaskListedOnPickedDay`).

All three readings are modelled as the code has them.

**Behaviour worth knowing.**
- A task counts as unscheduled when `scheduled_date` is null or the empty
  string (`!task.scheduled_date`, src/pages/Index.tsx:182).
- A failed `loadTasks` or `loadUsers` throws before `setTasks` or `setUsers`,
  so the list keeps what it had (src/pages/Index.tsx:62-63, 82-83).
- The "no one responsible" option of the assignee select is the empty string
  (src/components/AddTaskDialog.tsx:152), which the insert turns into null.
- The task dialog takes no task to edit, so it never pre-fills a form (see
  "Left out").

## Model

| member | source | states |
|---|---|---|
| `Strings.Trim` | src/components/AddTaskDialog.tsx:63-77 | `trim()` yields a slice of its input. Only whitespace lies outside the slice. The result is empty exactly when the input is all whitespace, and otherwise neither starts nor ends with whitespace |
| `Strings.TrimIdempotent` | src/components/AddTaskDialog.tsx:76 | trimming a trimmed title changes nothing |
| `Strings.BlankIffAllWhitespace` | src/components/UserManagement.tsx:75 | the `!s.trim()` guard rejects exactly the strings made only of whitespace |
| `Seqs.Filter` | src/pages/Index.tsx:171-182 | `filter` returns an order-preserving sublist that holds exactly the passing elements. Each passing element occurs exactly as often as in the input, so nothing is invented or duplicated |
| `Seqs.FilterPartition` | src/pages/Index.tsx:181-183 | filtering by a predicate and by its negation gives two disjoint parts. Their multisets add up to the input and their lengths to its length |
| `Seqs.FilterCongruent` | src/pages/Index.tsx:171-178 | a filter depends only on what its predicate says about the elements present |
| `Seqs.FilterFilter` | src/components/TaskCalendar.tsx:35-37 | filtering a filtered list is filtering once by the conjunction |
| `Dates.ParseDate` | src/pages/Index.tsx:176 | a string that reads as a day names a real calendar day with a four-digit year. Any other string reads as no day (Invalid Date) |
| `Dates.ParseDateString` | src/components/AddTaskDialog.tsx:79 | every day of years 0–9999, formatted as `YYYY-MM-DD` and read back, is the same day |
| `Dates.DateStringOfParse` | src/pages/Index.tsx:176 | a string that reads as a day is that day's formatted form, so each day has exactly one text form |
| `Dates.ParsedCharacters` | src/pages/Index.tsx:176 | a string that reads as a day holds only digits and its separator |
| `Dates.ReplaceAll` | src/pages/Index.tsx:176 | `replace(/-/g, "/")`: same length, every dash becomes a slash, every other character stays where it was, and no dash is left |
| `Dates.SlashReadingOfDashDate` | src/pages/Index.tsx:173-176 | on a string without slashes, reading after `replace(/-/g, "/")` gives the same day as reading the dashed form |
| `Dates.UtcMidnightAsLocalDay` | src/components/TaskCalendar.tsx:26-27 | the local day of "midnight UTC of d" is d exactly when the zone is at or east of UTC. Otherwise it is the day before d |
| `Dates.LocalMidnightAsUtcDay` | src/components/AddTaskDialog.tsx:79 | the UTC day of "local midnight of d" is d exactly when the zone is at or west of UTC. Otherwise it is the day before d |
| `Dates.PrevDay` | src/components/TaskCalendar.tsx:26 | the previous calendar day differs from d, and the next day after it is d again |
| `Dates.NumberValueOfDigits` | src/components/AddTaskDialog.tsx:79 | a number written zero-padded in enough digits reads back as that number |
| `Dates.DigitsOfNumberValue` | src/pages/Index.tsx:176 | a digit string reads as a number below 10^width that writes back as the same string |
| `TaskList.PriorityColor` | src/components/TaskList.tsx:28-39 | every string gets one of three classes. The destructive class goes to exactly `high` and the primary class to exactly `medium`. `low` and every unknown string share the muted class |
| `TaskList.PriorityLabel` | src/components/TaskList.tsx:41-52 | every string gets one of three labels: `Alta` for exactly `high`, `Baixa` for exactly `low`, and `Média` for `medium` and everything else |
| `TaskList.KnownPrioritiesDistinct` | src/components/TaskList.tsx:28-52 | the three task priorities get pairwise different labels and pairwise different classes |
| `TaskList.UnknownPriorityFallbacks` | src/components/TaskList.tsx:36-50 | an unknown priority is labelled like `medium` and coloured like `low` |
| `TaskCalendar.TasksForDate` | src/components/TaskCalendar.tsx:23-29 | the calendar's list for a day is an order-preserving sublist of the tasks. It holds exactly the tasks whose UTC-read date falls on that local day, each as often as it occurs in the list, and none without a date |
| `TaskCalendar.HasTasksOnDate` | src/components/TaskCalendar.tsx:31-33 | true exactly when some task is counted on the day |
| `TaskCalendar.HighPriorityTasksOnDate` | src/components/TaskCalendar.tsx:35-37 | exactly the number of tasks of the whole list that are both counted on the day and `high`. At most the number of tasks counted on the day. Positive exactly when a `high` task is counted on the day |
| `TaskCalendar.HasTasksModifier` | src/components/TaskCalendar.tsx:46-47 | a cell has the `hasTasks` modifier exactly when the day's task list is non-empty, that is, when some task is counted on the day |
| `TaskCalendar.HighPriorityModifier` | src/components/TaskCalendar.tsx:46-49 | a cell has the `highPriority` modifier exactly when some `high` task is counted on the day |
| `TaskCalendar.HighPriorityImpliesHasTasks` | src/components/TaskCalendar.tsx:46-49 | a cell with the `highPriority` modifier always has the `hasTasks` modifier too |
| `TaskCalendar.UnscheduledNeverCounted` | src/components/TaskCalendar.tsx:24-25 | a task without a date is counted on no day, in any zone |
| `Index.TasksForDate` | src/pages/Index.tsx:170-179 | the page's list for a day is an order-preserving sublist of the tasks. It holds exactly the tasks whose date, with slashes for dashes, reads as that day, each as often as it occurs in the list, and every one of them has a non-empty date |
| `Index.UnscheduledTasks` | src/pages/Index.tsx:181-183 | an order-preserving sublist holding exactly the tasks whose date is null or empty, each as often as it occurs in the list |
| `Index.CompletedTasksCount` | src/pages/Index.tsx:185-187 | the length of the list filtered to its completed tasks, counting repeats. At most the number of tasks. Zero exactly when no task is completed, and the total exactly when all are |
| `Index.TotalTasksCount` | src/pages/Index.tsx:189-191 | the total is the completed count plus the number of open tasks, so each task is counted exactly once |
| `Index.CountsBounded` | src/pages/Index.tsx:185-191 | completed ≤ total and unscheduled ≤ total. The day's list plus the unscheduled list is also ≤ total, because the two are disjoint |
| `Index.ScheduledUnscheduledPartition` | src/pages/Index.tsx:171-183 | the unscheduled and the scheduled tasks are disjoint and together make up the list. Every task listed under a day is a scheduled one |
| `Index.ListedOnTheDayItNames` | src/pages/Index.tsx:172-177 | a task whose date is a well-formed `YYYY-MM-DD` string is listed under a day exactly when that day is the one the string names (see "## Left out" for years 0 to 99) |
| `Index.ParseMarchTenth` | src/pages/Index.tsx:176 | "2024-03-10" reads as 10 March 2024 |
| `Index.ListsMarchTenthOnMarchTenth` | src/pages/Index.tsx:173-176 | a task dated "2024-03-10" is listed under 10 March 2024. The page's filter takes no zone, so this holds in every zone |
| `Index.CalendarVersusList` | src/components/TaskCalendar.tsx:23-29 | for dash-form dates, the calendar's list for day d is the page's list for d at or east of UTC. West of UTC it is the page's list for the day after d |
| `Index.CalendarMissesMarchTenthWestOfUtc` | src/components/TaskCalendar.tsx:26 | at UTC-3, a task dated "2024-03-10" is on the page's 10 March list but in the calendar's 9 March cell, and the calendar shows nothing on the 10th |
| `Index.CompletionPatchFor` | src/pages/Index.tsx:130-135 | the update targets the given id and writes the negation of the given value |
| `Index.ApplyPatch` | src/pages/Index.tsx:132-135 | the update changes only `completed`, and only on the row with the patch's id |
| `TaskList.ToggleCallFor` | src/components/TaskList.tsx:77 | the card's toggle hands over its own task's id and the completion state it shows |
| `Index.PatchForClick` | src/components/TaskList.tsx:77 | clicking a card's toggle sends the update for that task's own id and negates its current value |
| `Index.ToggleTwiceRestores` | src/pages/Index.tsx:134 | one click flips the task's completion, and a second click on the refreshed task restores the original task |
| `Index.RowsAfter` | src/pages/Index.tsx:62-63 | a failed fetch keeps the old rows, a `null` result gives `[]`, and otherwise the fetched rows |
| `Index.Page.constructor` | src/pages/Index.tsx:35-41 | the initial state: today selected, no tasks or users, loading, no dialog open, nothing being edited |
| `Index.Page.LoadTasks` | src/pages/Index.tsx:50-73 | the list becomes `RowsAfter` of the result and loading always ends. Nothing else changes |
| `Index.Page.LoadUsers` | src/pages/Index.tsx:75-91 | the user list becomes `RowsAfter` of the result. `loading` and everything else stay as they were |
| `Index.Page.HandleTaskAdded` | src/pages/Index.tsx:93-100 | reloads the list and closes the task dialog. The edited task is kept |
| `Index.Page.HandleTaskUpdated` | src/pages/Index.tsx:102-110 | reloads the list, closes the task dialog and clears the edited task |
| `Index.Page.HandleOpenAddDialog` | src/pages/Index.tsx:112-115 | the dialog is open with no edited task. The list is unchanged |
| `Index.Page.HandleOpenEditDialog` | src/pages/Index.tsx:117-120 | the dialog is open on the given task. The list is unchanged |
| `Index.Page.SetTaskDialogOpen` | src/pages/Index.tsx:333-335 | closing (or opening) the task dialog moves only the open flag. The list and the edited task are unchanged, so a cancelled edit changes no task |
| `Index.Page.SetUserManagementOpen` | src/pages/Index.tsx:342-344 | only the user dialog's open flag moves |
| `Index.Page.SelectDate` | src/pages/Index.tsx:285-287 | only the selected day moves |
| `Index.Page.HandleUserUpdated` | src/pages/Index.tsx:122-128 | reloads the user list. Nothing else changes |
| `Index.Page.ToggleTaskCompletion` | src/pages/Index.tsx:130-146 | sends the negating patch. The list is reloaded only when the update succeeded, and is unchanged otherwise |
| `Index.Page.DeleteTask` | src/pages/Index.tsx:148-168 | sends a delete of the given id with no confirmation. The list is reloaded only when the delete succeeded |
| `AddTaskDialog.EmptyAsNull` | src/components/AddTaskDialog.tsx:77-78 | JavaScript's or-null idiom on a string: null exactly for the empty string, the string itself otherwise |
| `AddTaskDialog.BeforeFirst` | src/components/AddTaskDialog.tsx:79 | `split(sep)[0]` is the longest prefix without the separator. It ends at the first separator, or at the end of the string |
| `AddTaskDialog.BeforeFirstOfPrefix` | src/components/AddTaskDialog.tsx:79 | the split stops exactly after a separator-free prefix that is followed by the separator |
| `AddTaskDialog.UtcMinutesOfLocalMidnight` | src/components/AddTaskDialog.tsx:79 | the minute past UTC midnight at which local midnight falls: in 0..1439 and congruent to minus the offset modulo one day |
| `AddTaskDialog.IsoTimestampOfPick` | src/components/AddTaskDialog.tsx:79 | `toISOString()` of the picked day's local midnight is 24 characters, `T` at position 10. Its date part reads as the UTC day of that instant, its hours (below 24) and minutes (below 60) give the minute of that instant past UTC midnight |
| `AddTaskDialog.StoredDayOfPick` | src/components/AddTaskDialog.tsx:79 | the date part of the picked day's ISO timestamp reads as the UTC day of that day's local midnight |
| `AddTaskDialog.NewTaskRecord` | src/components/AddTaskDialog.tsx:75-81 | the inserted title is the trimmed title, non-empty and without surrounding whitespace. The description is null exactly when it is blank, and trimmed otherwise. The assignee is null exactly for `""`, and the selected id otherwise. The date is null exactly when none was picked. The priority is passed through |
| `AddTaskDialog.StoredDayIsPickedDayIffNotEastOfUtc` | src/components/AddTaskDialog.tsx:79 | the stored date names the picked day exactly when the zone is at or west of UTC. East of UTC it names the day before |
| `AddTaskDialog.NewTaskListedOnPickedDay` | src/components/AddTaskDialog.tsx:79 | once reloaded, the new task is listed by the page under the picked day exactly when the zone is at or west of UTC |
| `AddTaskDialog.Dialog.constructor` | src/components/AddTaskDialog.tsx:50-57 | the initial form: empty texts, no assignee, no date, `medium` priority, not loading |
| `AddTaskDialog.Dialog.SetTitle` | src/components/AddTaskDialog.tsx:125 | only the title field changes |
| `AddTaskDialog.Dialog.SetDescription` | src/components/AddTaskDialog.tsx:136 | only the description field changes |
| `AddTaskDialog.Dialog.SetAssignedUser` | src/components/AddTaskDialog.tsx:146 | only the assignee field changes |
| `AddTaskDialog.Dialog.PickDate` | src/components/AddTaskDialog.tsx:185 | only the date field changes, to the picked day |
| `AddTaskDialog.Dialog.ClearDate` | src/components/AddTaskDialog.tsx:194 | only the date field changes, to none |
| `AddTaskDialog.Dialog.SetPriority` | src/components/AddTaskDialog.tsx:209 | only the priority field changes |
| `AddTaskDialog.Dialog.BeginSubmit` | src/components/AddTaskDialog.tsx:60-81 | only starts when not loading, as the submit button disabled while loading ensures. A blank title sends nothing and changes nothing. Otherwise the insert is `NewTaskRecord` of the form, and the dialog is loading while it is in flight. The form is unchanged either way |
| `AddTaskDialog.Dialog.FinishSubmit` | src/components/AddTaskDialog.tsx:83-103 | success resets the form to its initial value and notifies the page. Failure keeps the form for a retry. Loading ends either way |
| `AddTaskDialog.Dialog.HandleSubmit` | src/components/AddTaskDialog.tsx:60-104 | only starts when not loading. The two halves composed: validation gate, insert, then reset on success or keep on failure, and loading ends |
| `UserManagement.UserRowOf` | src/components/UserManagement.tsx:87-90 | the saved name is the trimmed name, non-empty and without surrounding whitespace. The role is as chosen |
| `UserManagement.WriteFor` | src/components/UserManagement.tsx:92-115 | exactly one write: an update filtered by the edited user's id when there is one, otherwise an insert, carrying the same row either way |
| `UserManagement.RoleLabel` | src/components/UserManagement.tsx:156-165 | `manager` gives `Gerente` and `social_media` gives `Social Media`. The tag is returned unchanged exactly when it is neither |
| `UserManagement.RoleColor` | src/components/UserManagement.tsx:167-176 | every tag gets one of three classes: a class of its own for each known role, and the muted class for all others |
| `UserManagement.Dialog.constructor` | src/components/UserManagement.tsx:45-51 | the initial state is the reset state (empty name, `social_media`, nothing edited, list view) and not loading |
| `UserManagement.Dialog.ResetForm` | src/components/UserManagement.tsx:54-61 | returns to exactly the initial state, leaving `loading` alone |
| `UserManagement.Dialog.HandleEdit` | src/components/UserManagement.tsx:63-70 | the form holds the user's name and role, the user is the one being edited, and the form is shown |
| `UserManagement.Dialog.OpenNewUserForm` | src/components/UserManagement.tsx:195-196 | shows the form and changes nothing else |
| `UserManagement.Dialog.SetName` | src/components/UserManagement.tsx:257 | only the name field changes |
| `UserManagement.Dialog.SetRole` | src/components/UserManagement.tsx:269 | only the role field changes |
| `UserManagement.Dialog.BeginSubmit` | src/components/UserManagement.tsx:72-115 | only starts when not loading, as the save button disabled while loading ensures. A blank name sends nothing and changes nothing. Otherwise exactly the write `WriteFor` chooses is sent, and loading is on. The form and the edited user are unchanged |
| `UserManagement.Dialog.FinishSubmit` | src/components/UserManagement.tsx:116-128 | success resets the form and notifies the page. Failure keeps the form, the edited user and the form view. Loading ends either way |
| `UserManagement.Dialog.HandleSubmit` | src/components/UserManagement.tsx:72-128 | only starts when not loading. The two halves composed: validation gate, one insert or update, then reset on success or keep on failure, and loading ends |
| `UserManagement.Dialog.HandleDelete` | src/components/UserManagement.tsx:130-154 | a delete of the given id is sent exactly when the confirmation was accepted. The page is notified exactly when the sent delete succeeded |

## Left out

- The database client. Every `select`, `insert`, `update` and `delete` is a parameter of the model (success or failure, plus the returned rows) or a record the handler returns. The server-side ordering (tasks by `created_at` descending, users by `name`) and the `users(name)` join are the database's work and are not modelled. The joined assignee name is left out of `Task`.
- Toast notifications, JSX rendering and styling are presentation. The loading spinner's render gate is not modelled. `confirm()` is a boolean input of `HandleDelete`.
- The runtime's `Date` library. Days are (year, month, day) triples, and the zone is one fixed offset of less than a day. Daylight-saving changes are not modelled. The runtime's lenient reading of malformed or out-of-range strings (it rolls "2024-02-30" over, and it reads other shapes) is not modelled either: the model reads only well-formed strings that name a real day, and every other string reads as no day.
- `Index.ShownOnDay` and `Index.ListedOnTheDayItNames`: the page hands the slash form `YYYY/MM/DD` to the runtime's non-ISO date parser. That parser does not read a year from 0 to 99 as written: depending on its value, it shifts it into 1900–2049, or it takes the year for a month and reads another day (years 1 to 12) or no day (years 13 to 31). The model reads the year as written, so for years 0 to 99 it lists the task under the day the string names, which the runtime does not.
- The Cancel buttons are disabled while a submit is in flight (src/components/AddTaskDialog.tsx:227, src/components/UserManagement.tsx:286). `UserManagement.Dialog.ResetForm` does not carry that gate, because `FinishSubmit` calls it after a save while the dialog is still loading. `Index.Page.SetTaskDialogOpen` does not either, because the page does not see the dialog's `loading`. The submit gate is modelled: both `BeginSubmit` and both `HandleSubmit` require that the dialog is not loading.
- `AddTaskDialog.PickableDate` admits only the years 1 to 9999. Year 0 is excluded because, east of UTC, local midnight on 1 January of year 0 falls in UTC year −1, which `toISOString` writes in its six-digit extended form. It writes every year below 0 or above 9999 in that form, and the model does not cover it.
- Asynchrony. Each handler runs atomically, except for the split of the two submit handlers at their one `await`. The concurrent `loadTasks` and `loadUsers` on mount, and requests that are never cancelled, are not modelled.
- `loadUsers` and the toggle's and delete's reloads run as separate handler calls, not as promises chained inside the handler. The model makes the reload a parameter.
- The "Nova Tarefa" button calls `setShowAddTask`, which is undefined (src/pages/Index.tsx:220). It has no behaviour to model. `Index.Page.HandleOpenAddDialog` models the handler the page defines but never wires to that button.
- The page passes `onEdit`, `taskToEdit` and `onTaskUpdated`, but `TaskList` and `AddTaskDialog` do not declare them. So no edit flow reaches the dialog, and the dialog never pre-fills its form. `Index.Page.HandleOpenEditDialog` and `Index.Page.HandleTaskUpdated` are modelled as the page defines them.
- The three `User` record shapes differ between files. The model uses the `id`, `name` and `role` of the user dialog, and leaves out `phone` and `email`, which no modelled logic reads.
- User deletion. What happens to tasks assigned to a deleted user is up to the database and is not modelled.
