/**
 * The agenda page (`Index`): the task views it derives from its `tasks` state,
 * the completion toggle it sends, and the handlers that move its state.
 *
 * The page reads a task's `YYYY-MM-DD` string as a LOCAL day: it turns the
 * dashes into slashes before handing the string to `new Date`, so that the
 * day it compares does not depend on the time zone.
 */
module Index {
  import opened Wrappers
  import opened Seqs
  import opened Dates
  import opened TaskModel
  import TaskList
  import TaskCalendar

  // ---------------------------------------------------------------------------
  // Views over the task list

  /** The page lists `t` under day `d`: its date string, dashes made slashes, reads as `d`. */
  predicate ShownOnDay(t: Task, d: Date) {
    && !IsFalsy(t.scheduledDate)
    && ParseDate(ReplaceAll(t.scheduledDate.value, '-', '/'), '/') == Some(d)
  }

  /**
   * `getTasksForDate`: the tasks listed under day `d`, in list order; every one
   * of them has a scheduled date.
   */
  function TasksForDate(tasks: seq<Task>, d: Date): (r: seq<Task>)
    ensures Sublist(r, tasks)
    ensures forall t :: t in r <==> t in tasks && ShownOnDay(t, d)
    ensures forall t :: multiset(r)[t] == if ShownOnDay(t, d) then multiset(tasks)[t] else 0
    ensures forall t :: t in r ==> t.scheduledDate.Some? && t.scheduledDate.value != ""
  {
    Filter(tasks, t => ShownOnDay(t, d))
  }

  predicate IsUnscheduled(t: Task) {
    IsFalsy(t.scheduledDate)
  }

  /** `getUnscheduledTasks`: exactly the tasks without a scheduled date, in list order. */
  function UnscheduledTasks(tasks: seq<Task>): (r: seq<Task>)
    ensures Sublist(r, tasks)
    ensures forall t :: t in r <==> t in tasks && IsFalsy(t.scheduledDate)
    ensures forall t :: multiset(r)[t] == if IsFalsy(t.scheduledDate) then multiset(tasks)[t] else 0
  {
    Filter(tasks, IsUnscheduled)
  }

  predicate IsCompleted(t: Task) {
    t.completed
  }

  /**
   * `getCompletedTasksCount`: the number of completed tasks, counted with
   * multiplicity; at most the number of tasks; zero exactly when no
   * task is completed, and the total exactly when every task is.
   */
  function CompletedTasksCount(tasks: seq<Task>): (n: nat)
    ensures n == |Filter(tasks, IsCompleted)|
    ensures n <= |tasks|
    ensures n == 0 <==> forall t :: t in tasks ==> !t.completed
    ensures n == |tasks| <==> forall t :: t in tasks ==> t.completed
  {
    var done := Filter(tasks, IsCompleted);
    FilterPartition(tasks, IsCompleted);
    var open := Filter(tasks, Negate(IsCompleted));
    assert done != [] ==> done[0] in done;
    assert open != [] ==> open[0] in open;
    |done|
  }

  /** `getTotalTasksCount`: every task is either completed or open, and counted once. */
  function TotalTasksCount(tasks: seq<Task>): (n: nat)
    ensures n == CompletedTasksCount(tasks) + |Filter(tasks, Negate(IsCompleted))|
  {
    FilterPartition(tasks, IsCompleted);
    |tasks|
  }

  /**
   * The page's three counters: completed and unscheduled tasks are each at most
   * the total, and the tasks listed under any one day and the unscheduled ones
   * are disjoint, so together they are at most the total too.
   */
  lemma CountsBounded(tasks: seq<Task>, d: Date)
    ensures CompletedTasksCount(tasks) <= TotalTasksCount(tasks)
    ensures |UnscheduledTasks(tasks)| <= TotalTasksCount(tasks)
    ensures |TasksForDate(tasks, d)| + |UnscheduledTasks(tasks)| <= TotalTasksCount(tasks)
  {
    var onDay := TasksForDate(tasks, d);
    var scheduled := Filter(tasks, Negate(IsUnscheduled));
    FilterPartition(tasks, IsUnscheduled);
    FilterFilter(tasks, Negate(IsUnscheduled), t => ShownOnDay(t, d));
    FilterCongruent(tasks, Both(Negate(IsUnscheduled), t => ShownOnDay(t, d)), t => ShownOnDay(t, d));
    assert onDay == Filter(scheduled, t => ShownOnDay(t, d));
  }

  /**
   * The unscheduled tasks and the scheduled ones split the list: together they
   * hold every task exactly as often as the list does, and no task is in both.
   * The tasks listed under a day are among the scheduled ones.
   */
  lemma ScheduledUnscheduledPartition(tasks: seq<Task>, d: Date)
    ensures var scheduled := Filter(tasks, Negate(IsUnscheduled));
            && multiset(UnscheduledTasks(tasks)) + multiset(scheduled) == multiset(tasks)
            && (forall t :: !(t in UnscheduledTasks(tasks) && t in scheduled))
            && (forall t :: t in TasksForDate(tasks, d) ==> t in scheduled)
  {
    FilterPartition(tasks, IsUnscheduled);
  }

  /**
   * For a task whose date is a well-formed `YYYY-MM-DD` string, the page lists it
   * under exactly one day: the day the string names, read as a local day.
   */
  lemma ListedOnTheDayItNames(tasks: seq<Task>, t: Task, s: string, named: Date, d: Date)
    requires t in tasks && t.scheduledDate == Some(s)
    requires ParseDate(s, '-') == Some(named)
    ensures t in TasksForDate(tasks, d) <==> d == named
  {
    ParsedCharacters(s, '-');
    assert '/' !in s;
    SlashReadingOfDashDate(s);
  }

  /** The string "2024-03-10" reads as 10 March 2024. */
  lemma ParseMarchTenth()
    ensures ParseDate("2024-03-10", '-') == Some(Date(2024, 3, 10))
  {
    var s := "2024-03-10";
    assert s[..4] == "2024" && s[5..7] == "03" && s[8..] == "10";
    assert AllDigits("2024") && AllDigits("03") && AllDigits("10");
    assert NumberValue("2") == 2;
    assert "20"[..1] == "2";
    assert NumberValue("20") == 20;
    assert "202"[..2] == "20";
    assert NumberValue("202") == 202;
    assert "2024"[..3] == "202";
    assert NumberValue("2024") == 2024;
    assert NumberValue("0") == 0;
    assert "03"[..1] == "0";
    assert NumberValue("03") == 3;
    assert NumberValue("1") == 1;
    assert "10"[..1] == "1";
    assert NumberValue("10") == 10;
  }

  /**
   * The regression the page's slash substitution exists for: a task dated
   * "2024-03-10" is listed under 10 March 2024, whatever the time zone.
   */
  lemma ListsMarchTenthOnMarchTenth(tasks: seq<Task>, t: Task)
    requires t in tasks && t.scheduledDate == Some("2024-03-10")
    ensures t in TasksForDate(tasks, Date(2024, 3, 10))
  {
    var d := Date(2024, 3, 10);
    ParseMarchTenth();
    ListedOnTheDayItNames(tasks, t, "2024-03-10", d, d);
  }

  // ---------------------------------------------------------------------------
  // The calendar next to the list

  /** Every task with a date has a dash-form date string without slashes (as the `date` column yields). */
  predicate DashDatesOnly(tasks: seq<Task>) {
    forall t :: t in tasks && t.scheduledDate.Some? ==> '/' !in t.scheduledDate.value
  }

  /**
   * The calendar marks the day the page lists a task under when the zone is at
   * or east of UTC; west of UTC it marks the day before, so the calendar cell
   * for `d` shows the tasks the page lists under the day after `d`.
   */
  lemma CalendarVersusList(tasks: seq<Task>, d: Date, utcOffsetMinutes: int)
    requires ValidDate(d) && IsZoneOffset(utcOffsetMinutes)
    requires DashDatesOnly(tasks)
    ensures TaskCalendar.TasksForDate(tasks, d, utcOffsetMinutes)
            == if utcOffsetMinutes >= 0 then TasksForDate(tasks, d) else TasksForDate(tasks, NextDay(d))
  {
    var listed := if utcOffsetMinutes >= 0 then d else NextDay(d);
    forall t | t in tasks
      ensures TaskCalendar.ShownOnCalendarDay(t, d, utcOffsetMinutes) == ShownOnDay(t, listed)
    {
      if !IsFalsy(t.scheduledDate) {
        var s := t.scheduledDate.value;
        SlashReadingOfDashDate(s);
        if utcOffsetMinutes < 0 {
          match ParseDate(s, '-')
          case None =>
          case Some(u) =>
            PrevDayOfNextDay(d);
        }
      }
    }
    FilterCongruent(tasks, t => TaskCalendar.ShownOnCalendarDay(t, d, utcOffsetMinutes), t => ShownOnDay(t, listed));
  }

  /**
   * In Brasília (UTC-3) a task dated "2024-03-10" is listed under 10 March but
   * its calendar cell is 9 March: the calendar shows nothing on the 10th.
   */
  lemma CalendarMissesMarchTenthWestOfUtc(t: Task)
    requires t.scheduledDate == Some("2024-03-10")
    ensures t in TasksForDate([t], Date(2024, 3, 10))
    ensures TaskCalendar.TasksForDate([t], Date(2024, 3, 10), -180) == []
    ensures t in TaskCalendar.TasksForDate([t], Date(2024, 3, 9), -180)
  {
    ListsMarchTenthOnMarchTenth([t], t);
    ParseMarchTenth();
    assert UtcMidnightAsLocalDay(Date(2024, 3, 10), -180) == Date(2024, 3, 9);
  }

  // ---------------------------------------------------------------------------
  // Completion toggle

  /** The row update `toggleTaskCompletion` sends: `completed` set on the row with `taskId`. */
  datatype CompletionPatch = CompletionPatch(taskId: string, completed: bool)

  /** `toggleTaskCompletion(taskId, completed)` writes the negation of the value it was given. */
  function CompletionPatchFor(taskId: string, completed: bool): (p: CompletionPatch)
    ensures p.taskId == taskId && p.completed != completed
  {
    CompletionPatch(taskId, !completed)
  }

  /** The database applying a completion patch to one row: only the row with that id changes, and only in `completed`. */
  function ApplyPatch(t: Task, p: CompletionPatch): (r: Task)
    ensures r.id == t.id
    ensures r.completed == if p.taskId == t.id then p.completed else t.completed
    ensures r.(completed := t.completed) == t
  {
    if p.taskId == t.id then t.(completed := p.completed) else t
  }

  /** Clicking a task's completion button: the card passes its own id and current value on. */
  function PatchForClick(t: Task): (p: CompletionPatch)
    ensures p.taskId == t.id && p.completed == !t.completed
  {
    var call := TaskList.ToggleCallFor(t);
    CompletionPatchFor(call.taskId, call.completed)
  }

  /** One click flips the task's completion; a second click on the refreshed task restores it. */
  lemma ToggleTwiceRestores(t: Task)
    ensures ApplyPatch(t, PatchForClick(t)).completed == !t.completed
    ensures var once := ApplyPatch(t, PatchForClick(t));
            ApplyPatch(once, PatchForClick(once)) == t
  {
  }

  // ---------------------------------------------------------------------------
  // Page state

  /** What a `select` on a table resolves to: rows (possibly `null`) or an error message. */
  datatype Fetch<T> = Fetched(data: Option<T>) | FetchFailed(message: string)

  /** The rows a successful fetch puts in state (`data || []`), or the old rows when it failed. */
  function RowsAfter<T>(old_rows: seq<T>, result: Fetch<seq<T>>): (rows: seq<T>)
    ensures result.FetchFailed? ==> rows == old_rows
    ensures result == Fetched(None) ==> rows == []
    ensures result.Fetched? && result.data.Some? ==> rows == result.data.value
  {
    match result
    case FetchFailed(_) => old_rows
    case Fetched(data) => data.GetOr([])
  }

  class Page {
    var selectedDate: Option<Date>
    var tasks: seq<Task>
    var users: seq<User>
    var isTaskDialogOpen: bool
    var showUserManagement: bool
    var loading: bool
    var editingTask: Option<Task>

    /** The page as first rendered: today selected, nothing loaded yet, no dialog open. */
    constructor (today: Date)
      ensures selectedDate == Some(today) && tasks == [] && users == []
      ensures !isTaskDialogOpen && !showUserManagement && loading && editingTask == None
    {
      selectedDate := Some(today);
      tasks := [];
      users := [];
      isTaskDialogOpen := false;
      showUserManagement := false;
      loading := true;
      editingTask := None;
    }

    /**
     * `loadTasks`: replaces the list with the fetched rows (`[]` for `null`),
     * keeps it on error, and always ends the loading state.
     */
    method LoadTasks(result: Fetch<seq<Task>>)
      modifies this
      ensures !loading
      ensures tasks == RowsAfter(old(tasks), result)
      ensures selectedDate == old(selectedDate) && users == old(users) && editingTask == old(editingTask)
      ensures isTaskDialogOpen == old(isTaskDialogOpen) && showUserManagement == old(showUserManagement)
    {
      match result {
        case Fetched(data) =>
          tasks := data.GetOr([]);
        case FetchFailed(_) =>
      }
      loading := false;
    }

    /** `loadUsers`: like `loadTasks` for the user list, but it leaves `loading` alone. */
    method LoadUsers(result: Fetch<seq<User>>)
      modifies this
      ensures users == RowsAfter(old(users), result)
      ensures selectedDate == old(selectedDate) && tasks == old(tasks) && editingTask == old(editingTask)
      ensures isTaskDialogOpen == old(isTaskDialogOpen) && showUserManagement == old(showUserManagement)
      ensures loading == old(loading)
    {
      match result {
        case Fetched(data) =>
          users := data.GetOr([]);
        case FetchFailed(_) =>
      }
    }

    /** `handleTaskAdded`: reloads the list and closes the task dialog. */
    method HandleTaskAdded(result: Fetch<seq<Task>>)
      modifies this
      ensures !isTaskDialogOpen && !loading
      ensures tasks == RowsAfter(old(tasks), result)
      ensures editingTask == old(editingTask) && users == old(users) && selectedDate == old(selectedDate)
      ensures showUserManagement == old(showUserManagement)
    {
      LoadTasks(result);
      isTaskDialogOpen := false;
    }

    /** `handleTaskUpdated`: reloads the list, closes the task dialog and forgets the task being edited. */
    method HandleTaskUpdated(result: Fetch<seq<Task>>)
      modifies this
      ensures !isTaskDialogOpen && editingTask == None && !loading
      ensures tasks == RowsAfter(old(tasks), result)
      ensures users == old(users) && selectedDate == old(selectedDate)
      ensures showUserManagement == old(showUserManagement)
    {
      LoadTasks(result);
      isTaskDialogOpen := false;
      editingTask := None;
    }

    /** `handleOpenAddDialog`: opens the task dialog with no task being edited. */
    method HandleOpenAddDialog()
      modifies this
      ensures isTaskDialogOpen && editingTask == None
      ensures tasks == old(tasks) && users == old(users) && selectedDate == old(selectedDate)
      ensures loading == old(loading) && showUserManagement == old(showUserManagement)
    {
      editingTask := None;
      isTaskDialogOpen := true;
    }

    /** `handleOpenEditDialog`: opens the task dialog on `task`. */
    method HandleOpenEditDialog(task: Task)
      modifies this
      ensures isTaskDialogOpen && editingTask == Some(task)
      ensures tasks == old(tasks) && users == old(users) && selectedDate == old(selectedDate)
      ensures loading == old(loading) && showUserManagement == old(showUserManagement)
    {
      editingTask := Some(task);
      isTaskDialogOpen := true;
    }

    /**
     * The dialog's `onOpenChange` (its Cancel button and close control): only the
     * open flag moves; the task list is untouched and the edited task is kept.
     */
    method SetTaskDialogOpen(open: bool)
      modifies this
      ensures isTaskDialogOpen == open
      ensures tasks == old(tasks) && editingTask == old(editingTask) && users == old(users)
      ensures selectedDate == old(selectedDate) && loading == old(loading)
      ensures showUserManagement == old(showUserManagement)
    {
      isTaskDialogOpen := open;
    }

    /** The users button and the user dialog's `onOpenChange`. */
    method SetUserManagementOpen(open: bool)
      modifies this
      ensures showUserManagement == open
      ensures tasks == old(tasks) && editingTask == old(editingTask) && users == old(users)
      ensures selectedDate == old(selectedDate) && loading == old(loading)
      ensures isTaskDialogOpen == old(isTaskDialogOpen)
    {
      showUserManagement := open;
    }

    /** The calendar's `onDateSelect`. */
    method SelectDate(date: Option<Date>)
      modifies this
      ensures selectedDate == date
      ensures tasks == old(tasks) && editingTask == old(editingTask) && users == old(users)
      ensures loading == old(loading) && isTaskDialogOpen == old(isTaskDialogOpen)
      ensures showUserManagement == old(showUserManagement)
    {
      selectedDate := date;
    }

    /** `handleUserUpdated`: reloads the user list. */
    method HandleUserUpdated(result: Fetch<seq<User>>)
      modifies this
      ensures users == RowsAfter(old(users), result)
      ensures tasks == old(tasks) && editingTask == old(editingTask) && selectedDate == old(selectedDate)
      ensures loading == old(loading) && isTaskDialogOpen == old(isTaskDialogOpen)
      ensures showUserManagement == old(showUserManagement)
    {
      LoadUsers(result);
    }

    /**
     * `toggleTaskCompletion`: sends the patch that negates `completed` on row
     * `taskId`; the list is reloaded only when the update succeeded.
     */
    method ToggleTaskCompletion(taskId: string, completed: bool, updated: bool, reload: Fetch<seq<Task>>)
      returns (patch: CompletionPatch)
      modifies this
      ensures patch == CompletionPatchFor(taskId, completed)
      ensures tasks == if updated then RowsAfter(old(tasks), reload) else old(tasks)
      ensures loading == (if updated then false else old(loading))
      ensures editingTask == old(editingTask) && users == old(users) && selectedDate == old(selectedDate)
      ensures isTaskDialogOpen == old(isTaskDialogOpen) && showUserManagement == old(showUserManagement)
    {
      patch := CompletionPatchFor(taskId, completed);
      if updated {
        LoadTasks(reload);
      }
    }

    /**
     * `deleteTask`: sends a delete of row `taskId`, with no confirmation; the list
     * is reloaded only when the delete succeeded.
     */
    method DeleteTask(taskId: string, deleted: bool, reload: Fetch<seq<Task>>)
      returns (deletedId: string)
      modifies this
      ensures deletedId == taskId
      ensures tasks == if deleted then RowsAfter(old(tasks), reload) else old(tasks)
      ensures loading == (if deleted then false else old(loading))
      ensures editingTask == old(editingTask) && users == old(users) && selectedDate == old(selectedDate)
      ensures isTaskDialogOpen == old(isTaskDialogOpen) && showUserManagement == old(showUserManagement)
    {
      deletedId := taskId;
      if deleted {
        LoadTasks(reload);
      }
    }
  }
}
