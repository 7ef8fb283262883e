/**
 * The calendar's day markers (`TaskCalendar`). Unlike the page's own day list,
 * this component reads a task's `YYYY-MM-DD` string with `new Date(s)`, which
 * the language takes as midnight UTC, and compares the local day that instant
 * falls on; the zone offset is therefore a parameter of every view here.
 */
module TaskCalendar {
  import opened Wrappers
  import opened Seqs
  import opened Dates
  import opened TaskModel

  /** The calendar counts `t` on local day `d`. */
  predicate ShownOnCalendarDay(t: Task, d: Date, utcOffsetMinutes: int)
    requires IsZoneOffset(utcOffsetMinutes)
  {
    && !IsFalsy(t.scheduledDate)
    && match ParseDate(t.scheduledDate.value, '-')
       case None => false
       case Some(u) => UtcMidnightAsLocalDay(u, utcOffsetMinutes) == d
  }

  /**
   * `getTasksForDate`: the tasks the calendar counts on day `d`, in list order,
   * none of them without a scheduled date.
   */
  function TasksForDate(tasks: seq<Task>, d: Date, utcOffsetMinutes: int): (r: seq<Task>)
    requires IsZoneOffset(utcOffsetMinutes)
    ensures Sublist(r, tasks)
    ensures forall t :: t in r <==> t in tasks && ShownOnCalendarDay(t, d, utcOffsetMinutes)
    ensures forall t :: multiset(r)[t] == if ShownOnCalendarDay(t, d, utcOffsetMinutes) then multiset(tasks)[t] else 0
    ensures forall t :: t in r ==> !IsFalsy(t.scheduledDate)
  {
    Filter(tasks, t => ShownOnCalendarDay(t, d, utcOffsetMinutes))
  }

  /** `hasTasksOnDate`: some task of the list is counted on `d`. */
  function HasTasksOnDate(tasks: seq<Task>, d: Date, utcOffsetMinutes: int): (b: bool)
    requires IsZoneOffset(utcOffsetMinutes)
    ensures b <==> exists t :: t in tasks && ShownOnCalendarDay(t, d, utcOffsetMinutes)
  {
    var r := TasksForDate(tasks, d, utcOffsetMinutes);
    assert r != [] ==> r[0] in r;
    |r| > 0
  }

  predicate IsHigh(t: Task) {
    t.priority == High
  }

  /** The calendar counts `t` on day `d` and `t` has priority `high`. */
  predicate ShownHighOnCalendarDay(t: Task, d: Date, utcOffsetMinutes: int)
    requires IsZoneOffset(utcOffsetMinutes)
  {
    ShownOnCalendarDay(t, d, utcOffsetMinutes) && IsHigh(t)
  }

  /**
   * `getHighPriorityTasksOnDate`: the number of `high` tasks counted on `d`, that
   * is, of the tasks of the whole list that are both counted on `d` and `high`;
   * it is at most the number of tasks counted on `d`, and positive exactly when
   * one exists.
   */
  function HighPriorityTasksOnDate(tasks: seq<Task>, d: Date, utcOffsetMinutes: int): (n: nat)
    requires IsZoneOffset(utcOffsetMinutes)
    ensures n == |Filter(tasks, t => ShownHighOnCalendarDay(t, d, utcOffsetMinutes))|
    ensures n <= |TasksForDate(tasks, d, utcOffsetMinutes)|
    ensures n > 0 <==> exists t :: t in tasks && ShownOnCalendarDay(t, d, utcOffsetMinutes) && t.priority == High
  {
    var shown := t => ShownOnCalendarDay(t, d, utcOffsetMinutes);
    var high := Filter(TasksForDate(tasks, d, utcOffsetMinutes), IsHigh);
    FilterFilter(tasks, shown, IsHigh);
    FilterCongruent(tasks, Both(shown, IsHigh), t => ShownHighOnCalendarDay(t, d, utcOffsetMinutes));
    assert high != [] ==> high[0] in high;
    |high|
  }

  /** The `hasTasks` modifier of a calendar cell: some task of the list is counted on `d`. */
  function HasTasksModifier(tasks: seq<Task>, d: Date, utcOffsetMinutes: int): (marked: bool)
    requires IsZoneOffset(utcOffsetMinutes)
    ensures marked <==> TasksForDate(tasks, d, utcOffsetMinutes) != []
    ensures marked <==> exists t :: t in tasks && ShownOnCalendarDay(t, d, utcOffsetMinutes)
  {
    var r := TasksForDate(tasks, d, utcOffsetMinutes);
    assert r != [] ==> r[0] in r;
    HasTasksOnDate(tasks, d, utcOffsetMinutes)
  }

  /** The `highPriority` modifier of a calendar cell: some `high` task of the list is counted on `d`. */
  function HighPriorityModifier(tasks: seq<Task>, d: Date, utcOffsetMinutes: int): (marked: bool)
    requires IsZoneOffset(utcOffsetMinutes)
    ensures marked <==> exists t :: t in tasks && ShownOnCalendarDay(t, d, utcOffsetMinutes) && t.priority == High
  {
    HighPriorityTasksOnDate(tasks, d, utcOffsetMinutes) > 0
  }

  /** A cell marked high-priority is always also marked as having tasks. */
  lemma HighPriorityImpliesHasTasks(tasks: seq<Task>, d: Date, utcOffsetMinutes: int)
    requires IsZoneOffset(utcOffsetMinutes)
    ensures HighPriorityModifier(tasks, d, utcOffsetMinutes) ==> HasTasksModifier(tasks, d, utcOffsetMinutes)
  {
  }

  /** A task without a scheduled date is counted on no day, whatever the zone. */
  lemma UnscheduledNeverCounted(tasks: seq<Task>, t: Task, d: Date, utcOffsetMinutes: int)
    requires IsZoneOffset(utcOffsetMinutes)
    requires IsFalsy(t.scheduledDate)
    ensures t !in TasksForDate(tasks, d, utcOffsetMinutes)
  {
  }
}
