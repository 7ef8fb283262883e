/**
 * The new-task dialog (`AddTaskDialog`): its form state, the validation and
 * normalisation that turn the form into an insert into `tasks`, and the
 * submit handler, split at its one `await` into the part that runs before the
 * insert is sent and the part that runs when it resolves.
 */
module AddTaskDialog {
  import opened Wrappers
  import opened Strings
  import opened Dates
  import opened TaskModel
  import Index

  /** The dialog's `formData`; `assignedUserId` is `""` for the "no one responsible" option. */
  datatype TaskForm = TaskForm(
    title: string,
    description: string,
    assignedUserId: string,
    scheduledDate: Option<Date>,
    priority: Priority)

  const InitialForm := TaskForm("", "", "", None, Medium)

  /** A day the date picker hands over: a real day of the years 1 to 9999. */
  predicate PickableDate(d: Date) {
    ValidDate(d) && 1 <= d.year <= 9999
  }

  predicate PickableForm(form: TaskForm) {
    form.scheduledDate == None || PickableDate(form.scheduledDate.value)
  }

  /** The record handed to `insert` on `tasks`. */
  datatype TaskInsert = TaskInsert(
    title: string,
    description: Option<string>,
    assignedUserId: Option<string>,
    scheduledDate: Option<string>,
    priority: Priority)

  /** `s || null` on a string: null for the empty string, the string itself otherwise. */
  function EmptyAsNull(s: string): (r: Option<string>)
    ensures r == None <==> s == ""
    ensures r != None ==> r.value == s
  {
    if s == "" then None else Some(s)
  }

  /** `s.split(sep)[0]`: the part of `s` before the first `sep`, or all of `s`. */
  function BeforeFirst(s: string, sep: char): (r: string)
    ensures |r| <= |s| && r == s[..|r|]
    ensures sep !in r
    ensures |r| < |s| ==> s[|r|] == sep
  {
    if s == [] || s[0] == sep then [] else [s[0]] + BeforeFirst(s[1..], sep)
  }

  /** The minutes past UTC midnight of the instant "local midnight" in a zone. */
  function UtcMinutesOfLocalMidnight(utcOffsetMinutes: int): (m: int)
    requires IsZoneOffset(utcOffsetMinutes)
    ensures 0 <= m < 1440
    ensures (m + utcOffsetMinutes) % 1440 == 0
  {
    if utcOffsetMinutes > 0 then 1440 - utcOffsetMinutes else -utcOffsetMinutes
  }

  /**
   * `d.toISOString()` for a day `d` picked in the calendar, i.e. at local midnight:
   * `YYYY-MM-DDTHH:MM:00.000Z`, whose date part reads as the UTC day of that
   * instant and whose hours and minutes give its minute past UTC midnight.
   */
  function IsoTimestampOfPick(d: Date, utcOffsetMinutes: int): (stamp: string)
    requires PickableDate(d) && IsZoneOffset(utcOffsetMinutes)
    ensures |stamp| == 24 && stamp[10] == 'T' && stamp[13] == ':' && stamp[16..] == ":00.000Z"
    ensures ParseDate(stamp[..10], '-') == Some(LocalMidnightAsUtcDay(d, utcOffsetMinutes))
    ensures AllDigits(stamp[11..13]) && AllDigits(stamp[14..16])
    ensures NumberValue(stamp[11..13]) < 24 && NumberValue(stamp[14..16]) < 60
    ensures NumberValue(stamp[11..13]) * 60 + NumberValue(stamp[14..16]) == UtcMinutesOfLocalMidnight(utcOffsetMinutes)
  {
    var m := UtcMinutesOfLocalMidnight(utcOffsetMinutes);
    var u := LocalMidnightAsUtcDay(d, utcOffsetMinutes);
    var day := DateString(u, '-');
    var hh := Digits(m / 60, 2);
    var mm := Digits(m % 60, 2);
    var stamp := day + "T" + hh + ":" + mm + ":00.000Z";
    ParseDateString(u, '-');
    NumberValueOfDigits(m / 60, 2);
    NumberValueOfDigits(m % 60, 2);
    assert stamp[..10] == day && stamp[11..13] == hh && stamp[14..16] == mm;
    stamp
  }

  /**
   * `d.toISOString().split('T')[0]`: the `YYYY-MM-DD` form of the UTC day on
   * which local midnight of `d` falls.
   */
  function StoredDayOfPick(d: Date, utcOffsetMinutes: int): (s: string)
    requires PickableDate(d) && IsZoneOffset(utcOffsetMinutes)
    ensures ParseDate(s, '-') == Some(LocalMidnightAsUtcDay(d, utcOffsetMinutes))
  {
    var stamp := IsoTimestampOfPick(d, utcOffsetMinutes);
    ParsedCharacters(stamp[..10], '-');
    BeforeFirstOfPrefix(stamp[..10], stamp, 'T');
    BeforeFirst(stamp, 'T')
  }

  /** Splitting `p + q` at `sep` stops at the end of `p` when `p` lacks `sep` and `q` starts with it. */
  lemma {:induction false} BeforeFirstOfPrefix(p: string, s: string, sep: char)
    requires |p| < |s| && s[..|p|] == p && s[|p|] == sep
    requires forall i :: 0 <= i < |p| ==> p[i] != sep
    ensures BeforeFirst(s, sep) == p
  {
    if p != [] {
      assert s[0] == p[0];
      BeforeFirstOfPrefix(p[1..], s[1..], sep);
    }
  }

  /**
   * The insert built from a form whose title is not blank (`handleSubmit`):
   * the trimmed title, which is non-empty and has no surrounding whitespace;
   * the trimmed description or null when it is blank; the chosen user or null
   * for the "no one responsible" option; the stored day of the picked date or
   * null when none is picked; and the priority as chosen.
   */
  function NewTaskRecord(form: TaskForm, utcOffsetMinutes: int): (r: TaskInsert)
    requires !AllWhitespace(form.title) && PickableForm(form) && IsZoneOffset(utcOffsetMinutes)
    ensures r.title == Trim(form.title)
    ensures r.title != [] && !IsWhitespace(r.title[0]) && !IsWhitespace(r.title[|r.title| - 1])
    ensures r.description == None <==> AllWhitespace(form.description)
    ensures r.description != None ==> r.description.value == Trim(form.description)
    ensures r.assignedUserId == None <==> form.assignedUserId == ""
    ensures r.assignedUserId != None ==> r.assignedUserId.value == form.assignedUserId
    ensures r.scheduledDate == None <==> form.scheduledDate == None
    ensures r.scheduledDate != None ==>
              ParseDate(r.scheduledDate.value, '-') == Some(LocalMidnightAsUtcDay(form.scheduledDate.value, utcOffsetMinutes))
    ensures r.priority == form.priority
  {
    TaskInsert(
      Trim(form.title),
      EmptyAsNull(Trim(form.description)),
      EmptyAsNull(form.assignedUserId),
      match form.scheduledDate
      case None => None
      case Some(d) => Some(StoredDayOfPick(d, utcOffsetMinutes)),
      form.priority)
  }

  /**
   * The day stored for a picked date is the picked day exactly when the zone is
   * at or west of UTC; east of UTC it is the day before.
   */
  lemma StoredDayIsPickedDayIffNotEastOfUtc(form: TaskForm, d: Date, utcOffsetMinutes: int)
    requires !AllWhitespace(form.title) && PickableForm(form) && IsZoneOffset(utcOffsetMinutes)
    requires form.scheduledDate == Some(d)
    ensures var stored := NewTaskRecord(form, utcOffsetMinutes).scheduledDate;
            stored != None
            && (ParseDate(stored.value, '-') == Some(d) <==> utcOffsetMinutes <= 0)
            && (utcOffsetMinutes > 0 ==> ParseDate(stored.value, '-') == Some(PrevDay(d)))
  {
  }

  /**
   * Once the inserted row comes back in the page's list, the page lists it under
   * the day that was picked exactly when the zone is at or west of UTC.
   */
  lemma NewTaskListedOnPickedDay(form: TaskForm, d: Date, utcOffsetMinutes: int, t: Task)
    requires !AllWhitespace(form.title) && PickableForm(form) && IsZoneOffset(utcOffsetMinutes)
    requires form.scheduledDate == Some(d)
    requires t.scheduledDate == NewTaskRecord(form, utcOffsetMinutes).scheduledDate
    ensures t in Index.TasksForDate([t], d) <==> utcOffsetMinutes <= 0
  {
    var s := t.scheduledDate.value;
    Index.ListedOnTheDayItNames([t], t, s, LocalMidnightAsUtcDay(d, utcOffsetMinutes), d);
  }

  class Dialog {
    var formData: TaskForm
    var loading: bool

    predicate Valid()
      reads this
    {
      PickableForm(formData)
    }

    /** The dialog as first mounted: the default form, medium priority, not loading. */
    constructor ()
      ensures Valid() && formData == InitialForm && !loading
    {
      formData := InitialForm;
      loading := false;
    }

    method SetTitle(title: string)
      requires Valid()
      modifies this
      ensures Valid() && formData == old(formData).(title := title) && loading == old(loading)
    {
      formData := formData.(title := title);
    }

    method SetDescription(description: string)
      requires Valid()
      modifies this
      ensures Valid() && formData == old(formData).(description := description) && loading == old(loading)
    {
      formData := formData.(description := description);
    }

    /** The responsible-user select; `""` is its "no one responsible" option. */
    method SetAssignedUser(userId: string)
      requires Valid()
      modifies this
      ensures Valid() && formData == old(formData).(assignedUserId := userId) && loading == old(loading)
    {
      formData := formData.(assignedUserId := userId);
    }

    method PickDate(d: Date)
      requires Valid() && PickableDate(d)
      modifies this
      ensures Valid() && formData == old(formData).(scheduledDate := Some(d)) && loading == old(loading)
    {
      formData := formData.(scheduledDate := Some(d));
    }

    /** The "remove date" button. */
    method ClearDate()
      requires Valid()
      modifies this
      ensures Valid() && formData == old(formData).(scheduledDate := None) && loading == old(loading)
    {
      formData := formData.(scheduledDate := None);
    }

    method SetPriority(priority: Priority)
      requires Valid()
      modifies this
      ensures Valid() && formData == old(formData).(priority := priority) && loading == old(loading)
    {
      formData := formData.(priority := priority);
    }

    /**
     * `handleSubmit` up to its `await`: a blank title returns early with nothing
     * sent and nothing changed; otherwise the insert is sent and the dialog is
     * loading while it is in flight. The form itself is not touched. The submit
     * button is disabled while a request is in flight, so a submit only starts
     * when the dialog is not loading.
     */
    method BeginSubmit(utcOffsetMinutes: int) returns (insert: Option<TaskInsert>)
      requires Valid() && IsZoneOffset(utcOffsetMinutes) && !loading
      modifies this
      ensures Valid() && formData == old(formData)
      ensures insert == None <==> IsBlank(old(formData).title)
      ensures insert != None ==> insert.value == NewTaskRecord(old(formData), utcOffsetMinutes) && loading
      ensures insert == None ==> loading == old(loading)
    {
      if IsBlank(formData.title) {
        insert := None;
        return;
      }
      loading := true;
      insert := Some(NewTaskRecord(formData, utcOffsetMinutes));
    }

    /**
     * `handleSubmit` after its `await`: a successful insert resets the form to its
     * initial values and notifies the page; a failed one keeps the form for a
     * retry. Either way the dialog stops loading.
     */
    method FinishSubmit(inserted: bool) returns (taskAdded: bool)
      requires Valid()
      modifies this
      ensures Valid() && !loading
      ensures taskAdded == inserted
      ensures formData == if inserted then InitialForm else old(formData)
    {
      if inserted {
        formData := InitialForm;
      }
      taskAdded := inserted;
      loading := false;
    }

    /** The whole of `handleSubmit`, when the insert, if sent, succeeds exactly when `inserted`. */
    method HandleSubmit(utcOffsetMinutes: int, inserted: bool) returns (insert: Option<TaskInsert>, taskAdded: bool)
      requires Valid() && IsZoneOffset(utcOffsetMinutes) && !loading
      modifies this
      ensures Valid()
      ensures insert == None <==> IsBlank(old(formData).title)
      ensures insert != None ==> insert.value == NewTaskRecord(old(formData), utcOffsetMinutes)
      ensures insert == None ==> formData == old(formData) && loading == old(loading) && !taskAdded
      ensures insert != None ==> !loading && taskAdded == inserted
      ensures insert != None ==> formData == if inserted then InitialForm else old(formData)
    {
      insert := BeginSubmit(utcOffsetMinutes);
      if insert == None {
        taskAdded := false;
      } else {
        taskAdded := FinishSubmit(inserted);
      }
    }
  }
}
