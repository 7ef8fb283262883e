/**
 * The records the agenda keeps in its `tasks` and `users` tables, as the
 * components receive them.
 */
module TaskModel {
  import opened Wrappers

  datatype Priority = Low | Medium | High

  /** The tag a priority is stored and compared as. */
  function PriorityTag(p: Priority): (tag: string)
    ensures tag in {"low", "medium", "high"}
  {
    match p
    case Low => "low"
    case Medium => "medium"
    case High => "high"
  }

  /** A row of `tasks`; `id`, `createdAt` and `updatedAt` are assigned by the database. */
  datatype Task = Task(
    id: string,
    title: string,
    description: Option<string>,
    assignedUserId: Option<string>,
    scheduledDate: Option<string>,
    completed: bool,
    priority: Priority,
    createdAt: string,
    updatedAt: string)

  /** A row of `users`. */
  datatype User = User(id: string, name: string, role: string)

  /** JavaScript falsiness of a `string | null`: null or the empty string. */
  predicate IsFalsy(v: Option<string>) {
    v == None || v == Some("")
  }
}
