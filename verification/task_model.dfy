/**
 * The persisted Task record (schema `Task`, primary key `id`, version 3) and
 * the values the repository exchanges with its callers.
 */
module TaskModel {

  /** A property that may be null. */
  datatype Option<+T> = None | Some(value: T)

  /** A property of a JavaScript argument object: left out (`undefined`),
      given as `null`, or given a value. */
  datatype Arg<+T> = Undefined | Null | Val(value: T)

  /** Timestamps are JavaScript `Date`s, modelled as milliseconds. */
  type Timestamp = int

  /** The schema version the repository opens the store with. */
  const SchemaVersion: int := 3

  const InProgress: string := "inprogress"
  const Completed: string := "completed"

  /** One stored task. `description`, `timer` and `taskImage` are optional
      strings (the timer is a numeric string, not a number), `completedAt` an
      optional date; `status` is a required string that the application keeps
      within `InProgress` and `Completed`. */
  datatype Task = Task(
    id: string,
    name: string,
    description: Option<string>,
    timer: Option<string>,
    taskImage: Option<string>,
    status: string,
    createdAt: Timestamp,
    completedAt: Option<Timestamp>)

  /** The statuses the application itself writes. */
  predicate IsKnownStatus(s: string) {
    s == InProgress || s == Completed
  }

  /** The lifecycle rule: a task is completed exactly when it carries a completion time. */
  predicate StatusConsistent(t: Task) {
    t.status == Completed <==> t.completedAt.Some?
  }

  /** A completion time never precedes the creation time. */
  predicate TimesOrdered(t: Task) {
    t.completedAt.Some? ==> t.createdAt <= t.completedAt.value
  }

  /** The table behind the primary key: every record is filed under its own id,
      so there is at most one record per id. */
  predicate KeyedById(m: map<string, Task>) {
    forall id | id in m :: m[id].id == id
  }

  /** The argument object of `addTask`; its `status` is ignored. */
  datatype TaskInput = TaskInput(
    name: string,
    description: Arg<string>,
    timer: Arg<string>,
    taskImage: Arg<string>,
    status: Arg<string>)

  /** The argument object of `updateTask`; `createdAt` is sent by the edit
      screen but never read by the repository. */
  datatype TaskUpdate = TaskUpdate(
    id: string,
    name: Arg<string>,
    description: Arg<string>,
    timer: Arg<string>,
    taskImage: Arg<string>,
    status: Arg<string>,
    createdAt: Arg<Timestamp>)
}
