/**
 * The task editing screen: a form seeded from the task being edited, the
 * status toggle, and the save path that validates the form and hands
 * `updateTask` the edited properties.
 */
module EditTaskScreen {
  import opened TaskModel
  import opened JsText
  import opened RealmDB

  /** `handleStatusToggle`'s update: completed goes back in progress, anything else becomes completed. */
  function ToggledStatus(prev: string): (s: string)
    ensures IsKnownStatus(s)
    ensures s == InProgress <==> prev == Completed
  {
    if prev == Completed then InProgress else Completed
  }

  /** On the two known statuses, toggling twice gives back the original. */
  lemma ToggleTwice(s: string)
    requires IsKnownStatus(s)
    ensures ToggledStatus(ToggledStatus(s)) == s
  {
  }

  /** `x || ''` for an optional string property: null and empty both become `''`. */
  function OrEmpty(o: Option<string>): (r: string)
    ensures r == "" <==> o == None || o == Some("")
    ensures r != "" ==> o == Some(r)
  {
    if o.Some? then o.value else ""
  }

  /** The argument object `handleSaveTask` gives `updateTask`. With a task to
      edit it keeps that task's id (unless the id is the falsy `''`) and its
      creation time; without one, the id is fresh, the creation time is now and
      the status is forced in progress. */
  function SaveRequest(taskToEdit: Option<Task>, taskName: string, description: string, timer: string,
                       taskImage: string, status: string, freshId: string, now: Timestamp): TaskUpdate
  {
    TaskUpdate(
      if taskToEdit.Some? && taskToEdit.value.id != "" then taskToEdit.value.id else freshId,
      Val(Trim(taskName)),
      Val(Trim(description)),
      Val(Trim(timer)),
      if Trim(taskImage) != "" then Val(Trim(taskImage)) else Null,
      if taskToEdit.Some? then Val(status) else Val(InProgress),
      Val(if taskToEdit.Some? then taskToEdit.value.createdAt else now))
  }

  /** What saving an accepted edit of `t` stores: same id and creation time;
      the trimmed, non-blank name; the trimmed description and timer, stored
      as strings even when empty; the trimmed image or null; the form's
      status; and a timer that reads as a number. */
  lemma EditedRecord(t: Task, taskName: string, description: string, timer: string,
                     taskImage: string, status: string, freshId: string, now: Timestamp)
    requires Trim(taskName) != "" && TimerAccepted(timer) && status != ""
    ensures var r := Merged(t, SaveRequest(Some(t), taskName, description, timer, taskImage, status, freshId, now), now);
      && r.id == t.id && r.createdAt == t.createdAt
      && r.name == Trim(taskName) && Trim(r.name) == r.name
      && r.description == Some(Trim(description))
      && r.timer == Some(Trim(timer)) && IsNumeric(r.timer.value)
      && r.taskImage == (if Trim(taskImage) == "" then None else Some(Trim(taskImage)))
      && r.status == status
  {
    var u := SaveRequest(Some(t), taskName, description, timer, taskImage, status, freshId, now);
    assert u.name == Val(Trim(taskName));
    TrimIdempotent(taskName);
    NumericTrimmed(timer);
    if timer == "" {
      assert Trim(timer) == "";
    }
  }

  /** Saving an accepted edit whose status is one of the two known ones keeps
      the lifecycle rule on the edited task, and its completion time ordered. */
  lemma EditKeepsLifecycle(t: Task, taskName: string, description: string, timer: string,
                           taskImage: string, status: string, freshId: string, now: Timestamp)
    requires StatusConsistent(t) && IsKnownStatus(t.status) && IsKnownStatus(status)
    requires TimesOrdered(t) && t.createdAt <= now
    ensures var r := Merged(t, SaveRequest(Some(t), taskName, description, timer, taskImage, status, freshId, now), now);
      StatusConsistent(r) && IsKnownStatus(r.status) && TimesOrdered(r)
  {
    var u := SaveRequest(Some(t), taskName, description, timer, taskImage, status, freshId, now);
    MergedKeepsLifecycle(t, u, now);
    MergedKeepsTimesOrdered(t, u, now);
  }

  datatype SaveOutcome = NameMissing | TimerNotNumber | Submitted(found: bool) | Failed(error: StoreError)

  /** The screen's state: the task it was opened for, the form fields and the busy flag. */
  class EditTaskForm {
    const taskToEdit: Option<Task>
    var taskName: string
    var description: string
    var timer: string
    var taskImage: string
    var status: string
    var isLoading: bool

    /** The form starts from the edited task's properties, `''` where they are
        absent, and in progress when there is no status. */
    constructor (taskToEdit: Option<Task>)
      ensures this.taskToEdit == taskToEdit && !isLoading
      ensures taskToEdit.None? ==>
        taskName == "" && description == "" && timer == "" && taskImage == "" && status == InProgress
      ensures taskToEdit.Some? ==>
        && taskName == taskToEdit.value.name
        && description == OrEmpty(taskToEdit.value.description)
        && timer == OrEmpty(taskToEdit.value.timer)
        && taskImage == OrEmpty(taskToEdit.value.taskImage)
        && status == (if taskToEdit.value.status != "" then taskToEdit.value.status else InProgress)
    {
      this.taskToEdit := taskToEdit;
      if taskToEdit.Some? {
        var t := taskToEdit.value;
        taskName, description, timer, taskImage := t.name, OrEmpty(t.description), OrEmpty(t.timer), OrEmpty(t.taskImage);
        status := if t.status != "" then t.status else InProgress;
      } else {
        taskName, description, timer, taskImage := "", "", "", "";
        status := InProgress;
      }
      isLoading := false;
    }

    method HandleStatusToggle()
      modifies this`status
      ensures status == ToggledStatus(old(status))
    {
      status := ToggledStatus(status);
    }

    method OnChangeTaskName(text: string)
      modifies this`taskName
      ensures taskName == text
    {
      taskName := text;
    }

    method OnChangeDescription(text: string)
      modifies this`description
      ensures description == text
    {
      description := text;
    }

    method OnChangeTimer(text: string)
      modifies this`timer
      ensures timer == text
    {
      timer := text;
    }

    /** The picker callbacks hand back the chosen image's address. */
    method OnImagePicked(uri: string)
      modifies this`taskImage
      ensures taskImage == uri
    {
      taskImage := uri;
    }

    /** `handleSaveTask`: a blank name or a timer that is not a number stops the
        save before the store is touched; otherwise the edit is submitted with
        `updateTask`. If the store is not open `updateTask` throws and the busy
        flag stays set. */
    method HandleSaveTask(store: TaskStore, freshId: string, now: Timestamp) returns (outcome: SaveOutcome)
      requires store.Valid() && freshId !in store.tasks
      modifies this`isLoading, store`tasks
      ensures store.Valid()
      ensures outcome.NameMissing? <==> Trim(taskName) == ""
      ensures outcome.TimerNotNumber? <==> Trim(taskName) != "" && !TimerAccepted(timer)
      ensures outcome.NameMissing? || outcome.TimerNotNumber? ==>
        store.tasks == old(store.tasks) && isLoading == old(isLoading)
      ensures outcome.Failed? ==> !store.open && outcome.error == NotInitialized
      ensures outcome.Failed? ==> store.tasks == old(store.tasks) && isLoading
      ensures outcome.Submitted? ==> !isLoading
      ensures outcome.Submitted? ==>
        var u := SaveRequest(taskToEdit, taskName, description, timer, taskImage, status, freshId, now);
        && outcome.found == (u.id in old(store.tasks))
        && (u.id in old(store.tasks) ==> store.tasks == old(store.tasks)[u.id := Merged(old(store.tasks)[u.id], u, now)])
        && (u.id !in old(store.tasks) ==> store.tasks == old(store.tasks))
      ensures taskToEdit.None? ==> store.tasks == old(store.tasks)
      ensures AllNamed(old(store.tasks)) ==> AllNamed(store.tasks)
    {
      if Trim(taskName) == "" {
        return NameMissing;
      }
      if !TimerAccepted(timer) {
        return TimerNotNumber;
      }
      isLoading := true;
      var updatedTask := SaveRequest(taskToEdit, taskName, description, timer, taskImage, status, freshId, now);
      TrimIdempotent(taskName);
      var updated := store.UpdateTask(updatedTask, now);
      if updated.Err? {
        return Failed(updated.error);
      }
      isLoading := false;
      outcome := Submitted(updated.value.Some?);
    }
  }
}
