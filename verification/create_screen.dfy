/**
 * The task creation screen: its form state, the validation that guards
 * `addTask`, the record it submits and the reset after a successful add.
 */
module CreateScreen {
  import opened TaskModel
  import opened JsText
  import opened RealmDB

  const NameRequired: string := "Task name is required"
  const TimerNotNumber: string := "Please enter a valid number for timer"

  /** The per-field error texts; `""` means the field passed its check. */
  datatype FormErrors = FormErrors(taskName: string, timer: string)

  const NoErrors: FormErrors := FormErrors("", "")

  /** The errors validation reports for a name and a timer field. */
  function ExpectedErrors(taskName: string, timer: string): FormErrors {
    FormErrors(if Trim(taskName) == "" then NameRequired else "",
               if TimerAccepted(timer) then "" else TimerNotNumber)
  }

  /** A form is accepted exactly when its name is not blank and its timer is accepted,
      and then no error text is shown. */
  lemma FormAcceptedIff(taskName: string, timer: string)
    ensures ExpectedErrors(taskName, timer) == NoErrors <==> Trim(taskName) != "" && TimerAccepted(timer)
    ensures Trim(taskName) == "" ==> ExpectedErrors(taskName, timer).taskName == NameRequired
    ensures !TimerAccepted(timer) ==> ExpectedErrors(taskName, timer).timer == TimerNotNumber
  {
  }

  /** The argument object `handleAddTask` gives `addTask`. */
  function Submission(taskName: string, description: string, timer: string, image: Option<string>): TaskInput {
    TaskInput(
      Trim(taskName),
      Val(Trim(description)),
      Val(Trim(timer)),
      if image.Some? && Trim(image.value) != "" then Val(Trim(image.value)) else Null,
      Val(InProgress))
  }

  /** What an accepted form stores: the trimmed, non-blank name; the trimmed
      description, timer and image, each null when it trims to nothing; a timer
      that reads as a number; in progress and not completed. */
  lemma AcceptedFormRecord(id: string, taskName: string, description: string, timer: string,
                           image: Option<string>, now: Timestamp)
    requires ExpectedErrors(taskName, timer) == NoErrors
    ensures var t := NewRecord(id, Submission(taskName, description, timer, image), now);
      && t.id == id && t.createdAt == now
      && t.name == Trim(taskName) && Trim(t.name) == t.name && t.name != ""
      && t.description == (if Trim(description) == "" then None else Some(Trim(description)))
      && t.timer == (if Trim(timer) == "" then None else Some(Trim(timer)))
      && (t.timer.Some? ==> IsNumeric(t.timer.value))
      && t.taskImage == (if image.Some? && Trim(image.value) != "" then Some(Trim(image.value)) else None)
      && t.status == InProgress && t.completedAt == None
  {
    var d := Submission(taskName, description, timer, image);
    var t := NewRecord(id, d, now);
    assert d.name == Trim(taskName);
    TrimIdempotent(taskName);
    assert t.description == (if Trim(description) == "" then None else Some(Trim(description)));
    assert t.timer == (if Trim(timer) == "" then None else Some(Trim(timer)));
    if timer != "" {
      NumericTrimmed(timer);
    }
  }

  datatype AddOutcome = Invalid | Added(task: Task) | Failed(error: StoreError)

  /** The screen's state: the four input fields and the error texts. */
  class CreateForm {
    var taskName: string
    var description: string
    var timer: string
    var image: Option<string>
    var errors: FormErrors

    constructor ()
      ensures taskName == "" && description == "" && timer == "" && image == None
      ensures errors == NoErrors
    {
      taskName, description, timer, image := "", "", "", None;
      errors := NoErrors;
    }

    /** Typing in the name field clears the name error only. */
    method OnChangeTaskName(text: string)
      modifies this`taskName, this`errors
      ensures taskName == text && errors == old(errors).(taskName := "")
    {
      taskName := text;
      errors := errors.(taskName := "");
    }

    method OnChangeDescription(text: string)
      modifies this`description
      ensures description == text
    {
      description := text;
    }

    /** Typing in the timer field clears the timer error only. */
    method OnChangeTimer(text: string)
      modifies this`timer, this`errors
      ensures timer == text && errors == old(errors).(timer := "")
    {
      timer := text;
      errors := errors.(timer := "");
    }

    /** The picker callbacks hand back the chosen image's address. */
    method OnImagePicked(uri: string)
      modifies this`image
      ensures image == Some(uri)
    {
      image := Some(uri);
    }

    /** The close button on the preview drops the chosen image. */
    method OnImageRemoved()
      modifies this`image
      ensures image == None
    {
      image := None;
    }

    /** `validateForm`: shows an error for a blank name and for a timer that is
        not a number, and accepts the form exactly when it shows none. */
    method ValidateForm() returns (isValid: bool)
      modifies this`errors
      ensures errors == ExpectedErrors(taskName, timer)
      ensures isValid <==> Trim(taskName) != "" && TimerAccepted(timer)
      ensures isValid <==> errors == NoErrors
    {
      isValid := true;
      var newErrors := NoErrors;
      if Trim(taskName) == "" {
        newErrors := newErrors.(taskName := NameRequired);
        isValid := false;
      }
      if timer != "" && !IsNumeric(timer) {
        newErrors := newErrors.(timer := TimerNotNumber);
        isValid := false;
      }
      errors := newErrors;
    }

    /** `handleAddTask`: a rejected form leaves the store alone; an accepted one
        adds the submitted record and empties the fields. If the store is not
        open, `addTask` throws before the fields are reset. */
    method HandleAddTask(store: TaskStore, id: string, now: Timestamp) returns (outcome: AddOutcome)
      requires store.Valid() && id !in store.tasks
      modifies this, store`tasks
      ensures store.Valid()
      ensures errors == ExpectedErrors(old(taskName), old(timer))
      ensures outcome.Invalid? <==> errors != NoErrors
      ensures !outcome.Added? ==> store.tasks == old(store.tasks)
      ensures !outcome.Added? ==>
        taskName == old(taskName) && description == old(description) && timer == old(timer) && image == old(image)
      ensures outcome.Failed? ==> !store.open && outcome.error == NotInitialized
      ensures outcome.Added? ==>
        && outcome.task == NewRecord(id, Submission(old(taskName), old(description), old(timer), old(image)), now)
        && store.tasks == old(store.tasks)[id := outcome.task]
        && taskName == "" && description == "" && timer == "" && image == Some("")
      ensures AllNamed(old(store.tasks)) ==> AllNamed(store.tasks)
    {
      var isValid := ValidateForm();
      if !isValid {
        return Invalid;
      }
      var data := Submission(taskName, description, timer, image);
      TrimIdempotent(taskName);
      var created := store.AddTask(id, data, now);
      if created.Err? {
        return Failed(created.error);
      }
      taskName := "";
      description := "";
      timer := "";
      image := Some("");
      outcome := Added(created.value);
    }
  }
}
