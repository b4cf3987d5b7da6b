# Daily worksheet task store, modelled in Dafny

This project models the persistence core of a mobile task-tracking app. The
app keeps one table of `Task` records in an embedded on-device object
database, keyed by `id`, behind a single module-level handle. The handle is
opened with a schema-version-3 migration and closed again. A repository
(`RealmDB.js`) offers create, newest-first listing, delete, a field-merging
update and a status update. Two screens guard what reaches the store: the
creation form (`Create.jsx`) and the edit form (`EditTask.jsx`).

Modules, one per source file or concern:

- `JsText` (`js_text.dfy`): the JavaScript string semantics the code relies on.
  It covers `String.prototype.trim`, the truthiness of a string under `||`, and
  `!isNaN(Number(s))` as the StringToNumber grammar of ECMA-262, section 7.1.4.1.1.
  That grammar trims, reads an empty string as 0, and accepts `Infinity` and the
  `0x`/`0o`/`0b` forms.
- `TaskModel` (`task_model.dfy`): the `Task` record of the schema. It also holds
  `Arg<T>`, which keeps apart the three states of a JavaScript property:
  `undefined`, `null` and a value. It defines the argument objects of `addTask`
  and `updateTask`, and the lifecycle rule "completed exactly when
  `completedAt` is set".
- `RealmDB` (`realm_db.dfy`): record-level rules as functions (`NewRecord`,
  `Merged`, `StatusSet`, `MigratedRecord`) with lemmas about them. The store is
  the class `TaskStore`, with fields `open`, `version` and
  `tasks: map<string, Task>`; its methods are stated against those functions.
  The migration and the listing are loops.
- `CreateScreen` (`create_screen.dfy`): the creation form as a class. It covers
  validation, the submitted record, the reset after a successful add, and the
  clearing of a field's error when the field is edited.
- `EditTaskScreen` (`edit_task_screen.dfy`): the edit form as a class. It covers
  the seeded fields, the status toggle, and the save path that validates and
  calls `updateTask`.

The caller supplies fresh ids and the current time: an `id` parameter with
`requires id !in tasks`, and a `now: Timestamp` parameter. Each repository
operation is one atomic step, as in a Realm write transaction.

Where the code departs from what a task store is usually expected to do, the
model follows the code:

- `addTask` does not reject an empty or blank name. Only the two screens
  check the name. `AllNamed` is therefore proved for the screen paths
  (`HandleAddTask`, `HandleSaveTask`), not for `AddTask` itself.
- `status` is a free string in the schema. `updateTask` and
  `updateTaskStatus` store any status they are given. `updateTaskStatus`
  always keeps the lifecycle rule. `updateTask` keeps it only for a status
  argument that is undefined, null, empty, `inprogress` or `completed`
  (`MergedKeepsLifecycle`). With any other status it can break the rule
  (`MergedForeignStatusBreaksLifecycle`).
- Opening an already open store is not an explicit no-op in the code: it
  opens again. The store's version is then already 3, so no migration runs
  and the records are unchanged. The model proves this outcome.
- The edit screen sends description and timer as strings, so an emptied
  field is stored as `""`, not `null` (`EditedRecord`). The creation path
  stores `null` for the same input (`AcceptedFormRecord`).

## Model

| member | source | states |
|---|---|---|
| `JsText.Trim` | src/screens/Create.jsx:103 | the trimmed string is no longer than the input and has no whitespace at either end |
| `JsText.TrimRemovesEnds` | src/screens/Create.jsx:103 | `trim()` removes exactly the leading and trailing whitespace: the result is the slice of the input between a whitespace-only prefix and a whitespace-only suffix |
| `JsText.TrimBlank` | src/screens/Create.jsx:103-106 | a name trims to nothing exactly when every character of it is whitespace |
| `JsText.TrimIdempotent` | src/screens/Create.jsx:120-124 | a value that was trimmed before being stored is left unchanged by trimming it again |
| `JsText.IsNumeric` | src/screens/Create.jsx:108 | `!isNaN(Number(timer))` as the StringToNumber grammar of ECMA-262, section 7.1.4.1.1; its properties are stated by `JsText.NumericTrimmed`, `JsText.NumericExamples` and `JsText.NotNumericExamples` |
| `JsText.NumericExamples` | src/screens/Create.jsx:108 | `"42"`, `" 2.5 "`, `""`, `"1e3"`, `".5"`, `"0x1F"` and `"-Infinity"` pass the timer check |
| `JsText.NotNumericExamples` | src/screens/Create.jsx:108 | `"12a"`, `"1 2"`, `"."`, `"0x"` and `"-0x1"` fail the timer check; a sign is not allowed before a hexadecimal numeral |
| `JsText.TimerAccepted` | src/screens/Create.jsx:108 | the timer check shared by both screens (also src/screens/EditTask.jsx:137): it passes when the timer is empty or `Number()` reads it as a number; stated with the name check by `CreateScreen.FormAcceptedIff` |
| `JsText.NumericTrimmed` | src/screens/Create.jsx:108-111 | `Number()` gives the same verdict on a timer before and after trimming, so a trimmed accepted timer is still a number |
| `RealmDB.OrNull` | src/db/services/RealmDB.js:48-50 | an optional property is stored as null exactly when it was undefined, null or empty, and otherwise as the given string |
| `RealmDB.NewRecord` | src/db/services/RealmDB.js:45-54 | the created record has the fresh id, the given name, status `inprogress`, `createdAt = now` and no completion time, so it obeys the lifecycle rule; description, timer and image are null exactly when missing or empty |
| `RealmDB.OrKeep` | src/db/services/RealmDB.js:85-95 | `x \|\| current` for name and status: a supplied non-empty value replaces the current one, and nothing else does |
| `RealmDB.Assigned` | src/db/services/RealmDB.js:86-94 | `x !== undefined ? x : current` for description, timer and image; stated case by case by `RealmDB.Merged` |
| `RealmDB.Merged` | src/db/services/RealmDB.js:85-100 | id and `createdAt` never change; name and status change only to a supplied non-empty value; description, timer and image are replaced whenever supplied, null or `""` included, and kept when undefined; `completed` stamps `now` only when no completion time is set; `inprogress` clears it; any other status leaves it alone |
| `RealmDB.MergedKeepsLifecycle` | src/db/services/RealmDB.js:95-100 | an update whose status is undefined, null, empty, `inprogress` or `completed` keeps "completed exactly when `completedAt` is set", and keeps the status one of the two |
| `RealmDB.MergedForeignStatusBreaksLifecycle` | src/db/services/RealmDB.js:95-100 | for every task with a completion time, a non-empty status other than the two known ones leaves that time on a task that no longer reads as completed |
| `RealmDB.MergedKeepsTimesOrdered` | src/db/services/RealmDB.js:96-97 | with a clock that does not run backwards, an update never gives a completion time earlier than the creation time |
| `RealmDB.MergedIdempotent` | src/db/services/RealmDB.js:85-100 | applying the same update again, at any later time, changes nothing further |
| `RealmDB.StatusSet` | src/db/services/RealmDB.js:114-115 | the status update sets the status; it sets the completion time to `now` for `completed`, replacing any earlier one, and to null otherwise; it keeps the lifecycle rule for every status and changes no other property |
| `RealmDB.CompleteThenReopen` | src/db/services/RealmDB.js:107-118 | a created task that is completed gets a completion time no earlier than its creation; putting it back in progress gives back the record as created |
| `RealmDB.MigratedRecord` | src/db/services/RealmDB.js:17-18 | a migrated record is in progress with no completion time, and its other properties are unchanged |
| `RealmDB.MigratedTable` | src/db/services/RealmDB.js:15-19 | migration keeps the set of ids and migrates every record |
| `RealmDB.MigrationIdempotent` | src/db/services/RealmDB.js:10-21 | migrating an already migrated table changes nothing |
| `RealmDB.MigrationKeepsTable` | src/db/services/RealmDB.js:12-19 | migration keeps the record count and the primary key, and leaves every record obeying the lifecycle rule |
| `RealmDB.InsertByCreated` | src/db/services/RealmDB.js:62 | inserting a record into a newest-first sequence keeps it newest first; the result is one longer and holds the old entries and that record, and nothing else |
| `RealmDB.InsertIsPermutation` | src/db/services/RealmDB.js:62 | the insertion is a permutation: the result's multiset is the old one plus exactly that record |
| `RealmDB.InsertKeepsDistinct` | src/db/services/RealmDB.js:62 | inserting a record under an id not yet listed keeps every id listed at most once |
| `RealmDB.ListingCount` | src/db/services/RealmDB.js:60-63 | a listing of the table has exactly as many entries as the table has records |
| `RealmDB.TaskStore.constructor` | src/db/models/TaskModel.js:1-14 | a store on the device, not yet opened, holds records filed under their primary key `id`, so there is at most one record per id |
| `RealmDB.TaskStore.InitializeRealm` | src/db/services/RealmDB.js:6-24 | opening sets the handle and version 3. A store older than version 3 is migrated first; a current one is left as it is, which includes reopening an open store. When `Realm.open` rejects the call, because the storage is inaccessible or was written with a newer schema version, the handle is not assigned and nothing changes |
| `RealmDB.TaskStore.Migrate` | src/db/services/RealmDB.js:10-21 | the migration loop leaves the table equal to `MigratedTable` of the table before it |
| `RealmDB.TaskStore.GetRealm` | src/db/services/RealmDB.js:26-31 | succeeds exactly when the handle is set, and fails with NotInitialized otherwise |
| `RealmDB.TaskStore.CloseRealm` | src/db/services/RealmDB.js:33-38 | afterwards the handle is unset; on a closed store nothing changes |
| `RealmDB.TaskStore.AddTask` | src/db/services/RealmDB.js:41-57 | on an open store it adds exactly the record `NewRecord` describes under the fresh id, grows the table by one and keeps every other record; on a closed store it fails and changes nothing |
| `RealmDB.TaskStore.GetAllTaskList` | src/db/services/RealmDB.js:60-63 | on an open store it returns every stored record exactly once, no other record, ordered by `createdAt` newest first; an empty store gives an empty sequence; a closed store fails |
| `RealmDB.TaskStore.DeleteTask` | src/db/services/RealmDB.js:66-76 | returns true exactly when the id was stored; afterwards the id is absent and all other records are unchanged; an absent id changes nothing |
| `RealmDB.TaskStore.UpdateTask` | src/db/services/RealmDB.js:79-104 | a missing id gives null and changes nothing; otherwise the record becomes `Merged(old, update, now)`, is returned, and no other record changes; the lifecycle rule is kept across the table for known statuses |
| `RealmDB.TaskStore.UpdateTaskStatus` | src/db/services/RealmDB.js:107-118 | a missing id gives false and changes nothing; otherwise the record becomes `StatusSet(old, status, now)` and true is returned |
| `CreateScreen.ExpectedErrors` | src/screens/Create.jsx:97-111 | the error texts validation shows for a name and a timer; stated by `CreateScreen.FormAcceptedIff` |
| `CreateScreen.Submission` | src/screens/Create.jsx:120-126 | the `data` object given to `addTask`; the record it produces is stated by `CreateScreen.AcceptedFormRecord` |
| `CreateScreen.FormAcceptedIff` | src/screens/Create.jsx:96-115 | the form shows no error exactly when the trimmed name is non-empty and the timer is empty or a number; a blank name and a bad timer are reported independently, so both can show at once |
| `CreateScreen.AcceptedFormRecord` | src/screens/Create.jsx:120-128 | an accepted form stores the trimmed, non-blank name. Description, timer and image are trimmed and become null when they trim to nothing. A stored timer reads as a number. The record is in progress and not completed |
| `CreateScreen.CreateForm.constructor` | src/screens/Create.jsx:32-40 | the form starts with empty fields, no image and no errors |
| `CreateScreen.CreateForm.OnChangeTaskName` | src/screens/Create.jsx:153-156 | editing the name field sets it and clears the name error only |
| `CreateScreen.CreateForm.OnChangeDescription` | src/screens/Create.jsx:170 | editing the description field sets it |
| `CreateScreen.CreateForm.OnChangeTimer` | src/screens/Create.jsx:182-185 | editing the timer field sets it and clears the timer error only |
| `CreateScreen.CreateForm.OnImagePicked` | src/screens/Create.jsx:60-61 | a picked image's address becomes the form's image |
| `CreateScreen.CreateForm.OnImageRemoved` | src/screens/Create.jsx:217 | the preview's close button leaves the form without an image |
| `CreateScreen.CreateForm.ValidateForm` | src/screens/Create.jsx:96-115 | shows "Task name is required" for a blank name and the timer error for a non-numeric, non-empty timer; accepts exactly when both error texts are `''` |
| `CreateScreen.CreateForm.HandleAddTask` | src/screens/Create.jsx:117-138 | a rejected form leaves the store and fields alone. An accepted one adds the submitted record under the fresh id and empties the fields. On a closed store nothing is added and nothing reset. No blank name ever gets into the store this way |
| `EditTaskScreen.ToggledStatus` | src/screens/EditTask.jsx:163-165 | the toggle always yields one of the two known statuses; it yields `inprogress` exactly when the previous status was `completed` |
| `EditTaskScreen.ToggleTwice` | src/screens/EditTask.jsx:163-165 | on `inprogress` and `completed`, toggling twice gives back the original |
| `EditTaskScreen.OrEmpty` | src/screens/EditTask.jsx:40-42 | `x \|\| ''` when the form is seeded: the field is `''` exactly when the property is null or empty, and otherwise the stored string |
| `EditTaskScreen.SaveRequest` | src/screens/EditTask.jsx:148-157 | the `updatedTask` object given to `updateTask`, with the fresh-id fallback for a missing or empty id; the record it produces is stated by `EditTaskScreen.EditedRecord` |
| `EditTaskScreen.EditedRecord` | src/screens/EditTask.jsx:148-158 | saving an accepted edit keeps the task's id and `createdAt`. It stores the trimmed non-blank name, the trimmed description and timer as strings even when empty, the trimmed image or null, and the form's status. A stored timer reads as a number |
| `EditTaskScreen.EditKeepsLifecycle` | src/screens/EditTask.jsx:148-158 | saving an edit with a known status keeps the lifecycle rule and the completion time after creation |
| `EditTaskScreen.EditTaskForm.constructor` | src/screens/EditTask.jsx:39-44 | the form starts from the edited task's properties, `''` where absent, with status `inprogress` when there is none |
| `EditTaskScreen.EditTaskForm.HandleStatusToggle` | src/screens/EditTask.jsx:163-165 | the form's status becomes the toggled status |
| `EditTaskScreen.EditTaskForm.OnChangeTaskName` | src/screens/EditTask.jsx:207 | editing the name field sets it |
| `EditTaskScreen.EditTaskForm.OnChangeDescription` | src/screens/EditTask.jsx:219 | editing the description field sets it |
| `EditTaskScreen.EditTaskForm.OnChangeTimer` | src/screens/EditTask.jsx:233 | editing the timer field sets it |
| `EditTaskScreen.EditTaskForm.OnImagePicked` | src/screens/EditTask.jsx:91-92 | a picked image's address becomes the form's image |
| `EditTaskScreen.EditTaskForm.HandleSaveTask` | src/screens/EditTask.jsx:127-161 | a blank name or a non-numeric timer stops the save with the store untouched. Otherwise the store applies `Merged` with the built request, or changes nothing when the id is not stored. Without a task to edit the store never changes. A closed store leaves the busy flag set. No blank name gets into the store this way |

## Left out

- Rendering, styling, navigation, flash messages and `console.log`: user interface, with no effect on stored data.
- The camera and gallery pickers are foreign library callbacks. Only their effect is modelled: setting the image field (`OnImagePicked`). A cancelled or failed pick leaves the field as it was, so it has no step in the model. A pick whose response carries no address is not modelled.
- The share sheet, link opening and alert dialog of the task details screen. Its only store effect is `updateTaskStatus(task.id, 'completed')`, which `UpdateTaskStatus` covers. The list screen's delete-then-refetch is `DeleteTask` followed by `GetAllTaskList`.
- The app root's asynchronous open and close from React effects. Only the open/closed state of the handle is modelled.
- UUID generation and `new Date()`: the caller passes a fresh id and an integer time.
- EditTaskScreen.EditTaskForm.HandleSaveTask: the model assumes the global `Realm` is defined where src/screens/EditTask.jsx:149 builds a fresh id, because that file does not import it. If it is not defined, the save throws after the busy flag is set, and no stored record changes. The model instead returns `Submitted(false)` with the flag cleared. The list screen always passes a task to edit, so it never reaches this case.
- The `accessible` parameter of `InitializeRealm` stands for whether the device storage can be opened.
- Why `Realm.open` refuses a newer schema version is Realm's own behaviour. The model only gives the outcome: the `SchemaTooNew` error, with nothing changed.
- Realm's transactions, live result objects and object identity. Each operation is one atomic step, and the listing is a snapshot sequence.
- The order of records inside the migration loop. The loop visits the records in an unspecified order, which does not change the result.
- RealmDB.TaskStore.GetAllTaskList: Realm's order among records with equal `createdAt` is not stated. The model's insertion sort is only one valid order.
- The `maxLength` limits of the text inputs are properties of the UI widgets, not of the save path.
- JsText.IsNumeric: the numeric value `Number()` produces is not modelled, only whether it is NaN. The timer is stored as the string anyway.
