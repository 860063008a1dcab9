# Construction-tracking app core, modelled in Dafny

This project models the core of a construction-site tracking web app: projects
with their tasks, photos and visits, a log of working hours, a change log, and
the fire-and-forget writes to the cloud database together with the channel that
reports refused writes. Each source file of the core becomes one module:

- `Data` (data.dfy): the shared records — project, task, photo, priority and the
  rest — plus `Option`, `Result` and a JSON-like `Value`.
- `Clock` (clock.dfy): the `HH:mm` time patterns of the work-log schemas, the
  date-fns `parse(s, 'HH:mm')` they feed, and the "{h}h {m}m" duration text.
- `WorkLogForm` (work_log_form.dfy): the work-log record and the zod schema that
  the work-logs page and the work-log dialog both declare. The two copies
  differ only in the end time's minute-tens class, so the schema is written once
  and takes that class as a parameter.
- `WorkLogDialog` (work_log_dialog.dfy): the dialog's schema and its
  form-filling effect.
- `WorkLogsPage` (work_logs_page.dfy): the page's schema, the duration column,
  the project-name lookup, and the dialog state that opening and submitting
  change. The work-log table is a class over a map.
- `TasksPage` (tasks_page.dfy): every project's tasks in one list, the
  pending/completed filter, ticking a task, and the priority badge.
- `ChangeLogForm` (change_log_form.dfy): the informed list shown with
  `join(', ')` and read back with `split(',')` and `trim`.
- `ProjectHeader` (project_header.dfy): the open-task, photo and visit counts.
- `ProjectNav` (project_nav.dfy): the six project tabs and the active-tab rule.
- `Db` (db.dfy): the local `projects` table: creating a project and appending a
  photo.
- `FirestoreErrors` (errors.dfy): the permission error and the request it
  describes.
- `ErrorSurface` (error_surface.dfy): the 'permission-error' emitter and the
  listener that throws what it receives.
- `NonBlockingUpdates` (non_blocking_updates.dfy): the write helpers. A write
  is started under a ticket and settled later. A rejection becomes exactly one
  event.

Calls the model cannot see are parameters:

- the store succeeding or failing (`storeFails`);
- a new uuid (`freshId`);
- the current date (`today`, `now`);
- the random cover index (`imageIndex`);
- the placeholder image list and the phase template (fields of
  `Db.ProjectStore`);
- whether the backend rejects a write (`rejected`).

The model follows the code on two points that may be surprising:

- A refused non-blocking write is reported as a permission error whatever the
  cause of the refusal. Every `.catch` emits one; none inspects the error.
- The set helper reports the operation 'write', which the rule context's
  operation type does not list.

## Model

| member | source | states |
|---|---|---|
| WorkLogForm.FieldIssues | src/app/work-logs/page.tsx:50-56 | given the outcomes of the five field checks, no issue exactly when all pass, each issue exactly when its own check fails, and none of them is the end-after-start issue |
| WorkLogForm.Issues | src/app/work-logs/page.tsx:50-63 | given the outcomes of the field checks and of the refinement, no issue exactly when all pass; each field issue exactly when its check fails; the end-after-start issue exactly when the date is set and the refinement fails |
| WorkLogForm.ValidateWith | src/app/work-logs/page.tsx:50-63 | no issue exactly when the project and description are non-empty, the date is set, both times match their patterns, and both parse with the end strictly later; each field issue is reported exactly when its own check fails; the end-after-start check runs even when a string check has failed, but not when the date is missing, which makes the object fail outright |
| WorkLogsPage.Validate | src/app/work-logs/page.tsx:50-63 | the page's schema accepts exactly a form with project, date and description, a start matching the `[0-5]` pattern, an end matching the `[0*5]` pattern, and the end parsing strictly later; the end's format issue appears exactly when the `[0*5]` pattern refuses it |
| WorkLogDialog.Validate | src/components/work-log-dialog.tsx:36-49 | the dialog's schema accepts exactly a form with project, date and description, both times matching the `[0-5]` pattern, and the end parsing strictly later |
| Clock.ParseClock | src/app/work-logs/page.tsx:57-58 | a parsed time of day is below 24 * 60 minutes |
| Clock.ClockTextAccepted | src/app/work-logs/page.tsx:53 | every time of day written "H:mm" or "HH:mm" matches the `[0-5]` pattern and parses back to its own minutes |
| Clock.AcceptedTimeIsClockText | src/app/work-logs/page.tsx:53 | conversely, every string the `[0-5]` pattern accepts parses, and is the rendering of the time it parses to |
| Clock.TypoPatternOnClockText | src/app/work-logs/page.tsx:54 | on rendered times, the `[0*5]` pattern accepts exactly the minutes 00-09 and 50-59 |
| Clock.TypoPatternParsed | src/app/work-logs/page.tsx:54 | a string the `[0*5]` pattern accepts and that parses also matches `[0-5]`, with minutes 00-09 or 50-59 |
| Clock.DurationTextRoundTrip | src/app/work-logs/page.tsx:85 | "{h}h {m}m" can be read back into the same h and m |
| WorkLogDialog.AcceptedFormHoldsClockTimes | src/components/work-log-dialog.tsx:36-49 | a form the dialog accepts names a project and a description and holds two well-formed times, the end strictly later |
| WorkLogDialog.ClockTimesAccepted | src/components/work-log-dialog.tsx:36-49 | any two well-formed times with the end strictly later, with a project and a description, pass the dialog's schema |
| WorkLogDialog.DialogForm.Sync | src/components/work-log-dialog.tsx:73-91 | when open, the form holds the edited log's values, or a blank form dated today; when closed, the form is unchanged |
| WorkLogsPage.AcceptedEndMinutesAsWritten | src/app/work-logs/page.tsx:54 | as written, a form the page accepts has an end time whose minutes are 00-09 or 50-59 |
| WorkLogsPage.HalfPastRefusedByPage | src/app/work-logs/page.tsx:53-54 | "09:00" to "17:30" gets a bad-format issue on the end time from the page and passes the dialog's schema; "09:00" to "17:05" passes both |
| WorkLogsPage.CalculateDuration | src/app/work-logs/page.tsx:73-89 | a time that does not parse gives "NaNh NaNm"; for two parsed times, an earlier end gives "N/A", and otherwise the text reads back as the hours and the remaining minutes of the difference |
| WorkLogsPage.NotAvailableExactlyWhenEndEarlier | src/app/work-logs/page.tsx:73-89 | for two parseable times the duration is "N/A" exactly when the end is earlier |
| WorkLogsPage.DurationSplitsDifference | src/app/work-logs/page.tsx:77-85 | otherwise the duration text reads back as hours and minutes that add up to the difference, with the minutes below 60 |
| WorkLogsPage.EqualTimesGiveZero | src/app/work-logs/page.tsx:79 | equal times give "0h 0m", not "N/A" |
| WorkLogsPage.UnparseableGivesNaN | src/app/work-logs/page.tsx:75-85 | a time that does not parse gives "NaNh NaNm" |
| WorkLogsPage.NameMap | src/app/work-logs/page.tsx:100-103 | every project's id is a key, and the last project's id maps to its name |
| WorkLogsPage.NameMapLookup | src/app/work-logs/page.tsx:100-103 | an id is a key of the name map exactly when some project has it, and maps to the name of the last project with that id |
| WorkLogsPage.ProjectLabel | src/app/work-logs/page.tsx:288 | the project cell is "Obra no encontrada" while the projects load or when no project has the id; otherwise it is the name of the last project with that id |
| WorkLogsPage.WorkLogTable.Add | src/app/work-logs/page.tsx:149 | the add succeeds exactly when the store works and the id is new; the log is then stored under its id, and nothing changes otherwise |
| WorkLogsPage.WorkLogTable.Update | src/app/work-logs/page.tsx:142 | on success the submitted values replace the stored log's under the same id; a missing id changes nothing |
| WorkLogsPage.Page.constructor | src/app/work-logs/page.tsx:93-94 | the page starts closed, with no log being edited and a blank form |
| WorkLogsPage.Page.SyncForm | src/app/work-logs/page.tsx:115-131 | the form holds the edited log's values, or a blank form dated today that also becomes what a reset restores |
| WorkLogsPage.Page.OpenDialog | src/app/work-logs/page.tsx:134-137 | the dialog opens on the given log, or on none |
| WorkLogsPage.Page.OpenChange | src/app/work-logs/page.tsx:176 | the dialog takes the new open state; closing forgets the log being edited |
| WorkLogsPage.Page.OnSubmit | src/app/work-logs/page.tsx:139-159 | editing updates the edited log and creating adds a new log; on success the form is reset, the dialog is closed and the log forgotten, with the matching toast; on failure only an error toast is added |
| WorkLogsPage.Page.HandleSubmit | src/app/work-logs/page.tsx:181 | a form with issues under the page's schema is not submitted and changes nothing; a form with none is submitted with the page's `onSubmit` outcome: the edited log updated or a new log added, and on success the form reset, the dialog closed and the log forgotten with the matching toast, on failure only an error toast |
| ProjectHeader.CountOpen | src/components/project-header.tsx:24 | the open-task count is at most the task count; it is 0 exactly when every task is completed, and the full count exactly when none is |
| ProjectHeader.OpenTasks | src/components/project-header.tsx:24 | a project without a task list has no open tasks; otherwise the count is that of its tasks |
| ProjectHeader.HeaderFigures | src/components/project-header.tsx:47-57 | the open-task figure is the count of open tasks (at most the number of tasks), and the other two figures are the numbers of photos and of visits |
| TasksPage.TagEach | src/app/tasks/page.tsx:40-44 | one entry per task of the project, in order, each the task tagged with the project's name and id |
| TasksPage.Flatten | src/app/tasks/page.tsx:39-45 | the flattened list has as many entries as the projects have tasks |
| TasksPage.AllTasks | src/app/tasks/page.tsx:37-46 | the list is empty while the projects load, and otherwise holds exactly as many entries as the projects have tasks |
| TasksPage.AllTasksAt | src/app/tasks/page.tsx:39-45 | task j of project i sits after all the tasks of earlier projects, tagged with project i's name and id |
| TasksPage.AllTasksFrom | src/app/tasks/page.tsx:39-45 | every entry is some task of some project, tagged with that project |
| TasksPage.Keep | src/app/tasks/page.tsx:50 | the filter never returns more entries than it is given |
| TasksPage.KeepMembers | src/app/tasks/page.tsx:50 | the filter keeps exactly the entries with the asked-for completion, and never adds any |
| TasksPage.KeepPartition | src/app/tasks/page.tsx:50 | filtering for open and for completed entries splits the list: the two results together hold every entry exactly as often as the list does |
| TasksPage.FilteredTasks | src/app/tasks/page.tsx:48-56 | 'pending' keeps exactly the open tasks, 'completed' exactly the completed ones, 'all' returns the list unchanged |
| TasksPage.FiltersPartition | src/app/tasks/page.tsx:48-56 | the pending and completed views together hold every task exactly as often as the whole list |
| TasksPage.OpenCountIsPendingView | src/app/tasks/page.tsx:50 | a project's open-task count equals the length of the pending view of its tagged tasks |
| TasksPage.OpenTasksMatchPendingFilter | src/components/project-header.tsx:24 | the header's open-task figure for a project is the length of the tasks page's pending view of that project |
| TasksPage.SetCompleted | src/app/tasks/page.tsx:62-64 | every task with the id gets the new completion and nothing else changes; every other task, and the length and order, stay as they were |
| TasksPage.SetCompletedIdempotent | src/app/tasks/page.tsx:62-64 | applying the same check twice is applying it once |
| TasksPage.SetCompletedOpenCount | src/app/tasks/page.tsx:62-64 | with unique ids, setting one task moves the open count by exactly that task's change |
| TasksPage.HandleTaskCheck | src/app/tasks/page.tsx:58-71 | a missing project changes nothing; otherwise its task list is written back with the check applied, and a store failure is logged and changes nothing |
| TasksPage.PriorityBadgeVariant | src/app/tasks/page.tsx:73-77 | 'Alta' gives destructive, 'Media' secondary and 'Baja' outline, each only for that priority |
| ChangeLogForm.Join | src/components/change-log-form.tsx:42 | no pieces join to ""; otherwise the text is as long as the pieces plus one separator between each two, and starts with the first piece |
| ChangeLogForm.JoinNames | src/components/change-log-form.tsx:42 | the joined list is empty exactly for no names or one empty name |
| ChangeLogForm.SplitComma | src/components/change-log-form.tsx:48 | splitting always gives at least one piece, and the empty text gives the one empty piece |
| ChangeLogForm.Trim | src/components/change-log-form.tsx:48 | trim leaves no whitespace at either end and holds no character the input does not |
| ChangeLogForm.TrimCutsOnlyWhitespace | src/components/change-log-form.tsx:48 | the trimmed text is a middle slice of the input with only whitespace before and after it |
| ChangeLogForm.TrimFixesExactly | src/components/change-log-form.tsx:48 | trim leaves a string alone exactly when neither end is whitespace; trimming twice is trimming once |
| ChangeLogForm.SplitCount | src/components/change-log-form.tsx:48 | splitting at ',' gives one piece more than there are commas |
| ChangeLogForm.SplitPiecesCommaFree | src/components/change-log-form.tsx:48 | no piece holds a comma |
| ChangeLogForm.SplitThenJoin | src/components/change-log-form.tsx:48 | joining the pieces with ',' gives the text back |
| ChangeLogForm.JoinThenSplit | src/components/change-log-form.tsx:48 | a non-empty list of comma-free names joined with ',' splits back into the same list |
| ChangeLogForm.ParseInformed | src/components/change-log-form.tsx:48 | the informed list has one entry per comma plus one, each comma-free and trimmed |
| ChangeLogForm.EmptyPiecesKept | src/components/change-log-form.tsx:48 | "a,,b" is read as "a", "" and "b": empty pieces are kept |
| ChangeLogForm.InformedRoundTrip | src/components/change-log-form.tsx:42-48 | joining with ", " and then splitting and trimming gives the list back exactly when it is non-empty and no name holds a ',' or has whitespace at either end |
| ChangeLogForm.Validate | src/components/change-log-form.tsx:19-23 | `change` and `informed` are each reported exactly when empty; `observations` never is |
| ChangeLogForm.DefaultValues | src/components/change-log-form.tsx:40-44 | a new record starts with every field empty; an edited one shows its change, its names joined with ", ", and its observations or "" when it has none |
| ChangeLogForm.OnSubmit | src/components/change-log-form.tsx:47-53 | the saved record keeps `change` and `observations` as entered, and its informed list is the split-and-trimmed text, one entry per comma plus one |
| ChangeLogForm.UneditedSaveKeepsRecord | src/components/change-log-form.tsx:40-53 | opening a record and saving it unedited gives back its change, its informed list when that survives the text field, and its observations, with a missing one saved as "" |
| ProjectNav.NavItems | src/components/project-nav.tsx:24-31 | six tabs, each href the project's path followed by that tab's fixed suffix |
| ProjectNav.ActiveFlags | src/components/project-nav.tsx:37 | a tab is active exactly when the current path equals its href |
| ProjectNav.NavItemsShape | src/components/project-nav.tsx:24-31 | six tabs in fixed order and names; each href is the project path followed by nothing or by "/" and the section name |
| ProjectNav.HrefsDistinct | src/components/project-nav.tsx:24-31 | no two tabs share an href |
| ProjectNav.AtMostOneActive | src/components/project-nav.tsx:37 | at most one tab is active for any path |
| ProjectNav.SubPathActivatesNone | src/components/project-nav.tsx:37 | a path below a section tab activates no tab |
| ProjectNav.SomeActiveIff | src/components/project-nav.tsx:37 | some tab is active exactly when the path is the project path or the project path followed by one of the five section suffixes |
| Db.InitialProject | src/lib/db.ts:26-37 | the new project copies name, address, client and type, and gets the given id, date, cover, empty task, photo, visit and file lists, and the phase template |
| Db.ProjectStore.constructor | src/lib/db.ts:13-21 | the table starts empty |
| Db.ProjectStore.AddProject | src/lib/db.ts:24-39 | a cover index past the placeholder list fails before anything is stored; otherwise the single add stores the new project and yields its id, or fails and stores nothing |
| Db.ProjectStore.Get | src/app/tasks/page.tsx:59 | `get` yields the stored project, or nothing for a missing id |
| Db.ProjectStore.Update | src/lib/db.ts:42 | a successful update replaces the named field of an existing project; a missing id or a failure changes nothing |
| Db.ProjectStore.AddPhotoToProjectAsWritten | src/lib/db.ts:41-45 | as written, every call rejects because `Dexie.currentChallenge` is undefined, and nothing is stored |
| Db.ProjectStore.AddPhotoToProject | src/lib/db.ts:41-45 | as evidently intended: the project's photos become its previous photos with the new one last, no other field changes, and a missing project or a failure changes nothing |
| Db.ProjectStore.PhotoDroppedAsWritten | src/lib/db.ts:43 | on a stored project, the photos after the as-written call differ from those after the intended append: the photo is lost |
| FirestoreErrors.GetUser | src/firebase/auth/get-user.ts:11-15 | with no auth instance there is no user |
| FirestoreErrors.NewPermissionErrorWith | src/firebase/errors.ts:11-32 | the error has the fixed name and message, and its request carries the given operation and data and the context's path under the documents root; the request is signed exactly when there is a user, and then by that user |
| FirestoreErrors.NewPermissionError | src/firebase/errors.ts:11-32 | with the module's own auth, the error has the fixed name and message, and its request carries the context's operation, its path under the documents root, and its payload |
| FirestoreErrors.AlwaysAnonymous | src/firebase/errors.ts:21 | since the module's auth is never set, every error reports an anonymous request |
| FirestoreErrors.RequestPathRoundTrip | src/firebase/errors.ts:23 | the request path is "/databases/(default)/documents/" followed by the given path, which can be read back |
| FirestoreErrors.ErrorDeterminedByContext | src/firebase/errors.ts:11-32 | two rule contexts give the same error exactly when they are equal |
| ErrorSurface.FirebaseErrorListener.constructor | src/components/FirebaseErrorListener.tsx:15 | the listener starts with no error |
| ErrorSurface.FirebaseErrorListener.HandleError | src/components/FirebaseErrorListener.tsx:19-22 | the received error replaces the stored one |
| ErrorSurface.FirebaseErrorListener.Render | src/components/FirebaseErrorListener.tsx:35-40 | render throws exactly when an error is stored, and throws that error |
| ErrorSurface.FirebaseErrorListener.Mount | src/components/FirebaseErrorListener.tsx:26 | mounting registers this listener's handler |
| ErrorSurface.FirebaseErrorListener.Unmount | src/components/FirebaseErrorListener.tsx:29-31 | unmounting removes the same handler |
| ErrorSurface.ErrorEmitter.On | src/components/FirebaseErrorListener.tsx:26 | `on` adds the handler and emits nothing |
| ErrorSurface.ErrorEmitter.Off | src/components/FirebaseErrorListener.tsx:30 | `off` removes the handler and emits nothing |
| ErrorSurface.ErrorEmitter.Emit | src/firebase/non-blocking-updates.tsx:26-33 | the event is logged once and every registered listener stores it, so it throws it on its next render |
| NonBlockingUpdates.TargetPath | src/firebase/non-blocking-updates.tsx:29 | an add targets its collection's path, every other write its document's path |
| NonBlockingUpdates.Truthy | src/firebase/non-blocking-updates.tsx:106 | the data is falsy exactly when it is null, false, 0 or "" |
| NonBlockingUpdates.FailureContext | src/firebase/non-blocking-updates.tsx:24-129 | the rule context carries the target's path; 'write' exactly for set, 'create' for add, 'update' for update, photo append and delete-with-data, and 'delete' for a document delete; no payload exactly for the two deletes |
| NonBlockingUpdates.OperationOutsideUnionOnlyForSet | src/firebase/non-blocking-updates.tsx:30 | only a refused set reports an operation outside the rule context's operation type |
| NonBlockingUpdates.RejectionEventDescribesWrite | src/firebase/non-blocking-updates.tsx:28-32 | the event of a refused write names the target under the documents root, the write's operation and an anonymous request |
| NonBlockingUpdates.Backend.constructor | src/firebase/non-blocking-updates.tsx:25 | no write is in flight at first |
| NonBlockingUpdates.Backend.Dispatch | src/firebase/non-blocking-updates.tsx:25 | starting a write puts it in flight under a new ticket and commits nothing |
| NonBlockingUpdates.SetDocumentNonBlocking | src/firebase/non-blocking-updates.tsx:24-36 | starts a set of the data with the options and returns at once; the error channel is untouched |
| NonBlockingUpdates.AddDocumentNonBlocking | src/firebase/non-blocking-updates.tsx:44-57 | starts an add to the collection and hands back the pending write |
| NonBlockingUpdates.UpdateDocumentNonBlocking | src/firebase/non-blocking-updates.tsx:64-76 | starts an update with the data and returns at once |
| NonBlockingUpdates.AddPhotoToProjectNonBlocking | src/firebase/non-blocking-updates.tsx:84-97 | starts an `arrayUnion` of the photo into the project's photos |
| NonBlockingUpdates.DeleteDocumentNonBlocking | src/firebase/non-blocking-updates.tsx:104-129 | with truthy data, starts an update with the data; otherwise starts a delete of the document |
| NonBlockingUpdates.Settle | src/firebase/non-blocking-updates.tsx:25-34 | a refused write emits exactly one event, built from its failure context, that every registered listener will throw, and commits nothing; an accepted write is committed and emits nothing |

## Left out

- Locale date formatting, time zones and daylight-saving days. A log's date is an opaque integer (unset in the form only after the picked day is clicked again), and `parse` is taken as exact minutes since midnight of one day.
- Clock.ParseClock: date-fns' tolerance of surrounding whitespace and its other format tokens are not modelled; only digits, ':' and the 0..23 / 0..59 bounds are.
- WorkLogsPage.CalculateDuration: the catch branch ("N/A" on a throw) is not modelled. `parse` does not throw; it yields an Invalid Date, which the model maps to "NaNh NaNm".
- The toasts carry only their title and variant; their descriptions and the `console.error` logging are not modelled.
- The work-log list's order (by date, newest first) is not modelled. The table is a map by id.
- `db.workLogs` is not declared in src/lib/db.ts. It is modelled as a table of logs keyed by id (`WorkLogsPage.WorkLogTable`).
- Db.ProjectStore.AddPhotoToProject: as written the call rejects, because `Dexie.currentChallenge` is undefined (see Findings); the intended append takes the previous photos to be the stored project's photos.
- The `++id` auto-increment declaration of the `projects` store is not modelled. `addProject` always supplies the id, so the key `add` yields is that id.
- `getInitialPhases`, the placeholder image list and `uuidv4` are given values: the phase template and placeholder fields of `Db.ProjectStore`, and `freshId`. `Math.random()` becomes `imageIndex`, which is required to be in 0..3.
- The `ChangeLog` type is not declared in src/lib/data.ts. `ChangeLogForm.ChangeLog` holds only the fields the form reads.
- zod's `min(1)` counts UTF-16 code units; the model counts characters, which differ only in length and not in emptiness.
- The change-log page that stores the saved record is not part of this model.
- Firestore, Dexie and Firebase Auth behaviour is abstract. A write either succeeds or is refused, and a committed write is only recorded, not applied to any document. `merge` options and `arrayUnion`'s de-duplication are not modelled.
- Ordering and races between un-awaited writes (lost updates) are not modelled. `Settle` may resolve the writes in flight in any order.
- NonBlockingUpdates.Truthy: `NaN` and `undefined` cannot occur in a `Value`, so those two falsy cases are not modelled.
- The text of the `arrayUnion` payload (`JSON.stringify` of the photo) is kept as the photo itself (`FirestoreErrors.ArrayUnionNote`).
- The value the `addDoc` promise resolves to is not modelled. `AddDocumentNonBlocking` returns the ticket of its pending write.
- src/firebase/error-emitter.ts is not part of this model. `ErrorSurface.ErrorEmitter` is the smallest emitter the listener and the write helpers need.
- Throwing from the listener's render to the app's error boundary is modelled as a render result (`Throws`).
- All rendering (cards, badges, icons, dialogs) beyond the values above.

## Findings

| source | as written | input that shows it | evidently intended | confidence | as-written member | corrected member |
|---|---|---|---|---|---|---|
| src/app/work-logs/page.tsx:54 | the end-time pattern's minute-tens class is `[0*5]`, the three characters '0', '*' and '5' | start "09:00", end "17:30": the page reports a bad end-time format | `[0-5]`, as in the start-time pattern on the line above and in both patterns of src/components/work-log-dialog.tsx:39-40 | high; not executed | WorkLogsPage.AcceptedEndMinutesAsWritten | WorkLogDialog.AcceptedFormHoldsClockTimes |
| src/lib/db.ts:43 | the new photo list is built from `Dexie.currentChallenge.value.photos`; `Dexie` has no `currentChallenge`, so reading `.value` throws a TypeError and the returned promise rejects before `update` runs | any call, e.g. a stored project with no photos and any photo: the call rejects and the project keeps no photos | the stored project's photos with the new one appended | high; not executed | Db.ProjectStore.AddPhotoToProjectAsWritten | Db.ProjectStore.AddPhotoToProject |

The page's own form still runs the schema as written (`WorkLogsPage.Validate`,
used by `WorkLogsPage.Page.HandleSubmit`), since that is what the page
does. The corrected schema is the dialog's (`WorkLogDialog.Validate`).
`WorkLogsPage.HalfPastRefusedByPage` shows the two side by side.

The project store keeps the intended append (`Db.ProjectStore.AddPhotoToProject`).
`Db.ProjectStore.PhotoDroppedAsWritten` calls both on a stored project and
shows that the photo lists they leave differ.
