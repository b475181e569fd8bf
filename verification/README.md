# Task lifecycle of the todo app, in Dafny

This project models the task-tracking core of a small todo web application.
The server keeps a collection of tasks and exposes four routes that change
or read it:

- create a task, guarded against duplicates;
- list the tasks;
- mark a task completed;
- delete a task.

The client shows the tasks in two groups, active and completed. The model
and its proofs cover both parts.

- `text.dfy` (module `Text`) models the text handling the store applies.
  `Trim` is JavaScript's `String.prototype.trim`, which the schema applies to
  titles and descriptions. `SameTitle` is the anchored, case-insensitive
  title match used by the duplicate guard.
- `task_model.dfy` (module `TaskModel`) models the task record with its
  defaults and the priority enum. The store `Db` maps identifiers to tasks
  and counts the identifiers issued so far. `Valid` is the store invariant:
  every stored identifier was issued, and every stored task has a non-empty,
  trimmed title and a trimmed description.
- `task_api.dfy` (module `TaskApi`) has one pure function per route. Each
  takes the store, plus the clock readings for create, and returns a
  `Reply`: the outcome (which fixes status code and message) and the store
  afterwards. `Handle` is the route table.
- `api_properties.dfy` (module `ApiProperties`) proves properties of single
  requests and pairs of requests. Among them:
  - failed requests change nothing;
  - a successful request changes exactly one record;
  - completing is idempotent;
  - deleting a task that was just created restores the records;
  - what the duplicate guard does and does not block.
- `lifecycle.dfy` (module `Lifecycle`) serves any sequence of requests. It
  proves that the store stays valid, no completed task becomes active
  again, no deleted task comes back, no identifier is reused, and no field
  except the completion flag ever changes. It also proves the
  create/complete/delete scenario end to end (`CreateCompleteDeleteScenario`).
- `task_list.dfy` (module `TaskListView`) models the client list. It covers
  the choice between the loading notice, the empty-list message and the
  grouped sections. It also covers the split into active and completed
  tasks, proved to be an order-preserving partition of the input.

Decisions the model makes explicit:

- **Missing fields.** A field counts as missing when it is absent, null or
  the empty string. This is JavaScript falsiness for text.
- **Duplicate guard.** A stored task blocks a new title when three things
  hold: its title equals the new one up to case, it is not completed, and
  it has a due date no earlier than `now`. A task without a due date never
  blocks, because the store compares dates only with dates.
- **Untrimmed guard input.** The guard compares the title as the client
  sent it, but the store saves the title trimmed. `PaddedTitlePassesGuard`
  shows the consequence: a title sent with a leading space gets past a live
  task with the same trimmed title. The store then holds two live tasks that
  the guard treats as the same.
- **Schema failures.** The handler's field check (server.js:68-73) lets a
  whitespace-only title through. Once trimmed, the title fails the schema's
  `required` check (server.js:25-29), and the route answers 500. A priority
  outside the enum fails the schema's enum check (server.js:39-43). Both
  happen only after the duplicate check and surface as a 500
  (`InternalError`) with the store unchanged.
- **Description.** The schema does not require a description and defaults
  it to the empty text (server.js:30-34). The create handler still rejects
  a missing or empty one with 400 (server.js:68-73), so the schema default
  never applies to a document created through this route.
- **Identifiers.** The store hands out identifiers itself; the model uses a
  counter, `Db.nextId`. The only property used is that an identifier is
  fresh and never handed out again.

## Model

| member | source | states |
|---|---|---|
| Text.Trim | server.js:25-33 | the stored text has no whitespace at either end, is no longer than the input, and is empty exactly when the input is all whitespace |
| Text.TrimPadded | server.js:25-33 | trimming gives back any text that has no whitespace at its ends, whatever whitespace surrounds it, so trim removes exactly the padding |
| Text.SameTitle | server.js:76 | two titles match only when they have the same length, and a title always matches itself |
| Text.TrimIdempotent | server.js:28 | trimming an already trimmed title changes nothing |
| Text.SameTitleIffCharsMatch | server.js:76 | two titles match the case-insensitive whole-string pattern exactly when they have the same length and agree letter by letter up to case |
| TaskModel.ParsePriority | server.js:39-43 | only "low", "medium" and "high" name a priority, and each parsed priority is stored under the name it was given |
| TaskApi.PriorityOrDefault | server.js:39-43 | an absent priority becomes low; a given one is accepted exactly when it is "low", "medium" or "high", and is then stored under that spelling |
| TaskApi.Blocks | server.js:75-79 | completed, undated and overdue tasks never block a title; a blocking task's title has the new title's length; a live task with exactly the new title, due now or later, always blocks |
| TaskApi.HasActiveTwin | server.js:75-81 | the guard fires only when some stored task has the title up to case and is not completed, and never fires when every stored task is completed |
| TaskApi.NewDocument | server.js:24-54 | a new document is refused exactly when the trimmed title is empty or the priority is outside the enum; otherwise it is well formed, with trimmed texts, not completed, the given due date (none by default), the given creation time and priority low by default |
| TaskApi.AddTaskHandler | server.js:64-104 | missing fields give 400 before anything else; otherwise a live task with the same title gives 400; only then can the schema refuse the document (500); every failure leaves the store unchanged; a success stores the new document under the next unissued identifier |
| TaskApi.GetTasksHandler | server.js:107-119 | listing returns every stored task under its identifier and changes nothing |
| TaskApi.UpdateStatusHandler | server.js:121-148 | an existing task gets completed set to true, with no other field or record changed and 200; an absent identifier gives 404 and leaves the store unchanged |
| TaskApi.DeleteTaskHandler | server.js:151-174 | an existing task is removed and returned as it was before deletion, with the other records unchanged; an absent identifier gives 404 and leaves the store unchanged |
| TaskApi.Handle | server.js:59-174 | the welcome and listing routes change nothing; only a successful create, completion or delete changes the store; only a successful create issues an identifier, exactly one |
| ApiProperties.AddTaskRefusalSaysWhy | server.js:68-99 | create answers 400 exactly for missing fields or a live twin; the missing-fields message appears exactly when a field is missing, the duplicate message exactly when the guard fires, and a 201 says the task was created |
| ApiProperties.AddTaskKeepsValid | server.js:88-100 | create keeps the store valid; a success adds exactly one record, under an identifier no stored task has, and leaves every other record as it was |
| ApiProperties.AddTaskSucceeds | server.js:88-100 | a request with both fields, no live twin, a title that is not all whitespace and a known or absent priority gets 201; the new task is active, with trimmed texts, priority low by default and the given due date |
| ApiProperties.InactiveTwinDoesNotBlock | server.js:75-79 | a same-titled task that is completed, overdue or undated never blocks creation |
| ApiProperties.GuardIgnoresCase | server.js:76 | two titles that differ only in case are blocked by exactly the same stored tasks |
| ApiProperties.CreatedHasNoLiveTwin | server.js:75-93 | right after a successful create, no other stored task blocks the title that was used |
| ApiProperties.CompletingTwinUnblocks | server.js:75-79 | completing the only live task of a title lets that title be created again |
| ApiProperties.UpdateStatusIdempotent | server.js:124-140 | completing a task twice gives the same reply and the same store as completing it once |
| ApiProperties.UpdateStatusOnlyCompletes | server.js:124-128 | after completion a task is completed if and only if it was completed before or is the target; no other field of any task changes |
| ApiProperties.DeleteUndoesAddTask | server.js:151-167 | deleting the task a create just stored returns that task and restores the records to what they were before the create |
| ApiProperties.DeleteAfterUpdateStatus | server.js:151-167 | deleting a completed task returns it with completed true and leaves the same records as deleting it directly |
| ApiProperties.OtherHandlersKeepValid | server.js:107-174 | listing, completing and deleting keep the store valid |
| ApiProperties.PaddedTitlePassesGuard | server.js:75-93 | the guard matches the title as sent while the store keeps it trimmed, so a title with a leading space is created next to a live task of the trimmed title, and both then block that title |
| ApiProperties.NothingMatchesLeadingSpace | server.js:75-79 | in a valid store no task matches a title that starts with whitespace |
| Lifecycle.HandleSucceeds | server.js:59-174 | every request keeps the store valid, changes no field except the completion flag, only sets that flag to true, never revives a deleted identifier and never goes back on issued identifiers |
| Lifecycle.AddTaskMovesForward | server.js:64-104 | create keeps the store valid and changes no stored task |
| Lifecycle.UpdateStatusMovesForward | server.js:121-148 | completion keeps the store valid and changes stored tasks only by setting the completion flag |
| Lifecycle.DeleteTaskMovesForward | server.js:151-174 | delete keeps the store valid and changes no surviving task |
| Lifecycle.RunSucceeds | server.js:59-174 | after any sequence of requests the store is valid, surviving tasks differ from before only by completion that went from false to true, and deleted identifiers stay deleted |
| Lifecycle.CompletedStaysCompleted | server.js:121-148 | a completed task stays completed for as long as it is stored, whatever requests follow |
| Lifecycle.DeletedStaysDeleted | server.js:151-174 | a deleted task never reappears, whatever requests follow |
| Lifecycle.ReportCreated | server.js:64-100 | creating "Write report" with priority high in an empty store stores exactly that task, active, under the first identifier |
| Lifecycle.CreateCompleteDeleteScenario | server.js:64-174 | the report task is created with 201 and listed once, active; completing it gives 200 and sets completed; deleting it returns the task and empties the store |
| Lifecycle.DuplicateTitleScenario | server.js:75-86 | with a live "Buy milk" due tomorrow, creating "buy milk" is refused with 400 and the store is unchanged |
| TaskListView.Select | src/TaskList.jsx:21-22 | a group is no longer than the input and holds only tasks with the group's completion flag |
| TaskListView.SelectKeepsOrder | src/TaskList.jsx:21-22 | each group is exactly the input tasks with the group's completion flag, each taken from its input position, in input order |
| TaskListView.SelectMembership | src/TaskList.jsx:21-22 | a task is in a group exactly when it is in the input and has the group's completion flag |
| TaskListView.GroupsPartition | src/TaskList.jsx:21-22 | the two groups are disjoint, their lengths sum to the input's length, and together they hold each input task as often as the input does |
| TaskListView.Render | src/TaskList.jsx:4-24 | while loading the loading notice is shown whatever the tasks; otherwise an empty list shows the empty-list message, and a non-empty list shows sections |
| TaskListView.RenderShowsNonEmptyGroups | src/TaskList.jsx:24-61 | each group's section is shown exactly when the group is not empty and lists that group; active comes before completed, and at least one section is shown |

## Left out

- Server bootstrap is not modelled: Express and Mongoose setup, environment configuration, CORS, the database connection and `listen`. These are I/O plumbing.
- The 500 answers for store failures are not modelled: a lost connection, a failed query or a failed write. Only the schema's refusal of a document is modelled, as `InternalError`; its message text is not.
- Text.SameTitle: case folding covers the ASCII letters only. The pattern is built in JavaScript but evaluated by MongoDB's regular-expression engine inside `findOne`, whose case-insensitive matching also folds non-ASCII letters, so titles that differ only in the case of such letters are treated as different here.
- Text.SameTitle: titles are compared as plain text. The guard builds its pattern from the title without escaping, so a title containing regular-expression metacharacters matches other strings (or makes the pattern invalid and the request fail with 500); such titles are out of scope.
- The race between the duplicate check and the insert under concurrent creates is concurrency and is not modelled; requests are served one at a time.
- The wall clock is not read: `now` and `createdAt` are parameters of the create handler.
- A path identifier that is not a well-formed store identifier makes the real store throw and the route answer 500. The model's identifiers are natural numbers, so this case does not arise.
- Request fields are modelled as text or absent. JSON numbers or booleans in `title` or `description`, a null `priority`, and a due date that does not parse as a date are not modelled.
- The listing's order is not modelled: the route returns the whole collection as a map from identifier to task.
- The health-check route is modelled only as the `Welcome` outcome of `Handle`.
- The `if (newTask)` test after a create is not modelled: a create that returns nothing would send no response, and the store never returns nothing on success.
- The client files other than the task list are not modelled: the form, the application shell with its `fetch` calls, and the item view with its locale-dependent date formatting.
