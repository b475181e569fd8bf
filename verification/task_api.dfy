/**
 The task API: one pure transition per HTTP route. Each handler takes the
 store (and, where the route reads the clock, the current time) and returns
 the response it sends together with the store after the request.
 */
module TaskApi {
  import opened Text
  import opened TaskModel

  /** The body of `POST /api/addtask`. `None` is an absent field; for the
      title, the description and the due date it also stands for null. */
  datatype NewTask = NewTask(
    title: Option<string>,
    description: Option<string>,
    priority: Option<string>,
    dueDate: Option<Time>)

  datatype Request =
    | Home                   // GET /
    | AddTask(body: NewTask) // POST /api/addtask
    | GetTasks               // GET /api/tasks
    | UpdateStatus(id: Id)   // PUT /api/updateStatus/:id
    | DeleteTask(id: Id)     // DELETE /api/deleteTask/:id

  datatype Outcome =
    | Welcome
    | Created
    | MissingFields
    | AlreadyExists
    | Listed(tasks: map<Id, Task>)
    | Updated
    | NotFound
    | Removed(task: Task)
    | InternalError       // the store refused the document it was given

  datatype Reply = Reply(outcome: Outcome, db: Db)

  function Status(o: Outcome): nat {
    match o
    case Welcome => 200
    case Created => 201
    case MissingFields => 400
    case AlreadyExists => 400
    case Listed(_) => 200
    case Updated => 200
    case NotFound => 404
    case Removed(_) => 200
    case InternalError => 500
  }

  /** The text a reply carries: the message field of the JSON body, or the
      whole body for the welcome route. Listing and completion send no
      message, and a store failure sends the thrown error's text, which is
      not modelled (empty here). */
  function Message(o: Outcome): string {
    match o
    case Welcome => "welcome to my todo app"
    case Created => "task created succesfully"
    case MissingFields => "please fill in all fields"
    case AlreadyExists => "this task already exist and is not yet completed and stiil has a valid due date"
    case NotFound => "Task not found"
    case Removed(_) => "Task deleted successfully"
    case _ => ""
  }

  /** JavaScript falsiness of a text field: absent, null or empty. */
  predicate Blank(field: Option<string>) {
    field.None? || field.value == []
  }

  /** The duplicate guard's query for one stored task: the same title up to
      case, not completed, and a due date no earlier than `now`. A task with
      no due date never satisfies `dueDate >= now`, because the store only
      compares dates with dates. */
  function Blocks(t: Task, title: string, now: Time): (r: bool)
    // Completed, undated and overdue tasks never block.
    ensures t.completed || t.dueDate.None? ==> !r
    ensures t.dueDate.Some? && t.dueDate.value < now ==> !r
    // Only a title of the same length can match.
    ensures r ==> |t.title| == |title|
    // A live task with exactly this title always blocks.
    ensures t.title == title && !t.completed && t.dueDate.Some? && t.dueDate.value >= now ==> r
  {
    && SameTitle(t.title, title)
    && !t.completed
    && t.dueDate.Some?
    && t.dueDate.value >= now
  }

  /** Whether the guard's query finds any stored task. */
  function HasActiveTwin(tasks: map<Id, Task>, title: string, now: Time): (r: bool)
    ensures r ==> exists id :: id in tasks && SameTitle(tasks[id].title, title) && !tasks[id].completed
    ensures (forall id :: id in tasks ==> tasks[id].completed) ==> !r
  {
    exists id :: id in tasks && Blocks(tasks[id], title, now)
  }

  /** The priority a new task gets: the default when the field is absent,
      the named one when it is in the enum, and `None` (a failed
      validation) otherwise. */
  function PriorityOrDefault(field: Option<string>): (r: Option<Priority>)
    ensures field.None? ==> r == Some(Low)
    ensures field.Some? ==> (r.Some? <==> field.value == "low" || field.value == "medium" || field.value == "high")
    ensures field.Some? && r.Some? ==> PriorityName(r.value) == field.value
  {
    if field.None? then Some(Low) else ParsePriority(field.value)
  }

  /** The document the store builds from a request: defaults filled in,
      texts trimmed, and the schema's checks applied. */
  function NewDocument(body: NewTask, createdAt: Time): (r: Option<Task>)
    requires !Blank(body.title) && !Blank(body.description)
    ensures r.Some? <==> !AllSpace(body.title.value) && PriorityOrDefault(body.priority).Some?
    ensures r.Some? ==> WellFormed(r.value)
    ensures r.Some? ==> r.value.title == Trim(body.title.value)
    ensures r.Some? ==> r.value.description == Trim(body.description.value)
    ensures r.Some? ==> !r.value.completed && r.value.dueDate == body.dueDate
    ensures r.Some? ==> r.value.createdAt == createdAt
    ensures r.Some? ==> Some(r.value.priority) == PriorityOrDefault(body.priority)
  {
    var title := Trim(body.title.value);
    var description := Trim(body.description.value);
    var priority := PriorityOrDefault(body.priority);
    if title == [] || priority.None? then None
    else Some(Task(title, description, false, priority.value, body.dueDate, createdAt))
  }

  /** POST /api/addtask. */
  function AddTaskHandler(db: Db, now: Time, createdAt: Time, body: NewTask): (r: Reply)
    // Missing fields are reported first, and change nothing.
    ensures r.outcome == MissingFields <==> Blank(body.title) || Blank(body.description)
    // A live task of the same title blocks creation, and changes nothing.
    ensures r.outcome == AlreadyExists <==>
      !Blank(body.title) && !Blank(body.description) && HasActiveTwin(db.tasks, body.title.value, now)
    // Only then are the schema's own checks reached.
    ensures r.outcome == InternalError <==>
      && !Blank(body.title) && !Blank(body.description)
      && !HasActiveTwin(db.tasks, body.title.value, now)
      && NewDocument(body, createdAt).None?
    ensures r.outcome in {Created, MissingFields, AlreadyExists, InternalError}
    ensures r.outcome != Created ==> r.db == db
    // A success stores the document under the next unissued identifier.
    ensures r.outcome == Created ==>
      && !Blank(body.title) && !Blank(body.description)
      && NewDocument(body, createdAt).Some?
      && r.db == Db(db.tasks[db.nextId := NewDocument(body, createdAt).value], db.nextId + 1)
  {
    if Blank(body.title) || Blank(body.description) then
      Reply(MissingFields, db)
    else if HasActiveTwin(db.tasks, body.title.value, now) then
      Reply(AlreadyExists, db)
    else
      match NewDocument(body, createdAt)
      case None => Reply(InternalError, db)
      case Some(t) => Reply(Created, Db(db.tasks[db.nextId := t], db.nextId + 1))
  }

  /** GET /api/tasks: every stored task, with its identifier. */
  function GetTasksHandler(db: Db): (r: Reply)
    ensures r.outcome.Listed? && r.outcome.tasks == db.tasks
    ensures r.db == db
  {
    Reply(Listed(db.tasks), db)
  }

  /** PUT /api/updateStatus/:id: marks one task completed. */
  function UpdateStatusHandler(db: Db, id: Id): (r: Reply)
    ensures r.outcome == Updated <==> id in db.tasks
    ensures r.outcome == NotFound <==> id !in db.tasks
    ensures id !in db.tasks ==> r.db == db
    ensures r.db.nextId == db.nextId && r.db.tasks.Keys == db.tasks.Keys
    ensures id in db.tasks ==> r.db.tasks[id] == db.tasks[id].(completed := true)
    ensures forall k :: k in db.tasks && k != id ==> r.db.tasks[k] == db.tasks[k]
  {
    if id in db.tasks then
      Reply(Updated, db.(tasks := db.tasks[id := db.tasks[id].(completed := true)]))
    else
      Reply(NotFound, db)
  }

  /** DELETE /api/deleteTask/:id: removes one task and answers with it. */
  function DeleteTaskHandler(db: Db, id: Id): (r: Reply)
    ensures r.outcome.Removed? <==> id in db.tasks
    ensures r.outcome == NotFound <==> id !in db.tasks
    ensures id !in db.tasks ==> r.db == db
    ensures id in db.tasks ==> r.outcome.task == db.tasks[id]
    ensures r.db.nextId == db.nextId && r.db.tasks.Keys == db.tasks.Keys - {id}
    ensures forall k :: k in r.db.tasks ==> r.db.tasks[k] == db.tasks[k]
  {
    if id in db.tasks then
      Reply(Removed(db.tasks[id]), db.(tasks := db.tasks - {id}))
    else
      Reply(NotFound, db)
  }

  /** The route table. Only a successful create, completion or delete can
      change the store, and only a create issues an identifier. */
  function Handle(db: Db, now: Time, createdAt: Time, req: Request): (r: Reply)
    ensures req.Home? || req.GetTasks? ==> r.db == db
    ensures r.db != db ==> r.outcome == Created || r.outcome == Updated || r.outcome.Removed?
    ensures r.db.nextId == db.nextId || (r.outcome == Created && r.db.nextId == db.nextId + 1)
  {
    match req
    case Home => Reply(Welcome, db)
    case AddTask(body) => AddTaskHandler(db, now, createdAt, body)
    case GetTasks => GetTasksHandler(db)
    case UpdateStatus(id) => UpdateStatusHandler(db, id)
    case DeleteTask(id) => DeleteTaskHandler(db, id)
  }
}
