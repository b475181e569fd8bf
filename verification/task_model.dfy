/**
 The task record and the store that holds it.

 A task has a trimmed, required title, a trimmed description (empty by
 default), a completion flag (false by default), a priority drawn from a
 closed set (low by default), an optional due date (none by default) and a
 creation time. The store maps identifiers to tasks; identifiers are handed
 out by the store and never reused, which the model captures with a counter
 of identifiers issued so far.
 */
module TaskModel {
  import opened Text

  datatype Option<T> = None | Some(value: T)

  /** Milliseconds since the Unix epoch. */
  type Time = int

  type Id = nat

  datatype Priority = Low | Medium | High

  /** The stored spelling of a priority. */
  function PriorityName(p: Priority): string {
    match p
    case Low => "low"
    case Medium => "medium"
    case High => "high"
  }

  /** The schema's enum check: only the three stored spellings name a priority. */
  function ParsePriority(s: string): (r: Option<Priority>)
    ensures r.Some? <==> s == "low" || s == "medium" || s == "high"
    ensures r.Some? ==> PriorityName(r.value) == s
  {
    if s == "low" then Some(Low)
    else if s == "medium" then Some(Medium)
    else if s == "high" then Some(High)
    else None
  }

  /** Every priority survives a round trip through its stored spelling. */
  lemma ParsePriorityName(p: Priority)
    ensures ParsePriority(PriorityName(p)) == Some(p)
  {
  }

  datatype Task = Task(
    title: string,
    description: string,
    completed: bool,
    priority: Priority,
    dueDate: Option<Time>,
    createdAt: Time)

  /** What the schema guarantees of every stored task: the title is present
      and non-empty once trimmed, and both texts are stored trimmed. */
  predicate WellFormed(t: Task) {
    && t.title != []
    && Trimmed(t.title)
    && Trimmed(t.description)
  }

  /** The task collection, together with the number of identifiers issued. */
  datatype Db = Db(tasks: map<Id, Task>, nextId: Id)

  /** Every stored identifier was issued before, and every stored task is well formed. */
  predicate Valid(db: Db) {
    forall id :: id in db.tasks ==> id < db.nextId && WellFormed(db.tasks[id])
  }

  const EmptyDb: Db := Db(map[], 0)
}
