/**
 The life of tasks across a sequence of requests. A task is created
 active, may be completed once (completing again changes nothing), and may
 be deleted; a deleted task never comes back, an identifier is never handed
 out twice, and a completed task never becomes active again.
 */
module Lifecycle {
  import opened TaskModel
  import opened TaskApi
  import opened Text
  import opened ApiProperties

  /** One request, with the clock readings the server takes while handling it. */
  datatype Call = Call(now: Time, createdAt: Time, req: Request)

  /** The store after serving `calls` in order. */
  function Run(db: Db, calls: seq<Call>): Db
    decreases |calls|
  {
    if calls == [] then db
    else Run(Handle(db, calls[0].now, calls[0].createdAt, calls[0].req).db, calls[1..])
  }

  /** `t'` is a later state of task `t`: every field but the completion flag
      is as it was, and the flag only ever goes from false to true. */
  predicate Evolves(t: Task, t': Task) {
    && t'.(completed := t.completed) == t
    && (t.completed ==> t'.completed)
  }

  /** `after` is a later state of store `before`: surviving tasks evolved,
      no identifier issued before `after`'s issuing started is stored unless
      it was already stored (so deleted tasks stay deleted and identifiers
      are not reused), and the issuing counter does not go back. */
  predicate Succeeds(before: Db, after: Db) {
    && before.nextId <= after.nextId
    && (forall id :: id in before.tasks && id in after.tasks ==> Evolves(before.tasks[id], after.tasks[id]))
    && (forall id :: id in after.tasks && id < before.nextId ==> id in before.tasks)
  }

  /** Every request keeps the store valid and moves it forward. */
  lemma HandleSucceeds(db: Db, now: Time, createdAt: Time, req: Request)
    requires Valid(db)
    ensures var after := Handle(db, now, createdAt, req).db;
      Valid(after) && Succeeds(db, after)
  {
    match req
    case AddTask(body) => AddTaskMovesForward(db, now, createdAt, body);
    case UpdateStatus(id) => UpdateStatusMovesForward(db, id);
    case DeleteTask(id) => DeleteTaskMovesForward(db, id);
    case Home => SucceedsReflexive(db);
    case GetTasks => SucceedsReflexive(db);
  }

  lemma AddTaskMovesForward(db: Db, now: Time, createdAt: Time, body: NewTask)
    requires Valid(db)
    ensures var after := AddTaskHandler(db, now, createdAt, body).db;
      Valid(after) && Succeeds(db, after)
  {
    AddTaskKeepsValid(db, now, createdAt, body);
    var after := AddTaskHandler(db, now, createdAt, body).db;
    if after != db {
      assert db.nextId !in db.tasks;
      forall id | id in db.tasks && id in after.tasks ensures Evolves(db.tasks[id], after.tasks[id]) {
        assert after.tasks[id] == db.tasks[id];
      }
    } else {
      SucceedsReflexive(db);
    }
  }

  lemma UpdateStatusMovesForward(db: Db, id: Id)
    requires Valid(db)
    ensures var after := UpdateStatusHandler(db, id).db;
      Valid(after) && Succeeds(db, after)
  {
    OtherHandlersKeepValid(db, id);
    var after := UpdateStatusHandler(db, id).db;
    forall k | k in db.tasks && k in after.tasks ensures Evolves(db.tasks[k], after.tasks[k]) {
      if k == id {
        assert after.tasks[k] == db.tasks[k].(completed := true);
      } else {
        assert after.tasks[k] == db.tasks[k];
      }
    }
  }

  lemma DeleteTaskMovesForward(db: Db, id: Id)
    requires Valid(db)
    ensures var after := DeleteTaskHandler(db, id).db;
      Valid(after) && Succeeds(db, after)
  {
    OtherHandlersKeepValid(db, id);
    var after := DeleteTaskHandler(db, id).db;
    forall k | k in db.tasks && k in after.tasks ensures Evolves(db.tasks[k], after.tasks[k]) {
      assert after.tasks[k] == db.tasks[k];
    }
  }

  lemma SucceedsReflexive(db: Db)
    ensures Succeeds(db, db)
  {
    forall k | k in db.tasks ensures Evolves(db.tasks[k], db.tasks[k]) {
      assert db.tasks[k].(completed := db.tasks[k].completed) == db.tasks[k];
    }
  }

  lemma SucceedsTransitive(a: Db, b: Db, c: Db)
    requires Valid(a)
    requires Succeeds(a, b) && Succeeds(b, c)
    ensures Succeeds(a, c)
  {
    forall id | id in a.tasks && id in c.tasks ensures Evolves(a.tasks[id], c.tasks[id]) {
      assert id < b.nextId;
      assert id in b.tasks;
    }
  }

  /** Any sequence of requests keeps the store valid and moves it forward:
      no task is reopened or revived, no field but the completion flag ever
      changes, and no identifier is reused. */
  lemma {:induction false} RunSucceeds(db: Db, calls: seq<Call>)
    requires Valid(db)
    ensures Valid(Run(db, calls)) && Succeeds(db, Run(db, calls))
    decreases |calls|
  {
    if calls != [] {
      var c := calls[0];
      var next := Handle(db, c.now, c.createdAt, c.req).db;
      var last := Run(next, calls[1..]);
      assert Run(db, calls) == last;
      HandleSucceeds(db, c.now, c.createdAt, c.req);
      RunSucceeds(next, calls[1..]);
      SucceedsTransitive(db, next, last);
    }
  }

  /** A completed task stays completed for as long as it is stored. */
  lemma CompletedStaysCompleted(db: Db, calls: seq<Call>, id: Id)
    requires Valid(db)
    requires id in db.tasks && db.tasks[id].completed
    ensures id in Run(db, calls).tasks ==> Run(db, calls).tasks[id].completed
  {
    RunSucceeds(db, calls);
  }

  /** A deleted task is gone for good. */
  lemma DeletedStaysDeleted(db: Db, calls: seq<Call>, id: Id)
    requires Valid(db)
    requires id in db.tasks
    ensures id !in Run(DeleteTaskHandler(db, id).db, calls).tasks
  {
    OtherHandlersKeepValid(db, id);
    RunSucceeds(DeleteTaskHandler(db, id).db, calls);
  }

  const ReportRequest: NewTask :=
    NewTask(Some("Write report"), Some("Q3 summary"), Some("high"), Some(4070908800000))

  lemma ReportTextsTrimmed()
    ensures Trim("Write report") == "Write report" && !AllSpace("Write report")
    ensures Trim("Q3 summary") == "Q3 summary"
  {
    TrimKeepsTrimmed("Write report");
    TrimKeepsTrimmed("Q3 summary");
  }

  /** Creating the report task in an empty store stores it, texts
      unchanged, active and with high priority, under the first identifier. */
  lemma ReportCreated(now: Time)
    ensures AddTaskHandler(EmptyDb, now, now, ReportRequest) ==
      Reply(Created, Db(map[0 := Task("Write report", "Q3 summary", false, High, Some(4070908800000), now)], 1))
  {
    ReportTextsTrimmed();
    assert NewDocument(ReportRequest, now) ==
      Some(Task("Write report", "Q3 summary", false, High, Some(4070908800000), now));
    assert !HasActiveTwin(map[], "Write report", now);
  }

  /** The report task is created, listed once and active, completed, and
      deleted; the delete answers with the task and the store is empty again. */
  lemma CreateCompleteDeleteScenario(now: Time)
    ensures var created := AddTaskHandler(EmptyDb, now, now, ReportRequest);
      var listed := GetTasksHandler(created.db);
      var updated := UpdateStatusHandler(created.db, 0);
      var deleted := DeleteTaskHandler(updated.db, 0);
      && Status(created.outcome) == 201
      && listed.outcome.tasks.Keys == {0}
      && listed.outcome.tasks[0].title == "Write report"
      && !listed.outcome.tasks[0].completed
      && Status(updated.outcome) == 200
      && updated.db.tasks[0].completed
      && deleted.outcome.Removed?
      && deleted.outcome.task.title == "Write report"
      && deleted.db.tasks == map[]
  {
    ReportCreated(now);
    var created := AddTaskHandler(EmptyDb, now, now, ReportRequest);
    var updated := UpdateStatusHandler(created.db, 0);
    assert updated.db.tasks - {0} == map[];
  }

  /** A title that differs from a live task's title only in case is refused,
      and the store is left as it was. */
  lemma DuplicateTitleScenario(db: Db, id: Id, now: Time, createdAt: Time)
    requires id in db.tasks
    requires db.tasks[id].title == "Buy milk" && !db.tasks[id].completed
    requires db.tasks[id].dueDate == Some(now + 86400000)
    ensures var r := AddTaskHandler(db, now, createdAt, NewTask(Some("buy milk"), Some("2 litres"), None, None));
      r.outcome == AlreadyExists && Status(r.outcome) == 400 && r.db == db
  {
    SameTitleIffCharsMatch("Buy milk", "buy milk");
    assert Blocks(db.tasks[id], "buy milk", now);
  }
}
