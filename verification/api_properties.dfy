/**
 Properties of the task API's handlers, each relating a handler to the
 store invariant, to another handler, or to the duplicate guard's meaning.
 */
module ApiProperties {
  import opened Text
  import opened TaskModel
  import opened TaskApi

  /** A successful create adds exactly one record, under an identifier no
      stored task has, and keeps the store valid; the other outcomes keep
      the store as it was. */
  lemma AddTaskKeepsValid(db: Db, now: Time, createdAt: Time, body: NewTask)
    requires Valid(db)
    ensures var r := AddTaskHandler(db, now, createdAt, body);
      && Valid(r.db)
      && (r.outcome == Created ==>
            && db.nextId !in db.tasks
            && r.db.tasks.Keys == db.tasks.Keys + {db.nextId}
            && |r.db.tasks| == |db.tasks| + 1
            && (forall k :: k in db.tasks ==> r.db.tasks[k] == db.tasks[k]))
  {
    var r := AddTaskHandler(db, now, createdAt, body);
    if r.outcome == Created {
      var t := NewDocument(body, createdAt).value;
      assert WellFormed(t);
      assert r.db.tasks == db.tasks[db.nextId := t];
      assert db.nextId !in db.tasks;
      forall k | k in r.db.tasks ensures k < r.db.nextId && WellFormed(r.db.tasks[k]) {
        if k != db.nextId {
          assert r.db.tasks[k] == db.tasks[k];
        }
      }
      assert |r.db.tasks.Keys| == |db.tasks.Keys| + 1;
    }
  }

  /** A request that passes the field check, meets no live twin and carries
      a title with some non-space character and a known (or no) priority is
      accepted with 201; the new task is active, its priority defaults to
      low and its due date to none. */
  lemma AddTaskSucceeds(db: Db, now: Time, createdAt: Time, body: NewTask)
    requires !Blank(body.title) && !Blank(body.description)
    requires !HasActiveTwin(db.tasks, body.title.value, now)
    requires !AllSpace(body.title.value)
    requires body.priority.None? || ParsePriority(body.priority.value).Some?
    ensures var r := AddTaskHandler(db, now, createdAt, body);
      && r.outcome == Created && Status(r.outcome) == 201
      && db.nextId in r.db.tasks
      && var t := r.db.tasks[db.nextId];
      && !t.completed
      && t.title == Trim(body.title.value)
      && t.description == Trim(body.description.value)
      && t.createdAt == createdAt
      && t.dueDate == body.dueDate
      && (body.priority.None? ==> t.priority == Low)
      && (body.priority.Some? ==> PriorityName(t.priority) == body.priority.value)
  {
  }

  /** A refused create says which check refused it: the field check and
      the duplicate guard answer 400 with different messages, and each
      message appears exactly when its check fails. */
  lemma AddTaskRefusalSaysWhy(db: Db, now: Time, createdAt: Time, body: NewTask)
    ensures var r := AddTaskHandler(db, now, createdAt, body);
      && (Status(r.outcome) == 400 <==> r.outcome == MissingFields || r.outcome == AlreadyExists)
      && (Message(r.outcome) == "please fill in all fields" <==>
            Blank(body.title) || Blank(body.description))
      && (Message(r.outcome) == "this task already exist and is not yet completed and stiil has a valid due date" <==>
            !Blank(body.title) && !Blank(body.description) && HasActiveTwin(db.tasks, body.title.value, now))
      && (Status(r.outcome) == 201 ==> Message(r.outcome) == "task created succesfully")
  {
  }

  /** Only a stored task that is not completed and is due at or after `now`
      can block a title: completed, overdue and undated tasks never do. */
  lemma InactiveTwinDoesNotBlock(tasks: map<Id, Task>, title: string, now: Time)
    requires forall k :: k in tasks && SameTitle(tasks[k].title, title) ==>
      tasks[k].completed || tasks[k].dueDate.None? || tasks[k].dueDate.value < now
    ensures !HasActiveTwin(tasks, title, now)
  {
  }

  /** The guard cannot tell apart two titles that differ only in case. */
  lemma GuardIgnoresCase(tasks: map<Id, Task>, a: string, b: string, now: Time)
    requires SameTitle(a, b)
    ensures HasActiveTwin(tasks, a, now) <==> HasActiveTwin(tasks, b, now)
  {
    if HasActiveTwin(tasks, a, now) {
      var id :| id in tasks && Blocks(tasks[id], a, now);
      assert Blocks(tasks[id], b, now);
    }
    if HasActiveTwin(tasks, b, now) {
      var id :| id in tasks && Blocks(tasks[id], b, now);
      assert Blocks(tasks[id], a, now);
    }
  }

  /** Right after a successful create, no other stored task blocks the
      title that was just used. */
  lemma CreatedHasNoLiveTwin(db: Db, now: Time, createdAt: Time, body: NewTask)
    requires AddTaskHandler(db, now, createdAt, body).outcome == Created
    ensures var r := AddTaskHandler(db, now, createdAt, body);
      forall k :: k in r.db.tasks && k != db.nextId ==> !Blocks(r.db.tasks[k], body.title.value, now)
  {
  }

  /** Completing the only live task of a title frees the title. */
  lemma CompletingTwinUnblocks(db: Db, id: Id, title: string, now: Time)
    requires id in db.tasks
    requires forall k :: k in db.tasks && k != id ==> !Blocks(db.tasks[k], title, now)
    ensures !HasActiveTwin(UpdateStatusHandler(db, id).db.tasks, title, now)
  {
    var after := UpdateStatusHandler(db, id).db.tasks;
    forall k | k in after ensures !Blocks(after[k], title, now) {
      if k == id {
        assert after[k].completed;
      } else {
        assert after[k] == db.tasks[k];
      }
    }
  }

  /** Completing twice is completing once: the same answer and the same store. */
  lemma UpdateStatusIdempotent(db: Db, id: Id)
    ensures var once := UpdateStatusHandler(db, id);
      UpdateStatusHandler(once.db, id) == once
  {
    var once := UpdateStatusHandler(db, id);
    if id in db.tasks {
      assert once.db.tasks[id].(completed := true) == once.db.tasks[id];
      assert once.db.tasks[id := once.db.tasks[id].(completed := true)] == once.db.tasks;
    }
  }

  /** Completion is monotone: no handler call turns a completed task back
      into an active one, and only the completion flag of a task can change. */
  lemma UpdateStatusOnlyCompletes(db: Db, id: Id)
    ensures var r := UpdateStatusHandler(db, id);
      forall k :: k in db.tasks ==>
        && r.db.tasks[k].completed == (db.tasks[k].completed || k == id)
        && r.db.tasks[k].(completed := db.tasks[k].completed) == db.tasks[k]
  {
  }

  /** Deleting the task a create just stored answers with that task and
      gives back the store's records as they were before the create. */
  lemma DeleteUndoesAddTask(db: Db, now: Time, createdAt: Time, body: NewTask)
    requires Valid(db)
    requires AddTaskHandler(db, now, createdAt, body).outcome == Created
    ensures var r := AddTaskHandler(db, now, createdAt, body);
      var d := DeleteTaskHandler(r.db, db.nextId);
      && d.outcome == Removed(r.db.tasks[db.nextId])
      && d.db.tasks == db.tasks
  {
    var r := AddTaskHandler(db, now, createdAt, body);
    assert db.nextId !in db.tasks;
    assert r.db.tasks - {db.nextId} == db.tasks;
  }

  /** Deleting a completed task returns it completed, and leaves the same
      records as deleting it without completing it first. */
  lemma DeleteAfterUpdateStatus(db: Db, id: Id)
    requires id in db.tasks
    ensures var u := UpdateStatusHandler(db, id);
      var d := DeleteTaskHandler(u.db, id);
      && d.outcome == Removed(db.tasks[id].(completed := true))
      && d.db == DeleteTaskHandler(db, id).db
  {
    var u := UpdateStatusHandler(db, id);
    assert u.db.tasks - {id} == db.tasks - {id};
  }

  /** Listing, completing and deleting keep the store valid. */
  lemma OtherHandlersKeepValid(db: Db, id: Id)
    requires Valid(db)
    ensures Valid(GetTasksHandler(db).db)
    ensures Valid(UpdateStatusHandler(db, id).db)
    ensures Valid(DeleteTaskHandler(db, id).db)
  {
  }

  /** The guard compares the title as sent, while the store keeps it
      trimmed: a title sent with a leading space is not matched by a live
      task of the trimmed title, so the create goes through and the store
      then holds two live tasks that the guard treats as the same. */
  lemma PaddedTitlePassesGuard(db: Db, id: Id, now: Time, createdAt: Time, title: string, description: string)
    requires Valid(db)
    requires title != [] && Trimmed(title) && description != []
    requires id in db.tasks && Blocks(db.tasks[id], title, now)
    ensures var r := AddTaskHandler(db, now, createdAt, NewTask(Some([' '] + title), Some(description), None, Some(now)));
      && r.outcome == Created
      && id != db.nextId
      && Blocks(r.db.tasks[id], title, now)
      && Blocks(r.db.tasks[db.nextId], title, now)
  {
    var sent := [' '] + title;
    NothingMatchesLeadingSpace(db, sent, now);
    assert sent == [' '] + title + [];
    TrimPadded([' '], title, []);
    assert !IsSpace(sent[1]);
    var body := NewTask(Some(sent), Some(description), None, Some(now));
    AddTaskSucceeds(db, now, createdAt, body);
    AddTaskKeepsValid(db, now, createdAt, body);
  }

  /** Stored titles are trimmed, so none of them matches a title that
      starts with whitespace. */
  lemma NothingMatchesLeadingSpace(db: Db, sent: string, now: Time)
    requires Valid(db)
    requires sent != [] && IsSpace(sent[0])
    ensures !HasActiveTwin(db.tasks, sent, now)
  {
    forall k | k in db.tasks ensures !SameTitle(db.tasks[k].title, sent) {
      var t := db.tasks[k].title;
      assert WellFormed(db.tasks[k]);
      assert FoldChar(t[0]) != FoldChar(sent[0]);
      assert Fold(t)[0] != Fold(sent)[0];
    }
  }
}
