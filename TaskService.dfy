/** The task service's writes (internal/modules/task/service/service.go): `CreateTask`, and
    `AssignTask`, which writes the assignment and its outbox event in one transaction. */
module TaskService {
  import opened Base
  import opened OutboxTable
  import opened TaskDomain
  import opened Storage
  import Outbox

  /** The user name an event carries when the user lookup fails. */
  const UnknownUserName: string := "Unknown"
  /** The task title an event carries when the task lookup fails. */
  const UnknownTaskTitle: string := "Unknown Task"
  /** The aggregate type of task events. */
  const TaskAggregate: string := "task"

  /** `uuid.Parse`/`uuid.MustParse` as an oracle: the id a string denotes, or None when
      `uuid.Parse` reports an error (and `uuid.MustParse` panics). */
  type UuidParser = string -> Option<Uuid>

  /** The value `uuid.Parse` returns beside its error: what it had filled in before it stopped,
      which is Nil for a string of the wrong length but may be a non-nil id otherwise. */
  type UuidOnError = string -> Uuid

  /** The values `CreateTask` draws from `uuid.New` and `time.Now`. */
  datatype CreateFresh = CreateFresh(creator: Uuid, taskId: Uuid, activityId: Uuid,
                                     createdAt: nat, updatedAt: nat, activityAt: nat)

  /** The values `AssignTask` draws from `uuid.New` and `time.Now`. */
  datatype AssignFresh = AssignFresh(assignmentId: Uuid, activityId: Uuid, assignedAt: nat, activityAt: nat)

  /** Which of `AssignTask`'s statements fail. */
  datatype AssignFaults = AssignFaults(begin: bool, assign: bool, activity: bool, taskRead: bool,
                                       outbox: bool, commit: bool)

  /** How `AssignTask` ends: with the assignment, with an error, or in a panic (`MustParse` of a
      malformed id, or a nil task). */
  datatype Assigned = Assigned(assignment: TaskAssignment) | Failed(error: string) | Panicked

  // ---- CreateTask ----

  /** The creator: the value `uuid.Parse` returns for the context's user id, its error ignored,
      when that is not Nil; otherwise a fresh id. */
  function CreatorOf(parse: UuidParser, onError: UuidOnError, userIdText: string, fallback: Uuid): Uuid {
    var u := match parse(userIdText) case Some(u) => u case None => onError(userIdText);
    if u != NilUuid then u else fallback
  }

  /** What `CreateTask` returns and leaves in the database. */
  function CreateSpec(d: Db, title: string, userIdText: string, parse: UuidParser, onError: UuidOnError,
                      ids: CreateFresh, taskFails: bool, activityFails: bool): (Result<Task>, Db)
  {
    var creator := CreatorOf(parse, onError, userIdText, ids.creator);
    var task := Task(ids.taskId, title, Todo, creator, ids.createdAt, ids.updatedAt);
    var d1 := d.(clock := d.clock + 1);
    if taskFails then (Err(ErrStatementFailed), d1)
    else
      var d2 := d1.(tasks := d.tasks + [task]);
      var activity := Activity(ids.activityId, task.id, creator, TaskCreated, ids.activityAt);
      (Ok(task), if activityFails then d2.(clock := d2.clock + 1)
                 else d2.(activities := d2.activities + [activity], clock := d2.clock + 1))
  }

  /** A created task starts as "todo" with the given title; its creator is the context's user when
      that parses to a non-nil id, the non-nil value a failed parse left behind, and a fresh id
      otherwise. The task row is stored exactly when
      the call succeeds, and its activity row only then, unless that insert fails (its error is
      ignored). */
  lemma CreateTaskSpec(d: Db, title: string, userIdText: string, parse: UuidParser, onError: UuidOnError,
                       ids: CreateFresh, taskFails: bool, activityFails: bool)
    ensures var (r, d') := CreateSpec(d, title, userIdText, parse, onError, ids, taskFails, activityFails);
            && (r.Ok? <==> !taskFails)
            && (r.Ok? ==> && r.value.status == Todo && StatusText(r.value.status) == "todo"
                          && r.value.title == title && r.value.id == ids.taskId
                          && (parse(userIdText).Some? && parse(userIdText).value != NilUuid ==> r.value.createdBy == parse(userIdText).value)
                          && (parse(userIdText) == Some(NilUuid) ==> r.value.createdBy == ids.creator)
                          && (parse(userIdText).None? && onError(userIdText) != NilUuid ==> r.value.createdBy == onError(userIdText))
                          && (parse(userIdText).None? && onError(userIdText) == NilUuid ==> r.value.createdBy == ids.creator))
            && d'.tasks == (if r.Ok? then d.tasks + [r.value] else d.tasks)
            && d'.activities == (if r.Ok? && !activityFails
                                 then d.activities + [Activity(ids.activityId, r.value.id, r.value.createdBy, TaskCreated, ids.activityAt)]
                                 else d.activities)
            && d'.outbox == d.outbox && d'.assignments == d.assignments
  {
  }

  // ---- AssignTask ----

  /** The first task with that id in the table: `GetByID` finds nothing, and returns a nil task
      without an error, when there is none. */
  function FindTask(tasks: seq<Task>, id: Uuid): (r: Option<Task>)
    ensures r.Some? ==> r.value in tasks && r.value.id == id
    ensures r.None? <==> forall t :: t in tasks ==> t.id != id
  {
    if tasks == [] then None
    else if tasks[0].id == id then Some(tasks[0])
    else FindTask(tasks[1..], id)
  }

  /** The user the event describes: the looked-up user, or "Unknown" with no email. */
  function UserFor(lookup: Result<UserInfo>, userId: Uuid): UserInfo {
    if lookup.Ok? then lookup.value else UserInfo(userId, UnknownUserName, "")
  }

  /** The title the event carries: "Unknown Task" when the lookup fails, nothing (the nil task
      is dereferenced) when the task does not exist. */
  function TitleFor(tasks: seq<Task>, taskId: Uuid, readFails: bool): Option<string> {
    if readFails then Some(UnknownTaskTitle)
    else match FindTask(tasks, taskId)
      case Some(t) => Some(t.title)
      case None => None
  }

  /** The event `AssignTask` publishes for assignment `a`: it carries the ids as the caller gave
      them, the user's name and email and the task's title, or nothing when the task does not
      exist (the nil task is dereferenced). */
  function AssignedEvent(tasks: seq<Task>, taskID: string, userID: string, a: TaskAssignment,
                         user: Result<UserInfo>, readFails: bool): Option<TaskAssignedEvent>
  {
    match TitleFor(tasks, a.taskId, readFails)
    case None => None
    case Some(title) => Some(EventFor(taskID, userID, title, UserFor(user, a.userId)))
  }

  /** The event's payload before marshalling. */
  function EventFor(taskID: string, userID: string, title: string, user: UserInfo): TaskAssignedEvent {
    TaskAssignedEvent(taskID, title, userID, user.email, user.username)
  }

  /** The outbox event `AssignTask` hands to `Create`; id and creation time are assigned there. */
  function OutboxRequest(taskId: Uuid, payload: Bytes): OutboxEvent {
    OutboxEvent(NilUuid, TaskAggregate, taskId, TopicTaskAssigned, payload, 0, None, 0, None)
  }

  /** `AssignTask` from the user lookup on, inside the open transaction that has staged the
      assignment `a`; `d` is the database at that point and `startedAt` the transaction's
      `NOW()`. */
  function StageEventSpec(d: Db, startedAt: nat, taskID: string, userID: string, a: TaskAssignment,
                          codec: Codec, user: Result<UserInfo>, faults: AssignFaults): (Assigned, Db)
  {
    match AssignedEvent(d.tasks, taskID, userID, a, user, faults.taskRead)
    case None => (Panicked, d)
    case Some(ev) =>
      match codec.marshal(EventValue(ev))
      case Err(e) => (Failed(e), d)
      case Ok(payload) =>
        if faults.outbox then (Failed(ErrStatementFailed), d)
        else
          var row := NewRow(OutboxRequest(a.taskId, payload), d.nextId, startedAt);
          var d' := d.(nextId := d.nextId + 1);
          if faults.commit then (Failed(ErrCommitFailed), d')
          else (Assigned(a), ApplyWrites(d', [StageAssignment(a), StageOutbox(row)]))
  }

  /** The database after the activity insert of `AssignTask`, an autocommit statement outside
      the transaction. */
  function WithActivity(d: Db, ids: AssignFresh, a: TaskAssignment, fails: bool): Db {
    var activity := Activity(ids.activityId, a.taskId, a.userId, AssignmentAdded, ids.activityAt);
    if fails then d.(clock := d.clock + 1)
    else d.(activities := d.activities + [activity], clock := d.clock + 1)
  }

  /** The assignment `AssignTask` builds, when both ids parse. */
  function AssignmentFor(taskID: string, userID: string, parse: UuidParser, ids: AssignFresh): Option<TaskAssignment> {
    match (parse(taskID), parse(userID))
    case (Some(taskId), Some(userId)) => Some(TaskAssignment(ids.assignmentId, taskId, userId, ids.assignedAt))
    case _ => None
  }

  /** `AssignTask` inside the transaction just begun; `d` is the database after `BEGIN`. */
  function InTxSpec(d: Db, startedAt: nat, taskID: string, userID: string, parse: UuidParser, codec: Codec,
                    ids: AssignFresh, user: Result<UserInfo>, faults: AssignFaults): (Assigned, Db)
  {
    match AssignmentFor(taskID, userID, parse, ids)
    case None => (Panicked, d)
    case Some(a) =>
      if faults.assign then (Failed(ErrStatementFailed), d)
      else StageEventSpec(WithActivity(d, ids, a, faults.activity), startedAt, taskID, userID, a, codec, user, faults)
  }

  /** What `AssignTask` returns and leaves in the database. */
  function AssignSpec(d: Db, taskID: string, userID: string, parse: UuidParser, codec: Codec,
                      ids: AssignFresh, user: Result<UserInfo>, faults: AssignFaults): (Assigned, Db)
  {
    if faults.begin then (Failed(ErrBeginFailed), d)
    else InTxSpec(d.(clock := d.clock + 1), d.clock, taskID, userID, parse, codec, ids, user, faults)
  }

  /** Committing the assignment and its outbox row appends one row to each table. */
  lemma CommitPair(d: Db, a: TaskAssignment, row: OutboxEvent)
    ensures ApplyWrites(d, [StageAssignment(a), StageOutbox(row)])
            == d.(assignments := d.assignments + [a], outbox := d.outbox + [row])
  {
    var ws := [StageAssignment(a), StageOutbox(row)];
    var tail := [StageOutbox(row)];
    assert ws[1..] == tail && tail[1..] == [];
    assert OutboxRowsOf(tail) == [row];
    assert AssignmentsOf(tail) == [];
    CommitEffect(d, ws);
  }

  /** From the user lookup on, the transaction either commits the staged assignment together
      with one new outbox row, or leaves both tables as they were; the row carries the marshalled
      event. No task or activity is written. */
  lemma StageEventCommits(d: Db, startedAt: nat, taskID: string, userID: string, a: TaskAssignment,
                          codec: Codec, user: Result<UserInfo>, faults: AssignFaults)
    ensures var (r, d') := StageEventSpec(d, startedAt, taskID, userID, a, codec, user, faults);
            && d'.tasks == d.tasks && d'.activities == d.activities
            && (r.Assigned? ==>
                  && r.assignment == a && d'.assignments == d.assignments + [a]
                  && var ev := AssignedEvent(d.tasks, taskID, userID, a, user, faults.taskRead);
                  && ev.Some? && codec.marshal(EventValue(ev.value)).Ok?
                  && d'.outbox == d.outbox + [NewRow(OutboxRequest(a.taskId, codec.marshal(EventValue(ev.value)).value), d.nextId, startedAt)])
            && (!r.Assigned? ==> d'.assignments == d.assignments && d'.outbox == d.outbox)
  {
    var ev := AssignedEvent(d.tasks, taskID, userID, a, user, faults.taskRead);
    if ev.Some? && codec.marshal(EventValue(ev.value)).Ok? && !faults.outbox && !faults.commit {
      var row := NewRow(OutboxRequest(a.taskId, codec.marshal(EventValue(ev.value)).value), d.nextId, startedAt);
      CommitPair(d.(nextId := d.nextId + 1), a, row);
    }
  }

  /** The assignment and the outbox row are committed together or not at all: on success both
      tables gain exactly one row; on any error or panic neither changes. No task is written. */
  lemma AssignAtomic(d: Db, taskID: string, userID: string, parse: UuidParser, codec: Codec,
                     ids: AssignFresh, user: Result<UserInfo>, faults: AssignFaults)
    ensures var (r, d') := AssignSpec(d, taskID, userID, parse, codec, ids, user, faults);
            && (r.Assigned? ==> d'.assignments == d.assignments + [r.assignment]
                                && |d'.outbox| == |d.outbox| + 1 && d'.outbox[..|d.outbox|] == d.outbox)
            && (!r.Assigned? ==> d'.assignments == d.assignments && d'.outbox == d.outbox)
            && d'.tasks == d.tasks
  {
    var a := AssignmentFor(taskID, userID, parse, ids);
    if !faults.begin && a.Some? && !faults.assign {
      StageEventCommits(WithActivity(d.(clock := d.clock + 1), ids, a.value, faults.activity), d.clock,
                        taskID, userID, a.value, codec, user, faults);
    }
  }

  /** The outbox row a successful `AssignTask` commits: aggregate "task" with the assignment's
      task id, topic "task_assigned_stream", not yet processed, and as payload the JSON of the
      event for the given task and user ids, carrying the user's name and email ("Unknown" and
      no email when the user lookup failed) and the task's title ("Unknown Task" when the task
      lookup failed). */
  lemma AssignedRow(d: Db, taskID: string, userID: string, parse: UuidParser, codec: Codec,
                    ids: AssignFresh, user: Result<UserInfo>, faults: AssignFaults)
    ensures var (r, d') := AssignSpec(d, taskID, userID, parse, codec, ids, user, faults);
            r.Assigned? ==>
              && r.assignment == TaskAssignment(ids.assignmentId, parse(taskID).value, parse(userID).value, ids.assignedAt)
              && |d'.outbox| == |d.outbox| + 1
              && var row := d'.outbox[|d.outbox|];
              && row.aggregateType == TaskAggregate && row.aggregateId == r.assignment.taskId
              && row.eventType == TopicTaskAssigned && Eligible(row)
              && var ev := AssignedEvent(d.tasks, taskID, userID, r.assignment, user, faults.taskRead);
              && ev.Some? && codec.marshal(EventValue(ev.value)) == Ok(row.payload)
              && ev.value.taskId == taskID && ev.value.userId == userID
              && ev.value.userName == (if user.Ok? then user.value.username else UnknownUserName)
              && ev.value.userEmail == (if user.Ok? then user.value.email else "")
              && ev.value.taskTitle == (if faults.taskRead then UnknownTaskTitle
                                        else FindTask(d.tasks, r.assignment.taskId).value.title)
  {
    var a := AssignmentFor(taskID, userID, parse, ids);
    if !faults.begin && a.Some? && !faults.assign {
      var d2 := WithActivity(d.(clock := d.clock + 1), ids, a.value, faults.activity);
      StageEventCommits(d2, d.clock, taskID, userID, a.value, codec, user, faults);
      var (r, d') := AssignSpec(d, taskID, userID, parse, codec, ids, user, faults);
      if r.Assigned? {
        assert d'.outbox[|d.outbox|] == d'.outbox[|d2.outbox|];
      }
    }
  }

  /** The activity row is written outside the transaction: it is stored whenever the assignment
      was staged and the activity insert succeeds, whatever happens afterwards, so it survives a
      rollback. */
  lemma AssignActivity(d: Db, taskID: string, userID: string, parse: UuidParser, codec: Codec,
                       ids: AssignFresh, user: Result<UserInfo>, faults: AssignFaults)
    ensures var (r, d') := AssignSpec(d, taskID, userID, parse, codec, ids, user, faults);
            var written := !faults.begin && parse(taskID).Some? && parse(userID).Some? && !faults.assign && !faults.activity;
            d'.activities == if written
                             then d.activities + [Activity(ids.activityId, parse(taskID).value, parse(userID).value, AssignmentAdded, ids.activityAt)]
                             else d.activities
  {
    var a := AssignmentFor(taskID, userID, parse, ids);
    if !faults.begin && a.Some? && !faults.assign {
      StageEventCommits(WithActivity(d.(clock := d.clock + 1), ids, a.value, faults.activity), d.clock,
                        taskID, userID, a.value, codec, user, faults);
    }
  }

  /** `AssignTask` panics exactly when an id does not parse, or when the assignment was staged,
      the task lookup succeeded and found no task. */
  lemma AssignPanics(d: Db, taskID: string, userID: string, parse: UuidParser, codec: Codec,
                     ids: AssignFresh, user: Result<UserInfo>, faults: AssignFaults)
    ensures var (r, d') := AssignSpec(d, taskID, userID, parse, codec, ids, user, faults);
            r.Panicked? <==> !faults.begin && (parse(taskID).None? || parse(userID).None? ||
                               (!faults.assign && !faults.taskRead && FindTask(d.tasks, parse(taskID).value).None?))
  {
  }

  /** The committed event is fetched by the processor's next `GetUnprocessed(limit)` when fewer
      than `limit` rows were waiting before. */
  lemma AssignedEventIsFetched(d: Db, taskID: string, userID: string, parse: UuidParser, codec: Codec,
                               ids: AssignFresh, user: Result<UserInfo>, faults: AssignFaults, limit: nat)
    requires |EligibleRows(d.outbox)| < limit
    ensures var (r, d') := AssignSpec(d, taskID, userID, parse, codec, ids, user, faults);
            r.Assigned? ==> |d'.outbox| == |d.outbox| + 1 && d'.outbox[|d.outbox|] in Unprocessed(d'.outbox, limit)
  {
    var (r, d') := AssignSpec(d, taskID, userID, parse, codec, ids, user, faults);
    var a := AssignmentFor(taskID, userID, parse, ids);
    if r.Assigned? {
      assert !faults.begin && a.Some? && !faults.assign;
      var d2 := WithActivity(d.(clock := d.clock + 1), ids, a.value, faults.activity);
      assert (r, d') == StageEventSpec(d2, d.clock, taskID, userID, a.value, codec, user, faults);
      StageEventCommits(d2, d.clock, taskID, userID, a.value, codec, user, faults);
      var ev := AssignedEvent(d2.tasks, taskID, userID, a.value, user, faults.taskRead);
      var event := OutboxRequest(a.value.taskId, codec.marshal(EventValue(ev.value)).value);
      assert d'.outbox == d.outbox + [NewRow(event, d2.nextId, d.clock)];
      Outbox.CreatedRowIsFetched(d.outbox, event, d2.nextId, d.clock, limit);
    }
  }

  // ---- The service ----

  /** `taskService` over one database, its outbox repository, the JSON encoder and the id parser. */
  class TaskService {
    const db: Database
    const outbox: Outbox.Repository
    const codec: Codec
    const parse: UuidParser
    const onError: UuidOnError

    constructor (db: Database, codec: Codec, parse: UuidParser, onError: UuidOnError)
      ensures this.db == db && outbox.db == db && this.codec == codec
      ensures this.parse == parse && this.onError == onError
    {
      this.db := db;
      this.outbox := new Outbox.Repository(db);
      this.codec := codec;
      this.parse := parse;
      this.onError := onError;
    }

    /** `CreateTask`: the task row, then the activity row whose error is ignored. */
    method CreateTask(title: string, userIdText: string, ids: CreateFresh, taskFails: bool, activityFails: bool)
      returns (r: Result<Task>)
      modifies db
      ensures r == CreateSpec(old(db.state), title, userIdText, parse, onError, ids, taskFails, activityFails).0
      ensures db.state == CreateSpec(old(db.state), title, userIdText, parse, onError, ids, taskFails, activityFails).1
    {
      var createdBy := CreatorOf(parse, onError, userIdText, ids.creator);
      var task := Task(ids.taskId, title, Todo, createdBy, ids.createdAt, ids.updatedAt);
      var err := db.InsertTask(task, taskFails);
      if err.Some? {
        return Err(err.value);
      }
      var activity := Activity(ids.activityId, task.id, createdBy, TaskCreated, ids.activityAt);
      var ignored := db.InsertActivity(activity, activityFails);
      return Ok(task);
    }

    /** `AssignTask`: begin, run the body, and always roll back on the way out (deferred), which
      after a commit only reports that the transaction is done. */
    method AssignTask(taskID: string, userID: string, ids: AssignFresh, user: Result<UserInfo>, faults: AssignFaults)
      returns (r: Assigned)
      requires outbox.db == db
      modifies db
      ensures r == AssignSpec(old(db.state), taskID, userID, parse, codec, ids, user, faults).0
      ensures db.state == AssignSpec(old(db.state), taskID, userID, parse, codec, ids, user, faults).1
    {
      var began := db.Begin(faults.begin);
      if began.Err? {
        return Failed(began.error);
      }
      var tx := began.value;
      r := InTx(tx, taskID, userID, ids, user, faults);
      var ignored := tx.Rollback();
    }

    /** The body of `AssignTask` inside the transaction: parse the ids, stage the assignment,
      write the activity outside the transaction, then build and stage the event and commit. */
    method InTx(tx: Tx, taskID: string, userID: string, ids: AssignFresh, user: Result<UserInfo>, faults: AssignFaults)
      returns (r: Assigned)
      requires outbox.db == db && tx.db == db && tx.status == Active && tx.staged == []
      modifies tx, db
      ensures r == InTxSpec(old(db.state), tx.startedAt, taskID, userID, parse, codec, ids, user, faults).0
      ensures db.state == InTxSpec(old(db.state), tx.startedAt, taskID, userID, parse, codec, ids, user, faults).1
    {
      var taskId := parse(taskID);
      var userId := parse(userID);
      if taskId.None? || userId.None? {
        return Panicked;
      }
      var a := TaskAssignment(ids.assignmentId, taskId.value, userId.value, ids.assignedAt);
      var err := tx.Exec(StageAssignment(a), faults.assign);
      if err.Some? {
        return Failed(err.value);
      }
      var activity := Activity(ids.activityId, a.taskId, a.userId, AssignmentAdded, ids.activityAt);
      var ignored := db.InsertActivity(activity, faults.activity);
      r := StageEvent(tx, taskID, userID, a, user, faults);
    }

    /** From the user lookup to the commit. */
    method StageEvent(tx: Tx, taskID: string, userID: string, a: TaskAssignment, user: Result<UserInfo>, faults: AssignFaults)
      returns (r: Assigned)
      requires outbox.db == db && tx.db == db && tx.status == Active && tx.staged == [StageAssignment(a)]
      modifies tx, db
      ensures r == StageEventSpec(old(db.state), tx.startedAt, taskID, userID, a, codec, user, faults).0
      ensures db.state == StageEventSpec(old(db.state), tx.startedAt, taskID, userID, a, codec, user, faults).1
    {
      var info := UserFor(user, a.userId);
      var title := TitleFor(db.state.tasks, a.taskId, faults.taskRead);
      if title.None? {
        return Panicked;
      }
      var payload := codec.marshal(EventValue(EventFor(taskID, userID, title.value, info)));
      if payload.Err? {
        return Failed(payload.error);
      }
      var err, written := outbox.Create(Some(tx), OutboxRequest(a.taskId, payload.value), faults.outbox);
      if err.Some? {
        return Failed(err.value);
      }
      err := tx.Commit(faults.commit);
      if err.Some? {
        return Failed(err.value);
      }
      return Assigned(a);
    }
  }
}
