/** The PostgreSQL database as seen by the event-delivery path: the tables it writes, a clock for
    `NOW()`, an id generator for database-assigned ids, and transactions as staged writes that
    `Commit` publishes and `Rollback` discards. */
module Storage {
  import opened Base
  import opened OutboxTable
  import opened TaskDomain

  /** The committed contents of the database. `clock` is the value `NOW()` returns next (every
      autocommit write statement, and every `BEGIN`, advances it by one) and `nextId` the next
      id the database assigns; both only grow. */
  datatype Db = Db(
    outbox: seq<OutboxEvent>,
    tasks: seq<Task>,
    assignments: seq<TaskAssignment>,
    activities: seq<Activity>,
    clock: nat,
    nextId: Uuid)

  /** A write made through a transaction, not yet visible. */
  datatype Write = StageOutbox(row: OutboxEvent) | StageAssignment(assignment: TaskAssignment)

  function ApplyWrite(d: Db, w: Write): Db {
    match w
    case StageOutbox(row) => d.(outbox := Apply(d.outbox, Insert(row)))
    case StageAssignment(a) => d.(assignments := d.assignments + [a])
  }

  /** What a successful commit does to the database: the staged writes, in order. */
  function ApplyWrites(d: Db, ws: seq<Write>): Db
    decreases |ws|
  {
    if ws == [] then d else ApplyWrites(ApplyWrite(d, ws[0]), ws[1..])
  }

  function OutboxRowsOf(ws: seq<Write>): seq<OutboxEvent> {
    if ws == [] then []
    else (if ws[0].StageOutbox? then [ws[0].row] else []) + OutboxRowsOf(ws[1..])
  }

  function AssignmentsOf(ws: seq<Write>): seq<TaskAssignment> {
    if ws == [] then []
    else (if ws[0].StageAssignment? then [ws[0].assignment] else []) + AssignmentsOf(ws[1..])
  }

  lemma InsertAppends(rows: seq<OutboxEvent>, row: OutboxEvent)
    ensures Apply(rows, Insert(row)) == rows + [row]
  {
    var r := Apply(rows, Insert(row));
    assert forall i :: 0 <= i < |rows| ==> r[i] == rows[i];
  }

  /** A commit appends exactly the staged outbox rows and the staged assignments, in staging
      order, and leaves every other table, the clock and the id generator alone. */
  lemma {:induction false} CommitEffect(d: Db, ws: seq<Write>)
    ensures ApplyWrites(d, ws).outbox == d.outbox + OutboxRowsOf(ws)
    ensures ApplyWrites(d, ws).assignments == d.assignments + AssignmentsOf(ws)
    ensures ApplyWrites(d, ws).tasks == d.tasks && ApplyWrites(d, ws).activities == d.activities
    ensures ApplyWrites(d, ws).clock == d.clock && ApplyWrites(d, ws).nextId == d.nextId
    decreases |ws|
  {
    if ws != [] {
      if ws[0].StageOutbox? {
        InsertAppends(d.outbox, ws[0].row);
      }
      CommitEffect(ApplyWrite(d, ws[0]), ws[1..]);
    }
  }

  /** `Aborted` is PostgreSQL's failed transaction: a statement in it failed, so the server
    refuses every further statement and turns a commit into a rollback. */
  datatype TxStatus = Active | Aborted | Committed | RolledBack

  /** The error of every use of a transaction that has ended. */
  const ErrTxDone: string := "sql: transaction has already been committed or rolled back"

  /** The server's answer to a statement in an aborted transaction. */
  const ErrTxAborted: string := "current transaction is aborted, commands ignored until end of transaction block"

  /** The driver's answer to a commit of an aborted transaction, which it rolls back instead. */
  const ErrInFailedTransaction: string := "pq: Could not complete operation in a failed transaction"

  /** The errors the driver reports when a statement fails; their text is not modelled. */
  const ErrBeginFailed: string := "begin transaction failed"
  const ErrStatementFailed: string := "statement failed"
  const ErrCommitFailed: string := "commit failed"

  class Database {
    var state: Db

    constructor ()
      ensures state == Db([], [], [], [], 0, 1)
    {
      state := Db([], [], [], [], 0, 1);
    }

    /** `BeginTx`: a fresh active transaction whose `NOW()` is the current clock value. */
    method Begin(fails: bool) returns (r: Result<Tx>)
      modifies this
      ensures fails ==> r == Err(ErrBeginFailed) && state == old(state)
      ensures !fails ==> r.Ok? && fresh(r.value)
      ensures !fails ==> r.value.db == this && r.value.startedAt == old(state.clock)
      ensures !fails ==> r.value.staged == [] && r.value.status == Active
      ensures !fails ==> state == old(state).(clock := old(state.clock) + 1)
    {
      if fails {
        return Err(ErrBeginFailed);
      }
      var tx := new Tx(this, state.clock);
      state := state.(clock := state.clock + 1);
      return Ok(tx);
    }

    /** An autocommit INSERT into `tasks`. */
    method InsertTask(t: Task, fails: bool) returns (err: Option<string>)
      modifies this
      ensures err == if fails then Some(ErrStatementFailed) else None
      ensures state == if fails then old(state).(clock := old(state.clock) + 1)
                       else old(state).(tasks := old(state.tasks) + [t], clock := old(state.clock) + 1)
    {
      state := state.(clock := state.clock + 1);
      if fails {
        return Some(ErrStatementFailed);
      }
      state := state.(tasks := state.tasks + [t]);
      return None;
    }

    /** An autocommit INSERT into `activities`. */
    method InsertActivity(a: Activity, fails: bool) returns (err: Option<string>)
      modifies this
      ensures err == if fails then Some(ErrStatementFailed) else None
      ensures state == if fails then old(state).(clock := old(state.clock) + 1)
                       else old(state).(activities := old(state.activities) + [a], clock := old(state.clock) + 1)
    {
      state := state.(clock := state.clock + 1);
      if fails {
        return Some(ErrStatementFailed);
      }
      state := state.(activities := state.activities + [a]);
      return None;
    }
  }

  /** A transaction: writes made through it are staged and reach the database only on commit. */
  class Tx {
    const db: Database
    /** What `NOW()` returns inside this transaction. */
    const startedAt: nat
    var staged: seq<Write>
    var status: TxStatus

    constructor (db: Database, startedAt: nat)
      ensures this.db == db && this.startedAt == startedAt
      ensures staged == [] && status == Active
    {
      this.db := db;
      this.startedAt := startedAt;
      staged := [];
      status := Active;
    }

    /** A statement run through the transaction. A failed statement aborts the transaction. */
    method Exec(w: Write, fails: bool) returns (err: Option<string>)
      modifies this
      ensures err.Some? <==> (old(status) != Active || fails)
      ensures err.Some? ==> err.value == if old(status) == Aborted then ErrTxAborted
                                         else if old(status) != Active then ErrTxDone
                                         else ErrStatementFailed
      ensures status == if old(status) == Active && fails then Aborted else old(status)
      ensures staged == if err.Some? then old(staged) else old(staged) + [w]
    {
      if status == Aborted {
        return Some(ErrTxAborted);
      }
      if status != Active {
        return Some(ErrTxDone);
      }
      if fails {
        status := Aborted;
        return Some(ErrStatementFailed);
      }
      staged := staged + [w];
      return None;
    }

    /** `Commit`: publishes every staged write at once, or on failure none of them; an aborted
      transaction is rolled back instead. */
    method Commit(fails: bool) returns (err: Option<string>)
      modifies this, db
      ensures err.Some? <==> (old(status) != Active || fails)
      ensures err.Some? ==> err.value == if old(status) == Aborted then ErrInFailedTransaction
                                         else if old(status) != Active then ErrTxDone
                                         else ErrCommitFailed
      ensures old(status) in {Committed, RolledBack} ==> status == old(status) && db.state == old(db.state)
      ensures (old(status) == Aborted || (old(status) == Active && fails)) ==>
                status == RolledBack && db.state == old(db.state)
      ensures err.None? ==> status == Committed && db.state == ApplyWrites(old(db.state), old(staged))
      ensures staged == old(staged)
    {
      if status == Aborted {
        status := RolledBack;
        return Some(ErrInFailedTransaction);
      }
      if status != Active {
        return Some(ErrTxDone);
      }
      if fails {
        status := RolledBack;
        return Some(ErrCommitFailed);
      }
      db.state := ApplyWrites(db.state, staged);
      status := Committed;
      return None;
    }

    /** `Rollback`: discards the staged writes, also of an aborted transaction; after a commit
      or rollback it only reports `ErrTxDone`. It never changes the database. */
    method Rollback() returns (err: Option<string>)
      modifies this
      ensures err.Some? <==> old(status) in {Committed, RolledBack}
      ensures status == if old(status) in {Active, Aborted} then RolledBack else old(status)
      ensures staged == old(staged)
    {
      if status == Committed || status == RolledBack {
        return Some(ErrTxDone);
      }
      status := RolledBack;
      return None;
    }
  }
}
