/** The `outbox_events` table as a sequence of rows, and the queries and updates the
    outbox repository runs against it (internal/infrastructure/outbox/repository.go). */
module OutboxTable {
  import opened Base

  /** Rows whose retry count has reached this value are no longer fetched. */
  const MaxRetryCount: nat := 5

  /** One row of `outbox_events`. Timestamps are values of the database clock. */
  datatype OutboxEvent = OutboxEvent(
    id: Uuid,
    aggregateType: string,
    aggregateId: Uuid,
    eventType: string,
    payload: Bytes,
    createdAt: nat,
    processedAt: Option<nat>,
    retryCount: nat,
    lastError: Option<string>)

  /** The row the INSERT of `Create` stores: the four caller fields, the id and the creation
      time assigned by the database, and the column defaults for the rest. */
  function NewRow(event: OutboxEvent, id: Uuid, at: nat): (row: OutboxEvent)
    ensures row.aggregateType == event.aggregateType && row.aggregateId == event.aggregateId
    ensures row.eventType == event.eventType && row.payload == event.payload
    ensures row.id == id && row.createdAt == at
    ensures row.processedAt == None && row.retryCount == 0 && row.lastError == None
  {
    OutboxEvent(id, event.aggregateType, event.aggregateId, event.eventType, event.payload, at, None, 0, None)
  }

  /** `processed_at IS NULL AND retry_count < 5` */
  predicate Eligible(e: OutboxEvent) {
    e.processedAt.None? && e.retryCount < MaxRetryCount
  }

  /** A row that `GetUnprocessed` will never return again. */
  predicate Retired(e: OutboxEvent) {
    e.processedAt.Some? || e.retryCount >= MaxRetryCount
  }

  /** The eligible rows of the table, in table order: the `WHERE` clause of `GetUnprocessed`. */
  function EligibleRows(rows: seq<OutboxEvent>): (r: seq<OutboxEvent>)
    ensures |r| <= |rows|
  {
    if rows == [] then []
    else (if Eligible(rows[0]) then [rows[0]] else []) + EligibleRows(rows[1..])
  }

  /** The `WHERE` clause keeps exactly the eligible rows, each as often as the table has it. */
  lemma {:induction false} EligibleRowsSpec(rows: seq<OutboxEvent>)
    ensures multiset(EligibleRows(rows)) <= multiset(rows)
    ensures forall e :: multiset(EligibleRows(rows))[e] == if Eligible(e) then multiset(rows)[e] else 0
    ensures forall e :: e in EligibleRows(rows) <==> e in rows && Eligible(e)
    decreases |rows|
  {
    if rows != [] {
      var head := if Eligible(rows[0]) then [rows[0]] else [];
      EligibleRowsSpec(rows[1..]);
      assert rows == [rows[0]] + rows[1..];
      assert multiset(rows) == multiset{rows[0]} + multiset(rows[1..]);
      assert multiset(EligibleRows(rows)) == multiset(head) + multiset(EligibleRows(rows[1..]));
    }
  }

  /** The `WHERE` clause keeps table order: the eligible rows of a table cut in two are those
      of the first part followed by those of the second. */
  lemma {:induction false} EligibleRowsAppend(front: seq<OutboxEvent>, back: seq<OutboxEvent>)
    ensures EligibleRows(front + back) == EligibleRows(front) + EligibleRows(back)
    decreases |front|
  {
    if front != [] {
      assert (front + back)[0] == front[0];
      assert (front + back)[1..] == front[1..] + back;
      EligibleRowsAppend(front[1..], back);
    } else {
      assert front + back == back;
    }
  }

  /** `ORDER BY created_at ASC`: no row is older than one before it. */
  predicate OldestFirst(s: seq<OutboxEvent>) {
    forall i, j :: 0 <= i < j < |s| ==> s[i].createdAt <= s[j].createdAt
  }

  /** A row no younger than the first of an oldest-first sequence can go in front of it. */
  lemma OldestFirstCons(x: OutboxEvent, s: seq<OutboxEvent>)
    requires OldestFirst(s) && (s == [] || x.createdAt <= s[0].createdAt)
    ensures OldestFirst([x] + s)
  {
    var r := [x] + s;
    forall i, j | 0 <= i < j < |r| ensures r[i].createdAt <= r[j].createdAt {
      assert r[j] == s[j - 1];
      if i > 0 {
        assert r[i] == s[i - 1];
      }
    }
  }

  /** The first row of an oldest-first `s` can go in front of `tail`, which holds the rest of
      `s` and a row `x` younger than it. */
  lemma OldestFirstInsertTail(x: OutboxEvent, s: seq<OutboxEvent>, tail: seq<OutboxEvent>)
    requires OldestFirst(s) && s != [] && s[0].createdAt < x.createdAt
    requires OldestFirst(tail) && multiset(tail) == multiset(s[1..]) + multiset{x}
    ensures OldestFirst([s[0]] + tail)
  {
    var r := [s[0]] + tail;
    forall i, j | 0 <= i < j < |r| ensures r[i].createdAt <= r[j].createdAt {
      var e := tail[j - 1];
      assert r[j] == e;
      if i > 0 {
        assert r[i] == tail[i - 1];
      } else if e != x {
        assert e in multiset(tail);
        assert e in multiset(s[1..]);
        var k :| 0 <= k < |s[1..]| && s[1..][k] == e;
        assert s[k + 1] == e;
      }
    }
  }

  /** Inserts `x` before the first row younger than it. */
  function InsertByAge(x: OutboxEvent, s: seq<OutboxEvent>): (r: seq<OutboxEvent>)
    ensures multiset(r) == multiset(s) + multiset{x}
  {
    if s == [] || x.createdAt <= s[0].createdAt then
      [x] + s
    else
      assert s == [s[0]] + s[1..];
      [s[0]] + InsertByAge(x, s[1..])
  }

  /** Inserting into a sequence that is oldest first keeps it oldest first. */
  lemma {:induction false} InsertByAgeSorted(x: OutboxEvent, s: seq<OutboxEvent>)
    requires OldestFirst(s)
    ensures OldestFirst(InsertByAge(x, s))
  {
    if s == [] || x.createdAt <= s[0].createdAt {
      OldestFirstCons(x, s);
    } else {
      InsertByAgeSorted(x, s[1..]);
      OldestFirstInsertTail(x, s, InsertByAge(x, s[1..]));
    }
  }

  /** Insertion sort by creation time; the order among rows created at the same time is not
      part of its contract. PostgreSQL leaves that order unspecified, and the model fixes it to
      the one this sort produces, which `UnprocessedIsPrefix` and the processor's lemmas use. */
  function SortByAge(s: seq<OutboxEvent>): (r: seq<OutboxEvent>)
    ensures multiset(r) == multiset(s)
  {
    if s == [] then []
    else
      assert s == [s[0]] + s[1..];
      InsertByAge(s[0], SortByAge(s[1..]))
  }

  /** The sort puts the rows oldest first. */
  lemma {:induction false} SortByAgeSorted(s: seq<OutboxEvent>)
    ensures OldestFirst(SortByAge(s))
  {
    if s != [] {
      SortByAgeSorted(s[1..]);
      InsertByAgeSorted(s[0], SortByAge(s[1..]));
    }
  }

  /** The rows `GetUnprocessed(limit)` returns: `WHERE` (eligible rows), `ORDER BY created_at ASC`,
      `LIMIT`. */
  function Unprocessed(rows: seq<OutboxEvent>, limit: nat): seq<OutboxEvent> {
    var sorted := SortByAge(EligibleRows(rows));
    if |sorted| <= limit then sorted else sorted[..limit]
  }

  /** At most `limit` rows, and fewer only when fewer rows are eligible. */
  lemma UnprocessedSize(rows: seq<OutboxEvent>, limit: nat)
    ensures |Unprocessed(rows, limit)| <= limit
    ensures |Unprocessed(rows, limit)| == if |EligibleRows(rows)| <= limit then |EligibleRows(rows)| else limit
  {
    var eligible := EligibleRows(rows);
    var sorted := SortByAge(eligible);
    calc {
      |sorted|;
      |multiset(sorted)|;
      |multiset(eligible)|;
      |eligible|;
    }
  }

  /** The `LIMIT` keeps a prefix of the sorted eligible rows. */
  lemma UnprocessedIsPrefix(rows: seq<OutboxEvent>, limit: nat)
    ensures Unprocessed(rows, limit) == SortByAge(EligibleRows(rows))[..|Unprocessed(rows, limit)|]
  {
    var sorted := SortByAge(EligibleRows(rows));
    if |sorted| <= limit {
      assert Unprocessed(rows, limit) == sorted == sorted[..|sorted|];
    } else {
      assert Unprocessed(rows, limit) == sorted[..limit];
    }
  }

  /** A prefix of an oldest-first sequence is oldest first. */
  lemma PrefixOldestFirst(s: seq<OutboxEvent>, n: nat)
    requires OldestFirst(s) && n <= |s|
    ensures OldestFirst(s[..n])
  {
  }

  /** A prefix holds no row more often than the whole. */
  lemma PrefixMultiset(s: seq<OutboxEvent>, n: nat)
    requires n <= |s|
    ensures multiset(s[..n]) <= multiset(s)
  {
    assert s == s[..n] + s[n..];
  }

  /** Every returned row is a row of the table that is unprocessed and below the retry ceiling. */
  lemma UnprocessedEligible(rows: seq<OutboxEvent>, limit: nat)
    ensures forall e :: e in Unprocessed(rows, limit) ==> e in rows && Eligible(e)
    ensures multiset(Unprocessed(rows, limit)) <= multiset(rows)
  {
    var eligible := EligibleRows(rows);
    var sorted := SortByAge(eligible);
    var r := Unprocessed(rows, limit);
    EligibleRowsSpec(rows);
    UnprocessedIsPrefix(rows, limit);
    PrefixMultiset(sorted, |r|);
    forall e | e in r ensures e in rows && Eligible(e) {
      assert e in multiset(r);
      assert e in multiset(eligible);
    }
  }

  /** In a sorted sequence, an element outside a prefix is no older than any element of it. */
  lemma OutsidePrefixIsLater(sorted: seq<OutboxEvent>, n: nat, e: OutboxEvent, f: OutboxEvent)
    requires OldestFirst(sorted) && n <= |sorted|
    requires e in sorted[..n] && f in sorted && f !in sorted[..n]
    ensures e.createdAt <= f.createdAt
  {
    var i :| 0 <= i < n && sorted[..n][i] == e;
    var j :| 0 <= j < |sorted| && sorted[j] == f;
    assert j >= n;
  }

  /** The rows come oldest first, and every eligible row left out is no older than any row returned. */
  lemma UnprocessedOldestFirst(rows: seq<OutboxEvent>, limit: nat)
    ensures OldestFirst(Unprocessed(rows, limit))
    ensures forall e, f :: e in Unprocessed(rows, limit) && f in rows && Eligible(f) && f !in Unprocessed(rows, limit)
              ==> e.createdAt <= f.createdAt
  {
    var eligible := EligibleRows(rows);
    var sorted := SortByAge(eligible);
    var r := Unprocessed(rows, limit);
    EligibleRowsSpec(rows);
    UnprocessedIsPrefix(rows, limit);
    SortByAgeSorted(eligible);
    PrefixOldestFirst(sorted, |r|);
    forall e, f | e in r && f in rows && Eligible(f) && f !in r ensures e.createdAt <= f.createdAt {
      assert f in multiset(eligible);
      assert f in multiset(sorted);
      OutsidePrefixIsLater(sorted, |r|, e, f);
    }
  }

  /** An UPDATE or INSERT against the table. */
  datatype TableOp =
    | Insert(row: OutboxEvent)
    | SetProcessed(id: Uuid, at: nat)
    | AddFailure(id: Uuid, message: string)

  /** The effect of one operation on one existing row. */
  function UpdateRow(e: OutboxEvent, op: TableOp): OutboxEvent {
    match op
    case Insert(_) => e
    case SetProcessed(id, at) => if e.id == id then e.(processedAt := Some(at)) else e
    case AddFailure(id, msg) => if e.id == id then e.(retryCount := e.retryCount + 1, lastError := Some(msg)) else e
  }

  /** Every row through `UpdateRow`, in place. */
  function UpdateAll(rows: seq<OutboxEvent>, op: TableOp): (r: seq<OutboxEvent>)
    ensures |r| == |rows|
  {
    if rows == [] then [] else [UpdateRow(rows[0], op)] + UpdateAll(rows[1..], op)
  }

  /** The table after one operation: `UPDATE … WHERE id = $1` touches every row with that id,
      `INSERT` appends. */
  function Apply(rows: seq<OutboxEvent>, op: TableOp): (r: seq<OutboxEvent>)
    ensures |r| == |rows| + (if op.Insert? then 1 else 0)
  {
    if op.Insert? then rows + [op.row] else UpdateAll(rows, op)
  }

  /** Every existing row goes through `UpdateRow`, in place; an INSERT adds its row last. */
  lemma {:induction false} ApplySpec(rows: seq<OutboxEvent>, op: TableOp)
    ensures forall i :: 0 <= i < |rows| ==> Apply(rows, op)[i] == UpdateRow(rows[i], op)
    ensures op.Insert? ==> Apply(rows, op)[|rows|] == op.row
    decreases |rows|
  {
    if rows != [] && !op.Insert? {
      ApplySpec(rows[1..], op);
      var r := Apply(rows, op);
      forall i | 0 <= i < |rows| ensures r[i] == UpdateRow(rows[i], op) {
        if i > 0 {
          assert r[i] == UpdateAll(rows[1..], op)[i - 1];
          assert rows[1..][i - 1] == rows[i];
        }
      }
    }
  }

  /** The table after a sequence of operations, in order. */
  function ApplyAll(rows: seq<OutboxEvent>, ops: seq<TableOp>): seq<OutboxEvent>
    decreases |ops|
  {
    if ops == [] then rows else ApplyAll(Apply(rows, ops[0]), ops[1..])
  }

  /** `MarkProcessed(id)` sets `processed_at` on the rows with that id and changes nothing else;
      an unknown id changes nothing; marking again keeps the row processed. */
  lemma MarkProcessedEffect(rows: seq<OutboxEvent>, id: Uuid, at: nat)
    ensures |Apply(rows, SetProcessed(id, at))| == |rows|
    ensures forall i :: 0 <= i < |rows| && rows[i].id != id ==> Apply(rows, SetProcessed(id, at))[i] == rows[i]
    ensures forall i :: 0 <= i < |rows| && rows[i].id == id ==>
              Apply(rows, SetProcessed(id, at))[i] == rows[i].(processedAt := Some(at))
    ensures (forall e :: e in rows ==> e.id != id) ==> Apply(rows, SetProcessed(id, at)) == rows
    ensures forall i, at': nat :: 0 <= i < |rows| && rows[i].id == id ==>
              Apply(Apply(rows, SetProcessed(id, at)), SetProcessed(id, at'))[i].processedAt == Some(at')
  {
    var r := Apply(rows, SetProcessed(id, at));
    ApplySpec(rows, SetProcessed(id, at));
    forall i, at': nat | 0 <= i < |rows| && rows[i].id == id
      ensures Apply(r, SetProcessed(id, at'))[i].processedAt == Some(at')
    {
      ApplySpec(r, SetProcessed(id, at'));
    }
    if forall e :: e in rows ==> e.id != id {
      assert forall i :: 0 <= i < |rows| ==> r[i] == rows[i];
    }
  }

  /** `MarkFailed(id, msg)` adds exactly one to the retry count and overwrites the last error
      on the rows with that id, and changes nothing else. */
  lemma MarkFailedEffect(rows: seq<OutboxEvent>, id: Uuid, msg: string)
    ensures |Apply(rows, AddFailure(id, msg))| == |rows|
    ensures forall i :: 0 <= i < |rows| && rows[i].id != id ==> Apply(rows, AddFailure(id, msg))[i] == rows[i]
    ensures forall i :: 0 <= i < |rows| && rows[i].id == id ==>
              && Apply(rows, AddFailure(id, msg))[i].retryCount == rows[i].retryCount + 1
              && Apply(rows, AddFailure(id, msg))[i].lastError == Some(msg)
              && Apply(rows, AddFailure(id, msg))[i].(retryCount := rows[i].retryCount, lastError := rows[i].lastError) == rows[i]
  {
    ApplySpec(rows, AddFailure(id, msg));
  }

  /** Applying one more operation after a sequence of them. */
  lemma {:induction false} ApplyAllSnoc(rows: seq<OutboxEvent>, ops: seq<TableOp>, op: TableOp)
    ensures ApplyAll(rows, ops + [op]) == Apply(ApplyAll(rows, ops), op)
    decreases |ops|
  {
    if ops == [] {
      assert ApplyAll(Apply(rows, op), []) == Apply(rows, op);
    } else {
      assert (ops + [op])[1..] == ops[1..] + [op];
      ApplyAllSnoc(Apply(rows, ops[0]), ops[1..], op);
    }
  }

  /** How many of `ops` add a failure to the rows with this id. */
  function FailureCount(ops: seq<TableOp>, id: Uuid): nat {
    if ops == [] then 0
    else (if ops[0].AddFailure? && ops[0].id == id then 1 else 0) + FailureCount(ops[1..], id)
  }

  /** The time the last of `ops` that marks this id processed writes, if any does. */
  function LastProcessed(ops: seq<TableOp>, id: Uuid): Option<nat> {
    if ops == [] then None
    else
      var rest := LastProcessed(ops[1..], id);
      if rest.Some? then rest
      else if ops[0].SetProcessed? && ops[0].id == id then Some(ops[0].at)
      else None
  }

  /** The message of the last of `ops` that adds a failure to this id, if any does. */
  function LastFailure(ops: seq<TableOp>, id: Uuid): Option<string> {
    if ops == [] then None
    else
      var rest := LastFailure(ops[1..], id);
      if rest.Some? then rest
      else if ops[0].AddFailure? && ops[0].id == id then Some(ops[0].message)
      else None
  }

  /** Operations that only update existing rows. */
  predicate UpdatesOnly(ops: seq<TableOp>) {
    forall k :: 0 <= k < |ops| ==> !ops[k].Insert?
  }

  /** The exact effect of a sequence of UPDATEs on one row: its retry count goes up once per
      failure recorded against its id, `processed_at` and `last_error` hold the last value
      written to them (or keep theirs), and every other column is unchanged. */
  lemma {:induction false} ApplyUpdates(rows: seq<OutboxEvent>, ops: seq<TableOp>, i: nat)
    requires UpdatesOnly(ops) && i < |rows|
    ensures |ApplyAll(rows, ops)| == |rows|
    ensures ApplyAll(rows, ops)[i].retryCount == rows[i].retryCount + FailureCount(ops, rows[i].id)
    ensures ApplyAll(rows, ops)[i].processedAt
            == if LastProcessed(ops, rows[i].id).Some? then LastProcessed(ops, rows[i].id) else rows[i].processedAt
    ensures ApplyAll(rows, ops)[i].lastError
            == if LastFailure(ops, rows[i].id).Some? then LastFailure(ops, rows[i].id) else rows[i].lastError
    ensures ApplyAll(rows, ops)[i].(retryCount := rows[i].retryCount, processedAt := rows[i].processedAt,
              lastError := rows[i].lastError) == rows[i]
    decreases |ops|
  {
    if ops != [] {
      var next := Apply(rows, ops[0]);
      assert UpdatesOnly(ops[1..]) by {
        forall k | 0 <= k < |ops[1..]| ensures !ops[1..][k].Insert? {
          assert ops[1..][k] == ops[k + 1];
        }
      }
      assert !ops[0].Insert?;
      ApplySpec(rows, ops[0]);
      ApplyUpdates(next, ops[1..], i);
    }
  }

  /** What no operation undoes: the row keeps its identity, a processed row stays processed,
      the retry count never goes down, and a recorded error is never cleared. */
  predicate Progress(before: OutboxEvent, after: OutboxEvent) {
    && after.id == before.id
    && after.payload == before.payload
    && after.eventType == before.eventType
    && (before.processedAt.Some? ==> after.processedAt.Some?)
    && after.retryCount >= before.retryCount
    && (before.lastError.Some? ==> after.lastError.Some?)
  }

  /** Over any sequence of operations no row is removed or moved, and every row makes progress. */
  lemma {:induction false} ApplyAllProgress(rows: seq<OutboxEvent>, ops: seq<TableOp>)
    ensures |ApplyAll(rows, ops)| >= |rows|
    ensures forall i :: 0 <= i < |rows| ==> Progress(rows[i], ApplyAll(rows, ops)[i])
    decreases |ops|
  {
    if ops != [] {
      var next := Apply(rows, ops[0]);
      ApplySpec(rows, ops[0]);
      ApplyAllProgress(next, ops[1..]);
    }
  }

  /** A row that is processed, or has used up its retries, never again comes back from
      `GetUnprocessed`, whatever operations follow. */
  lemma RetiredNeverReturns(rows: seq<OutboxEvent>, ops: seq<TableOp>, i: nat, limit: nat)
    requires i < |rows| && Retired(rows[i])
    ensures i < |ApplyAll(rows, ops)|
    ensures Retired(ApplyAll(rows, ops)[i])
    ensures ApplyAll(rows, ops)[i] !in Unprocessed(ApplyAll(rows, ops), limit)
  {
    ApplyAllProgress(rows, ops);
    UnprocessedEligible(ApplyAll(rows, ops), limit);
  }
}
