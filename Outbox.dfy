/** The outbox repository (internal/infrastructure/outbox/repository.go) as statements against
    the database, and the processor that relays outbox rows to the event bus
    (internal/infrastructure/outbox/processor.go). */
module Outbox {
  import opened Base
  import opened OutboxTable
  import opened Storage

  /** The PostgreSQL error for a negative `LIMIT`. */
  const ErrNegativeLimit: string := "LIMIT must not be negative"

  /** The repository over one database. */
  class Repository {
    const db: Database

    constructor (db: Database)
      ensures this.db == db
    {
      this.db := db;
    }

    /** `Create`: inserts the four caller fields, through the transaction when one is given
      (staged, so the row appears only when it commits; its `NOW()` is the transaction's start)
      and as an autocommit statement otherwise. On success the id and creation time the database
      assigned are written back into the caller's event (`written`); on error the event comes
      back as it was and nothing is stored. */
    method Create(tx: Option<Tx>, event: OutboxEvent, fails: bool) returns (err: Option<string>, written: OutboxEvent)
      modifies if tx.Some? then {tx.value, tx.value.db} else {db}
      ensures tx.Some? ==>
                var t := tx.value;
                var row := NewRow(event, old(t.db.state.nextId), t.startedAt);
                && (err.Some? <==> (old(t.status) != Active || fails))
                && (err.Some? ==> err.value == if old(t.status) == Aborted then ErrTxAborted
                                               else if old(t.status) != Active then ErrTxDone
                                               else ErrStatementFailed)
                && t.status == (if old(t.status) == Active && fails then Aborted else old(t.status))
                && (err.None? ==> && written == event.(id := row.id, createdAt := row.createdAt)
                                  && t.staged == old(t.staged) + [StageOutbox(row)]
                                  && t.db.state == old(t.db.state).(nextId := row.id + 1))
                && (err.Some? ==> written == event && t.staged == old(t.staged) && t.db.state == old(t.db.state))
      ensures tx.None? ==>
                var row := NewRow(event, old(db.state.nextId), old(db.state.clock));
                && (err == if fails then Some(ErrStatementFailed) else None)
                && (err.None? ==> && written == event.(id := row.id, createdAt := row.createdAt)
                                  && db.state == old(db.state).(outbox := old(db.state.outbox) + [row],
                                                                clock := row.createdAt + 1, nextId := row.id + 1))
                && (err.Some? ==> written == event && db.state == old(db.state).(clock := old(db.state.clock) + 1))
    {
      if tx.Some? {
        var t := tx.value;
        var row := NewRow(event, t.db.state.nextId, t.startedAt);
        err := t.Exec(StageOutbox(row), fails);
        if err.Some? {
          return err, event;
        }
        t.db.state := t.db.state.(nextId := row.id + 1);
        return None, event.(id := row.id, createdAt := row.createdAt);
      }
      var row := NewRow(event, db.state.nextId, db.state.clock);
      db.state := db.state.(clock := db.state.clock + 1);
      if fails {
        return Some(ErrStatementFailed), event;
      }
      InsertAppends(db.state.outbox, row);
      db.state := db.state.(outbox := Apply(db.state.outbox, Insert(row)), nextId := row.id + 1);
      return None, event.(id := row.id, createdAt := row.createdAt);
    }

    /** `GetUnprocessed`: at most `limit` unprocessed rows below the retry ceiling, oldest first;
      a negative limit is refused by the database. */
    method GetUnprocessed(limit: int, fails: bool) returns (r: Result<seq<OutboxEvent>>)
      ensures r.Err? <==> (fails || limit < 0)
      ensures r.Ok? ==> r.value == Unprocessed(db.state.outbox, limit)
      ensures r.Ok? ==> |r.value| <= limit && OldestFirst(r.value)
      ensures r.Ok? ==> forall e :: e in r.value ==> e in db.state.outbox && Eligible(e)
    {
      if fails {
        return Err("query outbox events failed");
      }
      if limit < 0 {
        return Err(ErrNegativeLimit);
      }
      UnprocessedSize(db.state.outbox, limit);
      UnprocessedEligible(db.state.outbox, limit);
      UnprocessedOldestFirst(db.state.outbox, limit);
      return Ok(Unprocessed(db.state.outbox, limit));
    }

    /** `MarkProcessed`: `processed_at = NOW()` on the rows with this id. */
    method MarkProcessed(id: Uuid, fails: bool) returns (err: Option<string>)
      modifies db
      ensures err.Some? <==> fails
      ensures db.state == old(db.state).(
                outbox := if fails then old(db.state.outbox) else Apply(old(db.state.outbox), SetProcessed(id, old(db.state.clock))),
                clock := old(db.state.clock) + 1)
    {
      var at := db.state.clock;
      db.state := db.state.(clock := at + 1);
      if fails {
        return Some("mark processed failed");
      }
      db.state := db.state.(outbox := Apply(db.state.outbox, SetProcessed(id, at)));
      return None;
    }

    /** `MarkFailed`: one more retry and the error text, on the rows with this id. */
    method MarkFailed(id: Uuid, message: string, fails: bool) returns (err: Option<string>)
      modifies db
      ensures err.Some? <==> fails
      ensures db.state == old(db.state).(
                outbox := if fails then old(db.state.outbox) else Apply(old(db.state.outbox), AddFailure(id, message)),
                clock := old(db.state.clock) + 1)
    {
      db.state := db.state.(clock := db.state.clock + 1);
      if fails {
        return Some("mark failed failed");
      }
      db.state := db.state.(outbox := Apply(db.state.outbox, AddFailure(id, message)));
      return None;
    }
  }

  /** Every eligible row of the table in table order, after one more row: the `WHERE` clause
      sees the new row last. */
  lemma {:induction false} EligibleRowsSnoc(rows: seq<OutboxEvent>, row: OutboxEvent)
    ensures EligibleRows(rows + [row]) == EligibleRows(rows) + (if Eligible(row) then [row] else [])
    decreases |rows|
  {
    if rows == [] {
      assert EligibleRows([row]) == (if Eligible(row) then [row] else []) + EligibleRows([]);
    } else {
      assert (rows + [row])[1..] == rows[1..] + [row];
      EligibleRowsSnoc(rows[1..], row);
    }
  }

  /** A row `Create` stores is fetched by the next `GetUnprocessed` whose limit leaves room for
      it beside the rows already waiting. */
  lemma CreatedRowIsFetched(rows: seq<OutboxEvent>, event: OutboxEvent, id: Uuid, at: nat, limit: nat)
    requires |EligibleRows(rows)| < limit
    ensures NewRow(event, id, at) in Unprocessed(rows + [NewRow(event, id, at)], limit)
  {
    var row := NewRow(event, id, at);
    var eligible := EligibleRows(rows + [row]);
    EligibleRowsSnoc(rows, row);
    assert row in eligible;
    assert row in multiset(SortByAge(eligible));
  }

  /** How the event bus answers, during one tick, the `Publish(topic, payload)` call for the
      k-th event of the batch: nothing, or an error text. */
  type Publisher = (nat, string, Value) -> Option<string>

  /** The repository call a tick ends with for one event. */
  datatype Mark = MarkedFailed(id: Uuid, message: string) | MarkedProcessed(id: Uuid)

  /** What one tick meets: whether the fetch fails, whether the UPDATE for the k-th event of
      the batch fails, and how the bus answers its `Publish` calls. Each tick has its own, so an
      event the bus refused on one tick can go through when it is fetched again. */
  datatype TickFaults = TickFaults(fetchFails: bool, markFails: nat -> bool, publish: Publisher)

  /** `publishEvent`: the payload decoded into a JSON object and published on the topic named
      by the event type; the error is the decoder's or the bus's. */
  function PublishError(codec: Codec, publish: Publisher, e: OutboxEvent, k: nat): Option<string> {
    match codec.unmarshalObject(e.payload)
    case Err(msg) => Some(msg)
    case Ok(v) => publish(k, e.eventType, v)
  }

  /** The `Publish` call `publishEvent` makes for an event, if its payload decodes. */
  function PublishOf(codec: Codec, e: OutboxEvent): seq<(string, Value)> {
    match codec.unmarshalObject(e.payload)
    case Err(_) => []
    case Ok(v) => [(e.eventType, v)]
  }

  function MarkFor(codec: Codec, publish: Publisher, e: OutboxEvent, k: nat): Mark {
    var err := PublishError(codec, publish, e, k);
    if err.Some? then MarkedFailed(e.id, err.value) else MarkedProcessed(e.id)
  }

  /** The repository calls of a tick over `es`, in batch order. */
  function Marks(codec: Codec, publish: Publisher, es: seq<OutboxEvent>): (ms: seq<Mark>)
    ensures |ms| == |es|
  {
    if es == [] then [] else Marks(codec, publish, es[..|es| - 1]) + [MarkFor(codec, publish, es[|es| - 1], |es| - 1)]
  }

  /** The `Publish` calls of a tick over `es`, in batch order. */
  function Publishes(codec: Codec, es: seq<OutboxEvent>): seq<(string, Value)> {
    if es == [] then [] else Publishes(codec, es[..|es| - 1]) + PublishOf(codec, es[|es| - 1])
  }

  /** The UPDATE a repository call runs, with `at` the value of `NOW()`. */
  function MarkOp(m: Mark, at: nat): TableOp {
    match m
    case MarkedFailed(id, msg) => AddFailure(id, msg)
    case MarkedProcessed(id) => SetProcessed(id, at)
  }

  lemma MarksSnoc(codec: Codec, publish: Publisher, es: seq<OutboxEvent>, e: OutboxEvent)
    ensures Marks(codec, publish, es + [e]) == Marks(codec, publish, es) + [MarkFor(codec, publish, e, |es|)]
    ensures Publishes(codec, es + [e]) == Publishes(codec, es) + PublishOf(codec, e)
  {
    assert (es + [e])[..|es|] == es;
  }

  /** One call per event, in batch order: `MarkFailed` with the decoder's error when the payload
      is not a JSON object, `MarkFailed` with the bus's error when publishing fails, and
      `MarkProcessed` otherwise. */
  lemma {:induction false} MarksSpec(codec: Codec, publish: Publisher, es: seq<OutboxEvent>)
    ensures |Marks(codec, publish, es)| == |es|
    ensures forall k :: 0 <= k < |es| ==> Marks(codec, publish, es)[k].id == es[k].id
    ensures forall k :: 0 <= k < |es| ==>
              (Marks(codec, publish, es)[k].MarkedFailed? <==> PublishError(codec, publish, es[k], k).Some?)
    ensures forall k :: 0 <= k < |es| && codec.unmarshalObject(es[k].payload).Err? ==>
              Marks(codec, publish, es)[k] == MarkedFailed(es[k].id, codec.unmarshalObject(es[k].payload).error)
    ensures forall k :: 0 <= k < |es| && PublishError(codec, publish, es[k], k).Some? ==>
              Marks(codec, publish, es)[k].message == PublishError(codec, publish, es[k], k).value
    decreases |es|
  {
    if es != [] {
      var n := |es| - 1;
      MarksSpec(codec, publish, es[..n]);
      forall k | 0 <= k < n ensures es[..n][k] == es[k] { }
    }
  }

  /** Only events whose payload decodes are published, each on the topic named by its event
      type with the decoded object, in batch order: the calls are those of the decodable
      events, and each decodable event has its call. */
  lemma {:induction false} PublishesSpec(codec: Codec, es: seq<OutboxEvent>)
    ensures |Publishes(codec, es)| <= |es|
    ensures forall p :: p in Publishes(codec, es) ==>
              exists k :: 0 <= k < |es| && p.0 == es[k].eventType && codec.unmarshalObject(es[k].payload) == Ok(p.1)
    ensures forall k :: 0 <= k < |es| && codec.unmarshalObject(es[k].payload).Ok? ==>
              (es[k].eventType, codec.unmarshalObject(es[k].payload).value) in Publishes(codec, es)
    decreases |es|
  {
    if es != [] {
      var n := |es| - 1;
      var prev := es[..n];
      PublishesSpec(codec, prev);
      forall p | p in Publishes(codec, es)
        ensures exists k :: 0 <= k < |es| && p.0 == es[k].eventType && codec.unmarshalObject(es[k].payload) == Ok(p.1)
      {
        if p in Publishes(codec, prev) {
          var k :| 0 <= k < |prev| && p.0 == prev[k].eventType && codec.unmarshalObject(prev[k].payload) == Ok(p.1);
          assert prev[k] == es[k];
        } else {
          assert p in PublishOf(codec, es[n]);
        }
      }
      forall k | 0 <= k < |es| && codec.unmarshalObject(es[k].payload).Ok?
        ensures (es[k].eventType, codec.unmarshalObject(es[k].payload).value) in Publishes(codec, es)
      {
        if k < n {
          assert prev[k] == es[k];
        }
      }
    }
  }

  /** What the processor has observably done: the database, its repository calls and its
      `Publish` calls. */
  datatype ProcState = ProcState(db: Db, marks: seq<Mark>, published: seq<(string, Value)>)

  /** The batch a tick works on: none when the fetch fails (a negative batch size makes it fail). */
  function Fetched(rows: seq<OutboxEvent>, batchSize: int, fetchFails: bool): (events: seq<OutboxEvent>)
    ensures batchSize >= 0 ==> |events| <= batchSize
    ensures forall e :: e in events ==> e in rows && Eligible(e)
  {
    if fetchFails || batchSize < 0 then []
    else
      UnprocessedSize(rows, batchSize);
      UnprocessedEligible(rows, batchSize);
      Unprocessed(rows, batchSize)
  }

  /** One pass of the loop of `processEvents`, for the event at position k of the batch: its
      `Publish` call if the payload decodes, then its repository call, whose UPDATE runs unless
      it fails. */
  function StepOn(st: ProcState, e: OutboxEvent, k: nat, codec: Codec, publish: Publisher, markFails: nat -> bool): ProcState {
    var m := MarkFor(codec, publish, e, k);
    ProcState(
      st.db.(outbox := if markFails(k) then st.db.outbox else Apply(st.db.outbox, MarkOp(m, st.db.clock)),
             clock := st.db.clock + 1),
      st.marks + [m],
      st.published + PublishOf(codec, e))
  }

  /** The loop of `processEvents` over a fetched batch: one pass per event, in batch order. */
  function TickOn(st: ProcState, es: seq<OutboxEvent>, codec: Codec, publish: Publisher, markFails: nat -> bool): ProcState {
    if es == [] then st
    else StepOn(TickOn(st, es[..|es| - 1], codec, publish, markFails), es[|es| - 1], |es| - 1, codec, publish, markFails)
  }

  lemma TickOnSnoc(st: ProcState, es: seq<OutboxEvent>, e: OutboxEvent, codec: Codec, publish: Publisher, markFails: nat -> bool)
    ensures TickOn(st, es + [e], codec, publish, markFails)
            == StepOn(TickOn(st, es, codec, publish, markFails), e, |es|, codec, publish, markFails)
  {
    assert (es + [e])[..|es|] == es;
  }

  /** `processEvents`: one tick. */
  function Tick(st: ProcState, batchSize: int, codec: Codec, f: TickFaults): ProcState {
    TickOn(st, Fetched(st.db.outbox, batchSize, f.fetchFails), codec, f.publish, f.markFails)
  }

  /** `n` ticks in a row, tick `i` (counting from 0) with the faults `faults(i)`. */
  function Ticks(st: ProcState, n: nat, batchSize: int, codec: Codec, faults: nat -> TickFaults): ProcState
  {
    if n == 0 then st else Tick(Ticks(st, n - 1, batchSize, codec, faults), batchSize, codec, faults(n - 1))
  }

  /** The calls of the loop over a batch are those `Marks` and `Publishes` list; it advances
      the clock once per event and changes no other table. */
  lemma {:induction false} TickOnLog(st: ProcState, es: seq<OutboxEvent>, codec: Codec, publish: Publisher, markFails: nat -> bool)
    ensures var st' := TickOn(st, es, codec, publish, markFails);
            && st'.marks == st.marks + Marks(codec, publish, es)
            && st'.published == st.published + Publishes(codec, es)
            && st'.db == st.db.(outbox := st'.db.outbox, clock := st.db.clock + |es|)
    decreases |es|
  {
    if es == [] {
      assert st.marks + [] == st.marks && st.published + [] == st.published;
    } else {
      var n := |es| - 1;
      TickOnLog(st, es[..n], codec, publish, markFails);
      MarksSnoc(codec, publish, es[..n], es[n]);
      assert es[..n] + [es[n]] == es;
    }
  }

  /** Over a batch the loop makes exactly one repository call per event, for its id and in batch
      order, and at most one `Publish` call per event; the calls only accumulate. An empty
      batch changes nothing. */
  lemma TickOnCalls(st: ProcState, events: seq<OutboxEvent>, codec: Codec, publish: Publisher, markFails: nat -> bool)
    ensures var st' := TickOn(st, events, codec, publish, markFails);
            && |st'.marks| == |st.marks| + |events| && st.marks <= st'.marks
            && (forall k :: 0 <= k < |events| ==> st'.marks[|st.marks| + k].id == events[k].id)
            && st.published <= st'.published && |st'.published| <= |st.published| + |events|
            && (events == [] ==> st' == st)
  {
    var ms := Marks(codec, publish, events);
    TickOnLog(st, events, codec, publish, markFails);
    MarksSpec(codec, publish, events);
    PublishesSpec(codec, events);
    var st' := TickOn(st, events, codec, publish, markFails);
    forall k | 0 <= k < |events| ensures st'.marks[|st.marks| + k].id == events[k].id {
      assert st'.marks[|st.marks| + k] == ms[k];
    }
  }

  /** One pass touches only the rows with its event's id, and those only by the UPDATE of its
      repository call: processed at the current time on success, one retry more and the
      event's own error otherwise; a failed UPDATE leaves the table as it was. */
  lemma StepTable(st: ProcState, e: OutboxEvent, k: nat, codec: Codec, publish: Publisher, markFails: nat -> bool)
    ensures var rows := st.db.outbox;
            var rows' := StepOn(st, e, k, codec, publish, markFails).db.outbox;
            && |rows'| == |rows|
            && (forall i :: 0 <= i < |rows| ==> Progress(rows[i], rows'[i]))
            && (forall i :: 0 <= i < |rows| && rows[i].id != e.id ==> rows'[i] == rows[i])
            && (markFails(k) ==> rows' == rows)
            && (forall i :: 0 <= i < |rows| && rows[i].id == e.id && !markFails(k) ==>
                  && (PublishError(codec, publish, e, k).None? ==>
                        rows'[i] == rows[i].(processedAt := Some(st.db.clock)))
                  && (PublishError(codec, publish, e, k).Some? ==>
                        rows'[i] == rows[i].(retryCount := rows[i].retryCount + 1,
                                             lastError := PublishError(codec, publish, e, k))))
  {
    var rows := st.db.outbox;
    ApplySpec(rows, MarkOp(MarkFor(codec, publish, e, k), st.db.clock));
    if PublishError(codec, publish, e, k).None? {
      MarkProcessedEffect(rows, e.id, st.db.clock);
    } else {
      MarkFailedEffect(rows, e.id, PublishError(codec, publish, e, k).value);
    }
  }

  /** No two events of the batch share an id, as for any rows of a table keyed by `id`. */
  predicate DistinctIds(events: seq<OutboxEvent>) {
    forall a, b :: 0 <= a < b < |events| ==> events[a].id != events[b].id
  }

  /** The loop removes no row, moves none, and undoes no progress: processed rows stay
      processed and retry counts do not go down. Rows outside the batch are not touched. */
  lemma {:induction false} TickOnTable(st: ProcState, events: seq<OutboxEvent>, codec: Codec, publish: Publisher,
                                       markFails: nat -> bool)
    ensures var rows' := TickOn(st, events, codec, publish, markFails).db.outbox;
            && |rows'| == |st.db.outbox|
            && (forall i :: 0 <= i < |st.db.outbox| ==> Progress(st.db.outbox[i], rows'[i]))
            && (forall i :: 0 <= i < |st.db.outbox| && (forall e :: e in events ==> e.id != st.db.outbox[i].id) ==>
                  rows'[i] == st.db.outbox[i])
    decreases |events|
  {
    if events != [] {
      var n := |events| - 1;
      var mid := TickOn(st, events[..n], codec, publish, markFails);
      TickOnTable(st, events[..n], codec, publish, markFails);
      StepTable(mid, events[n], n, codec, publish, markFails);
      ProgressChain(st.db.outbox, mid.db.outbox, TickOn(st, events, codec, publish, markFails).db.outbox);
      forall i | 0 <= i < |st.db.outbox| && (forall e :: e in events ==> e.id != st.db.outbox[i].id)
        ensures TickOn(st, events, codec, publish, markFails).db.outbox[i] == st.db.outbox[i]
      {
        assert events[n] in events;
        forall e | e in events[..n] ensures e.id != st.db.outbox[i].id {
          assert e in events;
        }
      }
    }
  }

  /** When the k-th event of the batch is published and its `MarkProcessed` goes through, every
      row with its id is processed afterwards; when decoding or publishing fails and its
      `MarkFailed` goes through, every such row has at least one retry more and an error
      recorded. When no two events of the batch share an id, the row is exactly its old self
      processed at the time of that event's pass, or with one retry more and that event's
      error. */
  lemma {:induction false} TickOnOutcome(st: ProcState, events: seq<OutboxEvent>, codec: Codec, publish: Publisher,
                                         markFails: nat -> bool, k: nat, i: nat)
    requires k < |events| && !markFails(k)
    requires i < |st.db.outbox| && st.db.outbox[i].id == events[k].id
    ensures var rows' := TickOn(st, events, codec, publish, markFails).db.outbox;
            && i < |rows'|
            && (PublishError(codec, publish, events[k], k).None? ==> rows'[i].processedAt.Some?)
            && (PublishError(codec, publish, events[k], k).Some? ==>
                  rows'[i].retryCount >= st.db.outbox[i].retryCount + 1 && rows'[i].lastError.Some?)
    ensures var rows' := TickOn(st, events, codec, publish, markFails).db.outbox;
            var row := st.db.outbox[i];
            var err := PublishError(codec, publish, events[k], k);
            DistinctIds(events) ==>
              && (err.None? ==> rows'[i] == row.(processedAt := Some(st.db.clock + k)))
              && (err.Some? ==> rows'[i] == row.(retryCount := row.retryCount + 1, lastError := err))
    decreases |events|
  {
    if DistinctIds(events) {
      TickOnRowExact(st, events, codec, publish, markFails, k, i);
    }
    var n := |events| - 1;
    var prefix := events[..n];
    var mid := TickOn(st, prefix, codec, publish, markFails);
    TickOnTable(st, prefix, codec, publish, markFails);
    StepTable(mid, events[n], n, codec, publish, markFails);
    if k < n {
      assert prefix[k] == events[k];
      TickOnOutcome(st, prefix, codec, publish, markFails, k, i);
    }
  }

  /** With distinct ids only the k-th pass touches the row, at the clock of that pass. */
  lemma {:induction false} TickOnRowExact(st: ProcState, events: seq<OutboxEvent>, codec: Codec, publish: Publisher,
                                          markFails: nat -> bool, k: nat, i: nat)
    requires k < |events| && !markFails(k) && DistinctIds(events)
    requires i < |st.db.outbox| && st.db.outbox[i].id == events[k].id
    ensures var rows' := TickOn(st, events, codec, publish, markFails).db.outbox;
            var row := st.db.outbox[i];
            var err := PublishError(codec, publish, events[k], k);
            && i < |rows'|
            && (err.None? ==> rows'[i] == row.(processedAt := Some(st.db.clock + k)))
            && (err.Some? ==> rows'[i] == row.(retryCount := row.retryCount + 1, lastError := err))
    decreases |events|
  {
    var n := |events| - 1;
    var prefix := events[..n];
    if k < n {
      var mid := TickOn(st, prefix, codec, publish, markFails);
      assert prefix[k] == events[k];
      assert DistinctIds(prefix) by {
        forall a, b | 0 <= a < b < |prefix| ensures prefix[a].id != prefix[b].id {
          assert prefix[a] == events[a] && prefix[b] == events[b];
        }
      }
      TickOnRowExact(st, prefix, codec, publish, markFails, k, i);
      assert TickOn(st, events, codec, publish, markFails) == StepOn(mid, events[n], n, codec, publish, markFails);
      assert events[n].id != events[k].id;
      StepTable(mid, events[n], n, codec, publish, markFails);
    } else {
      TickOnRowLast(st, events, codec, publish, markFails, i);
    }
  }

  /** The last pass of a batch whose earlier events all have other ids. */
  lemma TickOnRowLast(st: ProcState, events: seq<OutboxEvent>, codec: Codec, publish: Publisher,
                      markFails: nat -> bool, i: nat)
    requires |events| > 0 && !markFails(|events| - 1) && DistinctIds(events)
    requires i < |st.db.outbox| && st.db.outbox[i].id == events[|events| - 1].id
    ensures var n := |events| - 1;
            var rows' := TickOn(st, events, codec, publish, markFails).db.outbox;
            var row := st.db.outbox[i];
            var err := PublishError(codec, publish, events[n], n);
            && i < |rows'|
            && (err.None? ==> rows'[i] == row.(processedAt := Some(st.db.clock + n)))
            && (err.Some? ==> rows'[i] == row.(retryCount := row.retryCount + 1, lastError := err))
  {
    var n := |events| - 1;
    var prefix := events[..n];
    var mid := TickOn(st, prefix, codec, publish, markFails);
    var row := st.db.outbox[i];
    assert i < |mid.db.outbox| && mid.db.outbox[i] == row by {
      forall e | e in prefix ensures e.id != row.id {
        var j :| 0 <= j < n && prefix[j] == e;
        assert events[j] == e;
      }
      TickOnTable(st, prefix, codec, publish, markFails);
    }
    assert mid.db.clock == st.db.clock + n by {
      TickOnLog(st, prefix, codec, publish, markFails);
    }
    assert TickOn(st, events, codec, publish, markFails) == StepOn(mid, events[n], n, codec, publish, markFails);
    StepTable(mid, events[n], n, codec, publish, markFails);
  }

  /** A tick whose fetch fails makes no call and changes nothing; otherwise its batch is the
      oldest waiting rows, at most `batchSize` of them. */
  lemma TickFetch(st: ProcState, batchSize: int, codec: Codec, f: TickFaults)
    ensures f.fetchFails ==> Tick(st, batchSize, codec, f) == st
    ensures !f.fetchFails && batchSize >= 0 ==> Fetched(st.db.outbox, batchSize, f.fetchFails) == Unprocessed(st.db.outbox, batchSize)
    ensures OldestFirst(Fetched(st.db.outbox, batchSize, f.fetchFails))
  {
    if f.fetchFails {
      TickOnCalls(st, [], codec, f.publish, f.markFails);
    } else if batchSize >= 0 {
      UnprocessedOldestFirst(st.db.outbox, batchSize);
    }
  }

  /** A tick removes and moves no row, and every row makes progress. */
  lemma TickProgress(st: ProcState, batchSize: int, codec: Codec, f: TickFaults)
    ensures var rows' := Tick(st, batchSize, codec, f).db.outbox;
            && |rows'| == |st.db.outbox|
            && (forall i :: 0 <= i < |st.db.outbox| ==> Progress(st.db.outbox[i], rows'[i]))
  {
    TickOnTable(st, Fetched(st.db.outbox, batchSize, f.fetchFails), codec, f.publish, f.markFails);
  }

  /** Over any number of ticks no row is removed or moved and every row makes progress, so a row
      once processed, or out of retries, is never fetched again. */
  lemma {:induction false} TicksProgress(st: ProcState, n: nat, batchSize: int, codec: Codec,
                                         faults: nat -> TickFaults)
    ensures var rows' := Ticks(st, n, batchSize, codec, faults).db.outbox;
            && |rows'| == |st.db.outbox|
            && (forall i :: 0 <= i < |st.db.outbox| ==> Progress(st.db.outbox[i], rows'[i]))
  {
    if n > 0 {
      var prev := Ticks(st, n - 1, batchSize, codec, faults);
      TicksProgress(st, n - 1, batchSize, codec, faults);
      TickProgress(prev, batchSize, codec, faults(n - 1));
      ProgressChain(st.db.outbox, prev.db.outbox, Tick(prev, batchSize, codec, faults(n - 1)).db.outbox);
    }
  }

  /** Progress composes. */
  lemma ProgressChain(a: seq<OutboxEvent>, b: seq<OutboxEvent>, c: seq<OutboxEvent>)
    requires |a| == |b| == |c|
    requires forall i :: 0 <= i < |a| ==> Progress(a[i], b[i])
    requires forall i :: 0 <= i < |b| ==> Progress(b[i], c[i])
    ensures forall i :: 0 <= i < |a| ==> Progress(a[i], c[i])
  {
  }


  /** The outbox processor. `marks` and `published` record its repository calls and its calls
      to the event bus; how the bus answers comes with each tick (`TickFaults.publish`). */
  class Processor {
    const repo: Repository
    const codec: Codec
    const batchSize: int
    /** The ticker period, a `time.Duration` in nanoseconds. */
    const interval: int
    var cancelled: bool
    var marks: seq<Mark>
    var published: seq<(string, Value)>

    function State(): ProcState
      reads this, repo.db
    {
      ProcState(repo.db.state, marks, published)
    }

    /** `NewProcessor`: a processor whose context is not yet cancelled. */
    constructor (repo: Repository, codec: Codec, interval: int, batchSize: int)
      ensures this.repo == repo && this.codec == codec && this.interval == interval && this.batchSize == batchSize
      ensures !cancelled && marks == [] && published == []
    {
      this.repo := repo;
      this.codec := codec;
      this.interval := interval;
      this.batchSize := batchSize;
      cancelled := false;
      marks := [];
      published := [];
    }

    /** `publishEvent` for the k-th event of the batch, against the bus's answers `publish`. */
    method PublishEvent(e: OutboxEvent, k: nat, publish: Publisher) returns (err: Option<string>)
      modifies this
      ensures err == PublishError(codec, publish, e, k)
      ensures published == old(published) + PublishOf(codec, e)
      ensures marks == old(marks) && cancelled == old(cancelled)
    {
      var decoded := codec.unmarshalObject(e.payload);
      if decoded.Err? {
        return Some(decoded.error);
      }
      var topic := e.eventType;
      published := published + [(topic, decoded.value)];
      return publish(k, topic, decoded.value);
    }

    /** `processEvents`: fetch a batch, then publish each event in order and mark it failed or
      processed; errors of the marks are ignored. */
    method ProcessEvents(f: TickFaults)
      modifies this, repo.db
      ensures State() == Tick(old(State()), batchSize, codec, f)
      ensures cancelled == old(cancelled)
    {
      var fetched := repo.GetUnprocessed(batchSize, f.fetchFails);
      if fetched.Err? {
        return;
      }
      RunBatch(fetched.value, f.publish, f.markFails);
    }

    /** The loop of `processEvents` over a fetched batch. */
    method RunBatch(events: seq<OutboxEvent>, publish: Publisher, markFails: nat -> bool)
      modifies this, repo.db
      ensures State() == TickOn(old(State()), events, codec, publish, markFails)
      ensures cancelled == old(cancelled)
    {
      ghost var st0 := State();
      var k := 0;
      while k < |events|
        invariant 0 <= k <= |events|
        invariant State() == TickOn(st0, events[..k], codec, publish, markFails)
        invariant cancelled == old(cancelled)
      {
        ProcessEvent(events[k], k, publish, markFails);
        assert events[..k + 1] == events[..k] + [events[k]];
        TickOnSnoc(st0, events[..k], events[k], codec, publish, markFails);
        k := k + 1;
      }
      assert events[..k] == events;
    }

    /** One pass of the loop of `processEvents`: publish the event, then mark it failed with the
      error, or processed; the mark's own error is ignored. */
    method ProcessEvent(e: OutboxEvent, k: nat, publish: Publisher, markFails: nat -> bool)
      modifies this, repo.db
      ensures State() == StepOn(old(State()), e, k, codec, publish, markFails)
      ensures cancelled == old(cancelled)
    {
      var err := PublishEvent(e, k, publish);
      var ignored;
      if err.Some? {
        ignored := repo.MarkFailed(e.id, err.value, markFails(k));
        marks := marks + [MarkedFailed(e.id, err.value)];
      } else {
        ignored := repo.MarkProcessed(e.id, markFails(k));
        marks := marks + [MarkedProcessed(e.id)];
      }
    }

    /** `Start`: one tick per timer fire until the context is done. `ticks` is the number of
      fires before that; when `Stop` came first the context is already done and no tick runs.
      `time.NewTicker` panics on a non-positive interval before anything else happens. */
    method Start(ticks: nat, faults: nat -> TickFaults) returns (panicked: bool)
      modifies this, repo.db
      ensures panicked <==> interval <= 0
      ensures panicked ==> State() == old(State())
      ensures !panicked ==> State() == Ticks(old(State()), if old(cancelled) then 0 else ticks, batchSize, codec, faults)
      ensures cancelled == old(cancelled)
    {
      if interval <= 0 {
        return true;
      }
      panicked := false;
      if cancelled {
        return;
      }
      ghost var st0 := State();
      var t := 0;
      while t < ticks
        invariant t <= ticks && cancelled == old(cancelled)
        invariant State() == Ticks(st0, t, batchSize, codec, faults)
      {
        ghost var before := State();
        ProcessEvents(faults(t));
        assert Ticks(st0, t + 1, batchSize, codec, faults) == Tick(before, batchSize, codec, faults(t));
        t := t + 1;
      }
    }

    /** `Stop`: cancels the context. */
    method Stop()
      modifies this
      ensures cancelled && State() == old(State())
    {
      cancelled := true;
    }
  }
}
