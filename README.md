# Event delivery in the modular-monolith template

This project models the event-delivery path of the Go template in Dafny, and proves properties of
the model. Events travel this path:

- The task service stores a task assignment and a `task_assigned_stream` event. Both go into
  one PostgreSQL transaction, into the assignment table and the transactional outbox table.
- The outbox processor polls the table, publishes each event on the Redis-stream event bus, and
  marks it processed or failed.
- The bus delivers stream entries to a handler through a consumer group. It acknowledges each
  entry, retries a failed handler with a growing back-off, and moves entries that keep failing
  to a dead-letter stream.
- An asynchronous worker pool can publish through the bus instead.
- Around the services sit:
  - the HTTP authentication and timeout middleware;
  - the JSON response envelope helpers;
  - the logger, which copies every entry into a `system_logs` table and marks create, update
    and delete actions as permanent.

One module per source file:

| module | models |
|---|---|
| `Base` | Option, Result and the JSON values; the JSON library as an oracle (`Codec`) |
| `TaskDomain` | task, assignment and activity rows; the `TaskAssignedEvent` |
| `OutboxTable` | the `outbox_events` table and the SQL of the outbox repository |
| `Storage` | the database: committed tables, `NOW()`, and transactions as staged writes |
| `Outbox` | the outbox repository and the polling processor |
| `EventBus` | Redis streams, the consumer group, and the bus's publish and delivery |
| `WorkerPool` | the bounded job queue and its workers |
| `TaskService` | `CreateTask` and `AssignTask` |
| `Utils` | the response envelope, `ReturnError`'s status mapping, and the context user name |
| `Middleware` | `AuthMiddleware` and `TimeoutMiddleware` |
| `Logger` | the zap logger with its database copy, and the request-logging middleware |

How the model is built:

- **Objects whose fields change are classes.** These are the database, the transaction, the
  repositories, the processor, the bus, the pool, the service, the response writer and the
  logger. Each method ties its new state to a pure function of the old state, and the lemmas
  prove what the code promises about those functions.
- **External results are parameters.** Random ids (`uuid.New`), the outcome of each database or
  Redis call, and each handler's answer are inputs to the model. The bus's answer to the
  processor is given per tick and batch position, and the subscriber's answers per stream entry,
  so the same payload can fail once and succeed later. Time is a clock in the
  database that every statement advances.
- **Panics are explicit outcomes.** The model returns an outcome for each of these:
  - `uuid.MustParse` on a malformed id;
  - the nil task dereferenced in `AssignTask`;
  - the type assertion on an entry without `event_data`;
  - a send on the closed job queue.

## Model

| member | source | states |
|---|---|---|
| OutboxTable.NewRow | internal/infrastructure/outbox/repository.go:39-58 | the inserted row carries the caller's aggregate type, aggregate id, event type and payload, the database's id and time, and is unprocessed with no retries and no error |
| OutboxTable.EligibleRowsSpec | internal/infrastructure/outbox/repository.go:65 | the WHERE clause keeps exactly the unprocessed rows with fewer than 5 retries, each exactly as often as the table holds it, and no other row |
| OutboxTable.EligibleRowsAppend | internal/infrastructure/outbox/repository.go:65 | the WHERE clause keeps table order: the eligible rows of a table cut in two are those of the first part followed by those of the second |
| OutboxTable.SortByAge | internal/infrastructure/outbox/repository.go:66 | the ORDER BY returns a permutation of its input: the same rows, each as often |
| OutboxTable.SortByAgeSorted | internal/infrastructure/outbox/repository.go:66 | the ORDER BY puts the rows oldest first |
| OutboxTable.UnprocessedSize | internal/infrastructure/outbox/repository.go:60-73 | GetUnprocessed returns at most `limit` rows, and fewer only when fewer rows are eligible |
| OutboxTable.UnprocessedIsPrefix | internal/infrastructure/outbox/repository.go:66-67 | the LIMIT keeps a prefix of the sorted eligible rows |
| OutboxTable.UnprocessedEligible | internal/infrastructure/outbox/repository.go:65 | every returned row is a row of the table that is unprocessed and below the retry ceiling |
| OutboxTable.UnprocessedOldestFirst | internal/infrastructure/outbox/repository.go:66-67 | the returned rows are oldest first, and no eligible row left out is older than a returned one |
| OutboxTable.ApplySpec | internal/infrastructure/outbox/repository.go:75-89 | an UPDATE by id changes the matching rows in place; an INSERT appends its row last |
| OutboxTable.MarkProcessedEffect | internal/infrastructure/outbox/repository.go:75-79 | MarkProcessed sets processed_at on the rows with that id and changes nothing else; an unknown id changes nothing |
| OutboxTable.MarkFailedEffect | internal/infrastructure/outbox/repository.go:81-89 | MarkFailed adds exactly one to the retry count and overwrites last_error on the rows with that id, and changes nothing else |
| OutboxTable.ApplyUpdates | internal/infrastructure/outbox/repository.go:75-89 | after any sequence of UPDATEs a row's retry count has grown once per failure recorded against its id, and processed_at and last_error hold the last values written |
| OutboxTable.ApplyAllProgress | internal/infrastructure/outbox/repository.go:39-89 | no operation removes or moves a row, a processed row stays processed, and retry counts never go down |
| OutboxTable.RetiredNeverReturns | internal/infrastructure/outbox/repository.go:60-89 | a row that is processed, or has used up its retries, is never again returned by GetUnprocessed, whatever operations follow |
| Storage.CommitEffect | internal/modules/task/service/service.go:239-242 | a commit appends exactly the staged outbox rows and assignments, in staging order, and leaves every other table alone |
| Storage.Database.Begin | internal/modules/task/repository/pg_repository.go:20-22 | BeginTx either fails, or yields an active transaction with nothing staged whose NOW() is the current time |
| Storage.Database.InsertTask | internal/modules/task/repository/pg_repository.go:24-32 | the autocommit INSERT into tasks appends the row unless it fails, and touches no other table |
| Storage.Database.InsertActivity | internal/modules/task/service/service.go:78-85 | the autocommit INSERT into activities appends the row unless it fails |
| Storage.Tx.Exec | internal/modules/task/service/service.go:170-176 | a statement run through an active transaction is staged, not visible; a failed statement aborts the transaction; an aborted transaction refuses statements with the server's error, and a done one with ErrTxDone |
| Storage.Tx.Commit | internal/modules/task/service/service.go:239-242 | Commit publishes every staged write at once, or on failure none of them, and ends the transaction; an aborted transaction is rolled back instead, with the driver's error |
| Storage.Tx.Rollback | internal/modules/task/service/service.go:161 | Rollback discards the staged writes, also those of an aborted transaction, never changes the database, and after the end of the transaction only reports ErrTxDone |
| Outbox.Repository.Create | internal/infrastructure/outbox/repository.go:39-58 | Create runs the INSERT in the caller's transaction when there is one, and as an autocommit statement otherwise; on success the assigned id and time are written back into the event; a failed INSERT aborts the caller's transaction |
| Outbox.Repository.GetUnprocessed | internal/infrastructure/outbox/repository.go:60-73 | GetUnprocessed returns the rows the WHERE, ORDER BY and LIMIT select, and a negative limit is an error |
| Outbox.Repository.MarkProcessed | internal/infrastructure/outbox/repository.go:75-79 | MarkProcessed applies its UPDATE with the current time unless the statement fails |
| Outbox.Repository.MarkFailed | internal/infrastructure/outbox/repository.go:81-89 | MarkFailed applies its UPDATE with the error text unless the statement fails |
| Outbox.CreatedRowIsFetched | internal/infrastructure/outbox/repository.go:39-73 | a row Create stores is fetched by the next GetUnprocessed whose limit leaves room for it beside the rows already waiting |
| Outbox.PublishError | internal/infrastructure/outbox/processor.go:78-86 | publishEvent fails with the decoder's error when the payload is not a JSON object, and otherwise publishes it on the topic named by the event type, with the bus's answer for that tick and batch position |
| Outbox.MarksSpec | internal/infrastructure/outbox/processor.go:67-75 | the loop makes one repository call per event, in batch order: MarkFailed with the decoder's or the bus's error, MarkProcessed on success |
| Outbox.PublishesSpec | internal/infrastructure/outbox/processor.go:67-75 | exactly the events whose payload decodes are published, each on its event type's topic with the decoded object, in batch order |
| Outbox.TickOnLog | internal/infrastructure/outbox/processor.go:67-75 | the calls of the loop over a batch are those MarksSpec and PublishesSpec list; the clock moves once per event and no other table changes |
| Outbox.TickOnCalls | internal/infrastructure/outbox/processor.go:54-76 | one repository call per event, for its id and in batch order, at most one Publish per event; an empty batch makes no call |
| Outbox.StepTable | internal/infrastructure/outbox/processor.go:68-74 | handling one event touches only the rows with its id: on success they get processed_at set to the current time, otherwise exactly one more retry and the event's own error, and nothing else changes; a failed UPDATE leaves the table as it was |
| Outbox.TickOnTable | internal/infrastructure/outbox/processor.go:67-75 | the loop removes and moves no row, undoes no progress, and leaves rows outside the batch untouched |
| Outbox.TickOnOutcome | internal/infrastructure/outbox/processor.go:67-75 | a published event whose MarkProcessed goes through is processed afterwards; a failed one whose MarkFailed goes through has at least one more retry and an error; when the batch's ids are distinct (id is the primary key), the row is exactly its old self with processed_at set to the time of that event's pass, or with exactly one more retry and that event's own error |
| Outbox.TickFetch | internal/infrastructure/outbox/processor.go:54-63 | a tick whose fetch fails makes no call and changes nothing; otherwise its batch is the oldest waiting rows, at most batchSize of them |
| Outbox.TickProgress | internal/infrastructure/outbox/processor.go:54-76 | a tick removes and moves no row, and every row makes progress |
| Outbox.TicksProgress | internal/infrastructure/outbox/processor.go:39-48 | over any number of ticks no row is removed or moved, so an event once processed, or out of retries, is never fetched again |
| Outbox.Processor.constructor | internal/infrastructure/outbox/processor.go:21-31 | a new processor has its repository, codec, interval and batch size, an uncancelled context and no calls yet |
| Outbox.Processor.PublishEvent | internal/infrastructure/outbox/processor.go:78-86 | the error is PublishError's, and the bus is called exactly when the payload decodes |
| Outbox.Processor.ProcessEvents | internal/infrastructure/outbox/processor.go:54-76 | one tick: the fetch, then the loop, with the state TickOn gives |
| Outbox.Processor.RunBatch | internal/infrastructure/outbox/processor.go:67-75 | the loop over a fetched batch ends in the state TickOn gives |
| Outbox.Processor.ProcessEvent | internal/infrastructure/outbox/processor.go:68-74 | one event: publish, then MarkFailed with the error or MarkProcessed, ignoring the mark's own error |
| Outbox.Processor.Start | internal/infrastructure/outbox/processor.go:33-48 | a non-positive interval makes the ticker panic before any tick, with nothing changed; otherwise one tick per timer fire until the context is done, and no tick after Stop |
| Outbox.Processor.Stop | internal/infrastructure/outbox/processor.go:50-52 | Stop cancels the context and changes nothing else |
| EventBus.StoreValid | internal/infrastructure/eventbus/redis.go:94-100 | stream ids increase; a group's pending entries are in id order and older than everything it has not delivered |
| EventBus.ReadNewEffect | internal/infrastructure/eventbus/redis.go:94-100 | a ">" read delivers the next min(count, undelivered) entries in order, appends them to the pending entries and moves the delivered position past them |
| EventBus.EnsureGroup | internal/infrastructure/eventbus/redis.go:78 | XGROUP CREATE with MKSTREAM creates a missing stream and group from id 0, and leaves an existing group as it is |
| EventBus.PublishOutcome | internal/infrastructure/eventbus/redis.go:65-75 | Publish fails with "marshal error: " and the encoder's text when the payload does not marshal, and otherwise appends the envelope or reports the transport's error |
| EventBus.PublishEnvelope | internal/infrastructure/eventbus/redis.go:65-75 | an appended entry has exactly one field, event_data, holding the marshalled payload; a payload that does not marshal appends nothing |
| EventBus.PublishThenRead | internal/infrastructure/eventbus/redis.go:65-100 | on a group that has delivered everything, the next ">" read after Publish returns exactly the new entry, with the marshalled payload |
| EventBus.FirstRetrySuccessSpec | internal/infrastructure/eventbus/redis.go:131-138 | the retry loop stops at the first retry that succeeds, and finds none exactly when every retry fails |
| EventBus.DeliveryBounds | internal/infrastructure/eventbus/redis.go:121-138 | the handler runs at least once and at most 1 + MaxRetries = 4 times, and retry k is preceded by a wait of k seconds |
| EventBus.DeliveryDlqIffAllFailed | internal/infrastructure/eventbus/redis.go:121-142 | an entry is dead-lettered exactly when every handler call made failed; otherwise the last call is the first that succeeded |
| EventBus.DeliveryCases | internal/infrastructure/eventbus/redis.go:121-142 | a succeeding first call is the only call; a failed pending lookup skips the retries; an always-failing handler is called four times |
| EventBus.SettleEffect | internal/infrastructure/eventbus/redis.go:141-158 | settling leaves the origin stream alone and removes exactly the entry from the consumer's pending entries |
| EventBus.FailedDlqWriteLosesEntry | internal/infrastructure/eventbus/redis.go:141-158 | when every call failed and the dead-letter XADD fails, the entry is acknowledged anyway and is neither pending nor in the dead-letter stream |
| EventBus.WorkerName | internal/infrastructure/eventbus/redis.go:50-54 | the consumer name is the host name, "-" and the pid, with "unknown" for an empty host name |
| EventBus.BatchTraceAcks | internal/infrastructure/eventbus/redis.go:111-113 | entries that carry event_data are acknowledged once each, in order |
| EventBus.BatchTraceCalls | internal/infrastructure/eventbus/redis.go:118-143 | each handled entry gets between 1 and 1 + MaxRetries handler calls, and one wait per call after the first |
| EventBus.DecodableSpec | internal/infrastructure/eventbus/redis.go:119 | the entries handled before a crash are exactly those up to the first entry without event_data |
| EventBus.SettleAllPending | internal/infrastructure/eventbus/redis.go:181-184 | settling a run of consecutive pending entries, in order, removes exactly them from the pending entries |
| EventBus.PendingReplayPrefix | internal/infrastructure/eventbus/redis.go:160-192 | the replay handles a prefix of the consumer's pending entries in id order, exactly the rest stay pending, and each handled entry is acknowledged once |
| EventBus.PendingReplayStops | internal/infrastructure/eventbus/redis.go:172-188 | the replay stops on a failed read, on an entry without event_data, or when a read returns fewer than 50 entries |
| EventBus.PendingReplayValid | internal/infrastructure/eventbus/redis.go:160-192 | the replay keeps the store valid, and leaves the stream, the group and its delivered position alone |
| EventBus.ListenFromEffect | internal/infrastructure/eventbus/redis.go:88-115 | the read loop handles the stream's undelivered entries in stream order, each once |
| EventBus.ListenFromRounds | internal/infrastructure/eventbus/redis.go:88-115 | the loop runs one round per iteration until the context is done or an entry crashes; a round fails exactly when its read fails or the group is missing |
| EventBus.ListenTraceAcks | internal/infrastructure/eventbus/redis.go:102-113 | the loop's acknowledgements are those of the handled entries, once each and in order, and a failed read waits one second and acknowledges nothing |
| EventBus.ListenAllValid | internal/infrastructure/eventbus/redis.go:83-116 | listenLoop keeps the store valid, leaves the stream and the group's existence alone, and hands the handler only entries that carry event_data |
| EventBus.ListenAllOrder | internal/infrastructure/eventbus/redis.go:83-116 | listenLoop handles each entry delivered to this consumer once and in order: a prefix of the earlier pending entries, then the undelivered entries in stream order |
| EventBus.ListenAllAcks | internal/infrastructure/eventbus/redis.go:83-116 | listenLoop acknowledges the entries it handled, once each and in order: the replayed ones, then those of the read loop |
| EventBus.SubscribeRounds | internal/infrastructure/eventbus/redis.go:77-81 | once Subscribe has ensured the group, a round fails only when its read fails, and without a crash every round runs |
| EventBus.RedisBus.constructor | internal/infrastructure/eventbus/redis.go:34-63 | a new bus holds the group name and the worker name WorkerName gives, and has made no calls |
| EventBus.RedisBus.Publish | internal/infrastructure/eventbus/redis.go:65-75 | the store and the error are those PublishOutcome gives |
| EventBus.RedisBus.Ack | internal/infrastructure/eventbus/redis.go:123 | XACK removes the entry from the consumer's pending entries and records the acknowledgement |
| EventBus.RedisBus.MoveToDLQ | internal/infrastructure/eventbus/redis.go:145-158 | copies the entry's fields to topic + "_dlq" unless the XADD fails, which is only logged |
| EventBus.RedisBus.HandleMessage | internal/infrastructure/eventbus/redis.go:118-143 | an entry without event_data crashes before anything happens; otherwise the calls, waits, dead-lettering and acknowledgement are those Deliver and Settle give |
| EventBus.RedisBus.Retry | internal/infrastructure/eventbus/redis.go:131-138 | waits k seconds before retry k and stops at the first retry that succeeds |
| EventBus.RedisBus.HandleBatch | internal/infrastructure/eventbus/redis.go:111-113 | the entries of a read are handled in order until one crashes |
| EventBus.RedisBus.ProcessPendingMessages | internal/infrastructure/eventbus/redis.go:160-192 | the store and trace after the replay are those of PendingReplay |
| EventBus.RedisBus.ListenLoop | internal/infrastructure/eventbus/redis.go:83-116 | the pending replay, then, unless it crashed, the read loop |
| EventBus.RedisBus.ReadLoop | internal/infrastructure/eventbus/redis.go:88-115 | `rounds` rounds of ">" reads whose entries are handled in order; a failed read waits one second |
| EventBus.RedisBus.Subscribe | internal/infrastructure/eventbus/redis.go:77-81 | ensures the group exists (ignoring the error for an existing one), then runs listenLoop |
| WorkerPool.StepFifo | internal/infrastructure/eventbus/worker_pool.go:53-68 | every send and receive keeps at most queueSize jobs waiting and keeps the taken jobs followed by the waiting ones equal to the accepted jobs |
| WorkerPool.RunFifo | internal/infrastructure/eventbus/worker_pool.go:53-68 | over any sequence of sends and receives, the jobs come out in the order they went in and the queue stays within capacity |
| WorkerPool.PublishJobsOnce | internal/infrastructure/eventbus/worker_pool.go:53-57 | each job is published at most once: n jobs add at most n stream entries, and exactly n when every publish succeeds |
| WorkerPool.Pool.constructor | internal/infrastructure/eventbus/worker_pool.go:23-36 | an empty queue of capacity queueSize, and one started worker per requested worker |
| WorkerPool.Pool.Start | internal/infrastructure/eventbus/worker_pool.go:38-43 | one WaitGroup entry and one worker per iteration |
| WorkerPool.Pool.PublishAsync | internal/infrastructure/eventbus/worker_pool.go:61-68 | never blocks: the job is queued when there is room, refused with "event queue is full" otherwise, and a closed queue panics |
| WorkerPool.Pool.WorkerStep | internal/infrastructure/eventbus/worker_pool.go:45-59 | a cancelled worker exits; otherwise it takes the oldest job, if any, and publishes it once, only logging an error |
| WorkerPool.Pool.Work | internal/infrastructure/eventbus/worker_pool.go:48-58 | every waiting job, oldest first, is published once |
| WorkerPool.Pool.Shutdown | internal/infrastructure/eventbus/worker_pool.go:70-76 | cancels the context, waits for every worker, and closes the queue without draining it; a second Shutdown panics |
| TaskService.CreateTaskSpec | internal/modules/task/service/service.go:54-94 | CreateTask succeeds exactly when the task insert does; the task is "todo" with the given title, its creator is the value uuid.Parse returns for the context's user id, its error ignored, when that value is not Nil (a failed parse can leave a non-nil partial id), and a fresh id otherwise; the activity error is ignored |
| TaskService.FindTask | internal/modules/task/repository/pg_repository.go:34-45 | GetByID returns a task with that id from the table, and nil without an error exactly when there is none |
| TaskService.CommitPair | internal/modules/task/service/service.go:231-242 | committing the staged assignment and outbox row appends one row to each table |
| TaskService.StageEventCommits | internal/modules/task/service/service.go:187-242 | from the user lookup on, the transaction either commits the assignment with one outbox row, or leaves both tables as they were |
| TaskService.AssignAtomic | internal/modules/task/service/service.go:155-252 | the assignment and its outbox event are committed together or not at all; the tasks table never changes |
| TaskService.AssignedRow | internal/modules/task/service/service.go:187-237 | the committed outbox row is aggregate "task" with the task id, on topic task_assigned_stream, unprocessed, and holds the marshalled event with the "Unknown" user and "Unknown Task" title fallbacks |
| TaskService.AssignActivity | internal/modules/task/service/service.go:178-185 | the activity row is written outside the transaction whenever the assignment was staged and the insert succeeds, whatever happens after |
| TaskService.AssignPanics | internal/modules/task/service/service.go:163-216 | AssignTask panics exactly when an id does not parse, or the task lookup succeeds and finds no task |
| TaskService.AssignedEventIsFetched | internal/modules/task/service/service.go:224-242 | a committed event is fetched by the next GetUnprocessed whose limit leaves room for it |
| TaskService.TaskService.CreateTask | internal/modules/task/service/service.go:54-94 | the result and the new database are those CreateSpec gives |
| TaskService.TaskService.AssignTask | internal/modules/task/service/service.go:155-252 | the result and the new database are those AssignSpec gives, after the deferred rollback |
| TaskService.TaskService.InTx | internal/modules/task/service/service.go:163-242 | the body inside the transaction ends as InTxSpec gives |
| TaskService.TaskService.StageEvent | internal/modules/task/service/service.go:187-242 | the user and task lookups, the event and the commit end as StageEventSpec gives |
| Utils.StatusFor | internal/common/utils/utils.go:84-96 | 400 exactly for VALIDATION_ERROR and BAD_REQUEST, 401 for UNAUTHORIZED, 403 for FORBIDDEN, 404 for NOT_FOUND, and 500 exactly for every other code |
| Utils.SuccessResponse | internal/common/utils/utils.go:47-55 | a successful envelope with the data and message, no error and the current timestamp |
| Utils.ErrorResponse | internal/common/utils/utils.go:57-68 | a failed envelope with no data, the message, and the code and details as its error |
| Utils.UsernameFromContext | internal/common/utils/utils.go:74-81 | the string under the user name key, or "unknown" when there is no context, no value or a non-string |
| Utils.ResponseWriter.Return | internal/common/utils/utils.go:41-45 | sets the JSON content type, then writes the status and the envelope |
| Utils.ResponseWriter.WriteJson | internal/common/utils/utils.go:33-39 | writes the status and a success envelope |
| Utils.ResponseWriter.ReturnError | internal/common/utils/utils.go:83-100 | writes StatusFor(code) and the error envelope |
| Middleware.SplitJoin | internal/infrastructure/middleware/middleware.go:53 | joining the pieces of strings.Split with the separator gives the header back |
| Middleware.JoinSplit | internal/infrastructure/middleware/middleware.go:53 | splitting undoes joining pieces that do not contain the separator |
| Middleware.BearerShape | internal/infrastructure/middleware/middleware.go:53-59 | a header splits into two pieces, the first "Bearer", exactly when it is "Bearer", one space and a token without spaces, and the token is the second piece |
| Middleware.AuthDecision | internal/infrastructure/middleware/middleware.go:39-70 | a request reaches the handler exactly when its path is public or it has a well-formed bearer token the parser accepts; a refusal is 401 UNAUTHORIZED, with details saying which check failed |
| Middleware.AuthContext | internal/infrastructure/middleware/middleware.go:72-75 | an accepted request goes on unchanged except for its context, which gains the role, user name and user id, and GetUsernameFromContext then reads the user name back |
| Middleware.Timeout | internal/infrastructure/middleware/middleware.go:79-86 | the request always goes on, with a deadline 30 seconds from now, or exactly the parent's deadline when that is earlier |
| Logger.ToUpper | internal/infrastructure/logger/logger.go:81 | the upper-cased string has the same length, and each character is its upper case |
| Logger.PermanentAnyCase | internal/infrastructure/logger/logger.go:79-87 | an action holding "create", "update" or "delete" in any mix of cases, anywhere, is permanent |
| Logger.PermanentActions | internal/infrastructure/logger/logger.go:79-87 | TASK_CREATE, USER_CREATE, TASK_STATUS_UPDATE and USER_DELETE are kept permanently |
| Logger.Transient | internal/infrastructure/logger/logger.go:79-87 | an action with no lower-case letter and no "C" or "D" is not kept permanently |
| Logger.TransientActions | internal/infrastructure/logger/logger.go:79-87 | TASK_ASSIGN, TASK_UNASSIGN and HTTP_REQUEST are not kept permanently |
| Logger.MergeError | internal/infrastructure/logger/logger.go:56-62 | the logged details hold the error's text under "error", keep every other key as it was, and gain no other key |
| Logger.ConvertToZapFields | internal/infrastructure/logger/logger.go:135-141 | one field per entry of the map, holding that entry's key and value, in some order |
| Logger.ZapLogger.SaveToDB | internal/infrastructure/logger/logger.go:71-95 | nothing without a database; otherwise one row with the level, message and details, marked permanent by its action, unless the insert fails |
| Logger.ZapLogger.Info | internal/infrastructure/logger/logger.go:49-54 | one console entry with one field per detail, then the database row |
| Logger.ZapLogger.Error | internal/infrastructure/logger/logger.go:56-68 | a nil map is replaced by a fresh one; the error's text is written into the caller's map; then the console entry and the row |
| Logger.ZapLogger.Middleware | internal/infrastructure/logger/logger.go:108-133 | after the handler, the response is passed through unchanged and exactly one console entry is added: info level, "HTTP Request", with the method, path, status (the last one written, 200 if none), duration and client address; its database row is never permanent |
| Logger.RequestNotPermanent | internal/infrastructure/logger/logger.go:121-131 | request log lines are never kept permanently |
| Logger.StatusRecorder.constructor | internal/infrastructure/logger/logger.go:112-115 | the recorded status starts at 200 |
| Logger.StatusRecorder.WriteHeader | internal/infrastructure/logger/logger.go:102-105 | records the status and passes it on to the wrapped writer |
| Logger.StatusRecorder.Serve | internal/infrastructure/logger/logger.go:117 | the recorder reports the last status the handler wrote, or the earlier one when it wrote none |

## Left out

- Concurrency is not modelled. This covers the goroutines of `Subscribe`, the pool's workers and `saveToDB`, and `select`'s random choice. Each is modelled as sequential calls, in an order the caller picks.
- Contexts and timers become counts. Context cancellation is a number of rounds or ticks, the processor's ticker is a number of fires, and `time.Sleep` is a recorded wait.
- `redisBus.Close` is not modelled. It cancels only the bus's own context, which no loop watches, and closes the client connection.
- `NewRedisBus`'s address check and `Ping` end in `log.Fatal`. The model starts from a connected bus.
- An entry without an `event_data` field makes the type assertion at `internal/infrastructure/eventbus/redis.go:119` panic. The model ends the run there: the entry is neither handled nor acknowledged, and the entries before it keep their effects.
- JSON encoding and decoding, `uuid.Parse`, JWT parsing and zap are oracles:
  - JSON is the total functions of `Base.Codec`;
  - JWT parsing is `Middleware.TokenParser`;
  - the zap console output is a list of entries.
- The RFC 3339 timestamps of the envelope are a parameter. So is the JSON text of the logged details.
- Log output through `log.Printf` and `fmt.Printf` is left out. It changes no state.
- Logger.ToUpper: upper-cases ASCII letters only. Go's `strings.ToUpper` also maps non-ASCII letters, and two of them become ASCII: 'ı' becomes 'I' and 'ſ' becomes 'S'. Neither letter occurs in CREATE, UPDATE or DELETE, and no other non-ASCII letter upper-cases to an ASCII one, so the permanence decision is the same.
- Logger.ZapLogger.Middleware: `duration` and `duration_ms` are given whole milliseconds. Go formats a floating-point value.
- Utils.ResponseWriter.WriteHeader: every `WriteHeader` call is recorded in order. net/http's rule that the first call wins is not modelled.
- WorkerPool.Pool.constructor: `queueSize` is a natural number. A negative size makes `make` panic, and that case is not modelled.
- OutboxTable.SortByAge: rows with equal `created_at` come out in one fixed order, that of the insertion sort. PostgreSQL leaves their order unspecified, so when LIMIT cuts through such rows, which of them are fetched is unspecified too. UnprocessedIsPrefix, TickFetch and the rest of the processor's lemmas are stated for that one order.
- Middleware.AuthDecision: the JWT key is left out with the rest of token parsing. `jwt.ParseWithClaims` asks its key function for the key (`internal/infrastructure/middleware/middleware.go:62-64`), and that calls `getJWTKey`. When `JWT_SECRET` is unset, `getJWTKey` ends the process with `log.Fatal` the first time a bearer token gets that far. The model hands every bearer token to `TokenParser` and never stops the process.
- WorkerPool.Pool.PublishAsync: with `queueSize` 0 the model refuses every job with `ErrQueueFull`. Go's unbuffered channel instead hands the job to a worker that is already waiting on it. The workers run as separate steps in the model, so none is ever waiting at the moment of the send.
- EventBus.XAck, EventBus.Settle, EventBus.EnsureGroup: XACK and XGROUP CREATE never fail in the model, and the bus is the only consumer of its group on each stream. So SettleEffect, FailedDlqWriteLosesEntry, PendingReplayPrefix and the order and acknowledgement lemmas of ListenAll do not cover a failed XACK, which leaves an entry pending. Nor do they cover a second consumer in the same group, which would share the stream's new entries.
- Outbox.TickOnCalls: the call counts are stated per tick. No bound over many ticks is stated.
- The processor is modelled as its code defines it. The application never starts it, and that wiring is left out.
- `GetUserIDFromContext` and `UserIDKey` are used by the task service and the middleware, but `internal/common/utils/utils.go` does not define them. The model stores and reads the user id under the key "user_id", next to the two keys it does define.
- The remaining task service operations are not part of this model: `GetTask`, `ListTasks`, `UpdateTaskStatus`, `UnassignTask` and `GetTaskAssignments`. Neither is the logging in `CreateTask` and `AssignTask`, whose output the logger model covers.
- The user provider's `GetUserByID` is an oracle. It either returns a user or fails.
