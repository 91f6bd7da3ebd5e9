// The asynchronous publisher in front of the event bus: a bounded FIFO job queue, filled by a
// non-blocking `PublishAsync` and emptied by workers that publish each job once.

module WorkerPool {
  import opened Base
  import EventBus

  /** The text of `ErrQueueFull`. */
  const ErrQueueFull: string := "event queue is full"

  /** `EventPublishJob`. */
  datatype Job = Job(topic: string, payload: Value)

  /** What `PublishAsync` does: the job is queued (nil error), refused with `ErrQueueFull`, or
      the send hits a closed queue, which panics. */
  datatype Send = Queued | Full | SendOnClosed

  // ---- The queue as a value ----

  /** The queue's contents, with the history a reader needs to state FIFO order: every job ever
      accepted, and every job a worker took, each in order. */
  datatype Queue = Queue(jobs: seq<Job>, accepted: seq<Job>, taken: seq<Job>)

  /** An operation on the queue: a `PublishAsync` send, or a worker receiving. */
  datatype QueueOp = Offer(job: Job) | Take

  /** One operation on a queue of capacity `size`: a send succeeds only when fewer than `size`
      jobs wait, and a receive takes the oldest waiting job (a worker with nothing to take
      keeps waiting, which changes nothing). */
  function Step(q: Queue, op: QueueOp, size: nat): Queue {
    match op
    case Offer(job) =>
      if |q.jobs| < size then q.(jobs := q.jobs + [job], accepted := q.accepted + [job]) else q
    case Take =>
      if q.jobs == [] then q else q.(jobs := q.jobs[1..], taken := q.taken + [q.jobs[0]])
  }

  /** Operations in order. */
  function Run(q: Queue, ops: seq<QueueOp>, size: nat): Queue {
    if ops == [] then q else Step(Run(q, ops[..|ops| - 1], size), ops[|ops| - 1], size)
  }

  /** What the channel guarantees: never more than `size` jobs wait, and the jobs taken followed
      by those still waiting are exactly the jobs accepted, in order. */
  predicate Fifo(q: Queue, size: nat) {
    |q.jobs| <= size && q.taken + q.jobs == q.accepted
  }

  /** Every operation keeps the channel's guarantees. */
  lemma StepFifo(q: Queue, op: QueueOp, size: nat)
    requires Fifo(q, size)
    ensures Fifo(Step(q, op, size), size)
  {
    if op.Offer? && |q.jobs| < size {
      assert q.taken + (q.jobs + [op.job]) == (q.taken + q.jobs) + [op.job];
    } else if op.Take? && q.jobs != [] {
      assert (q.taken + [q.jobs[0]]) + q.jobs[1..] == q.taken + q.jobs;
    }
  }

  /** Over any sequence of sends and receives the queue stays within its capacity, and the jobs
      come out in the order they went in: what the workers took is a prefix of what was accepted. */
  lemma {:induction false} RunFifo(q: Queue, ops: seq<QueueOp>, size: nat)
    requires Fifo(q, size)
    ensures Fifo(Run(q, ops, size), size)
    ensures Run(q, ops, size).taken <= Run(q, ops, size).accepted
  {
    if ops != [] {
      RunFifo(q, ops[..|ops| - 1], size);
      StepFifo(Run(q, ops[..|ops| - 1], size), ops[|ops| - 1], size);
    }
    var r := Run(q, ops, size);
    assert r.accepted[..|r.taken|] == (r.taken + r.jobs)[..|r.taken|];
  }

  // ---- The bus calls the workers make ----

  /** The bus after one `Publish` of the job; a failed publish changes nothing and the job is
      dropped. */
  function PublishJob(s: EventBus.Store, codec: Codec, job: Job, xaddError: Option<string>): EventBus.Store {
    match EventBus.PublishOutcome(codec, job.payload, xaddError)
    case Ok(fields) => EventBus.XAdd(s, job.topic, fields)
    case Err(_) => s
  }

  /** The bus after one `Publish` per job, in order; the k-th publish meets `xaddErrors(k)`. */
  function PublishJobs(s: EventBus.Store, codec: Codec, jobs: seq<Job>, xaddErrors: nat -> Option<string>): EventBus.Store {
    if jobs == [] then s
    else PublishJob(PublishJobs(s, codec, jobs[..|jobs| - 1], xaddErrors), codec, jobs[|jobs| - 1], xaddErrors(|jobs| - 1))
  }

  /** Each job is published at most once: `n` jobs add at most `n` stream entries, and exactly
      `n` when every publish succeeds. */
  lemma {:induction false} PublishJobsOnce(s: EventBus.Store, codec: Codec, jobs: seq<Job>, xaddErrors: nat -> Option<string>)
    ensures s.nextId <= PublishJobs(s, codec, jobs, xaddErrors).nextId <= s.nextId + |jobs|
    ensures (forall k :: 0 <= k < |jobs| ==> EventBus.PublishOutcome(codec, jobs[k].payload, xaddErrors(k)).Ok?)
            ==> PublishJobs(s, codec, jobs, xaddErrors).nextId == s.nextId + |jobs|
  {
    if jobs != [] {
      var init := jobs[..|jobs| - 1];
      PublishJobsOnce(s, codec, init, xaddErrors);
      if forall k :: 0 <= k < |jobs| ==> EventBus.PublishOutcome(codec, jobs[k].payload, xaddErrors(k)).Ok? {
        assert forall k :: 0 <= k < |init| ==> init[k] == jobs[k];
      }
    }
  }

  // ---- The pool ----

  /** `WorkerPool`. `running` is the wait group's counter: workers started and not yet exited.
      `taken` is every job a worker received, so every `Publish` call the pool made. */
  class Pool {
    const bus: EventBus.RedisBus
    const workers: int
    const queueSize: nat
    var jobs: seq<Job>
    var taken: seq<Job>
    ghost var accepted: seq<Job>
    var running: nat
    var cancelled: bool
    var closed: bool

    ghost function Contents(): Queue
      reads this
    {
      Queue(jobs, accepted, taken)
    }

    ghost predicate Valid()
      reads this
    {
      Fifo(Contents(), queueSize)
    }

    /** `NewWorkerPool`: an empty queue of capacity `queueSize` and `workers` started workers
      (none when `workers` is not positive). A negative `queueSize` makes `make` panic, so it
      is a `nat` here. */
    constructor (bus: EventBus.RedisBus, workers: int, queueSize: nat)
      ensures Valid()
      ensures this.bus == bus && this.workers == workers && this.queueSize == queueSize
      ensures jobs == [] && taken == [] && !cancelled && !closed
      ensures running == if workers > 0 then workers else 0
    {
      this.bus := bus;
      this.workers := workers;
      this.queueSize := queueSize;
      jobs := [];
      taken := [];
      accepted := [];
      running := 0;
      cancelled := false;
      closed := false;
      new;
      Start();
    }

    /** `start`: one `wg.Add(1)` and one worker per iteration. */
    method Start()
      modifies this
      ensures running == old(running) + (if workers > 0 then workers else 0)
      ensures jobs == old(jobs) && taken == old(taken) && accepted == old(accepted)
      ensures cancelled == old(cancelled) && closed == old(closed)
    {
      var i := 0;
      while i < workers
        invariant 0 <= i && (i <= workers || i == 0)
        invariant running == old(running) + i
        invariant jobs == old(jobs) && taken == old(taken) && accepted == old(accepted)
        invariant cancelled == old(cancelled) && closed == old(closed)
      {
        running := running + 1;
        i := i + 1;
      }
    }

    /** `PublishAsync`: never blocks. */
    method PublishAsync(topic: string, payload: Value) returns (r: Send)
      requires Valid()
      modifies this
      ensures Valid()
      ensures r == if old(closed) then SendOnClosed else if |old(jobs)| < queueSize then Queued else Full
      ensures r.SendOnClosed? ==> Contents() == old(Contents())
      ensures !r.SendOnClosed? ==> Contents() == Step(old(Contents()), Offer(Job(topic, payload)), queueSize)
      ensures running == old(running) && cancelled == old(cancelled) && closed == old(closed)
    {
      if closed {
        return SendOnClosed;
      }
      if |jobs| < queueSize {
        jobs := jobs + [Job(topic, payload)];
        accepted := accepted + [Job(topic, payload)];
        r := Queued;
      } else {
        r := Full;
      }
      StepFifo(old(Contents()), Offer(Job(topic, payload)), queueSize);
    }

    /** One pass of a worker's loop: once the context is cancelled the worker exits; otherwise it
      receives the oldest job, if any, and publishes it once. A publish error is only logged, so
      the job is dropped. */
    method WorkerStep(xaddError: Option<string>) returns (job: Option<Job>)
      requires Valid()
      modifies this, bus
      ensures Valid()
      ensures job.Some? <==> !cancelled && old(jobs) != []
      ensures job.Some? ==> job.value == old(jobs)[0] && Contents() == Step(old(Contents()), Take, queueSize)
      ensures job.None? ==> Contents() == old(Contents())
      ensures bus.store == if job.Some? then PublishJob(old(bus.store), bus.codec, job.value, xaddError) else old(bus.store)
      ensures bus.acks == old(bus.acks) && bus.sleeps == old(bus.sleeps) && bus.calls == old(bus.calls)
      ensures running == old(running) && cancelled == old(cancelled) && closed == old(closed)
    {
      if cancelled || jobs == [] {
        return None;
      }
      var next := jobs[0];
      StepFifo(Contents(), Take, queueSize);
      jobs := jobs[1..];
      taken := taken + [next];
      var err := bus.Publish(next.topic, next.payload, xaddError);
      job := Some(next);
    }

    /** A worker's loop while jobs are waiting: every waiting job, oldest first, is published
      once, the k-th against the bus outcome `xaddErrors(k)`. */
    method Work(xaddErrors: nat -> Option<string>)
      requires Valid() && !cancelled
      modifies this, bus
      ensures Valid()
      ensures jobs == [] && taken == old(taken) + old(jobs) && accepted == old(accepted)
      ensures bus.store == PublishJobs(old(bus.store), bus.codec, old(jobs), xaddErrors)
      ensures bus.acks == old(bus.acks) && bus.sleeps == old(bus.sleeps) && bus.calls == old(bus.calls)
      ensures running == old(running) && cancelled == old(cancelled) && closed == old(closed)
    {
      var k := 0;
      while jobs != []
        invariant Valid() && !cancelled && k <= |old(jobs)|
        invariant jobs == old(jobs)[k..] && taken == old(taken) + old(jobs)[..k] && accepted == old(accepted)
        invariant bus.store == PublishJobs(old(bus.store), bus.codec, old(jobs)[..k], xaddErrors)
        invariant bus.acks == old(bus.acks) && bus.sleeps == old(bus.sleeps) && bus.calls == old(bus.calls)
        invariant running == old(running) && closed == old(closed)
        decreases |jobs|
      {
        var job := WorkerStep(xaddErrors(k));
        assert old(jobs)[..k + 1][..k] == old(jobs)[..k];
        assert old(jobs)[..k + 1] == old(jobs)[..k] + [old(jobs)[k]];
        k := k + 1;
      }
      assert old(jobs)[..k] == old(jobs);
    }

    /** `Shutdown`: cancel the context, wait for every worker to exit, close the queue. Jobs still
      waiting are not drained. Closing an already closed queue panics. */
    method Shutdown() returns (panicked: bool)
      modifies this
      ensures panicked == old(closed)
      ensures cancelled && closed && running == 0
      ensures jobs == old(jobs) && taken == old(taken) && accepted == old(accepted)
    {
      cancelled := true;
      running := 0;
      panicked := closed;
      closed := true;
    }
  }
}
