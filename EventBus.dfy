/** The Redis-stream event bus (internal/infrastructure/eventbus/redis.go): the streams, this
    bus's consumer group with this consumer's pending entries, publishing, and delivery to a
    handler with acknowledgement, retry and dead-lettering. */
module EventBus {
  import opened Base

  /** Retries after a failed first handler call. */
  const MaxRetries: nat := 3
  /** Suffix of the dead-letter stream of a topic. */
  const DLQSuffix: string := "_dlq"
  /** Entries read per XREADGROUP. */
  const BatchSize: nat := 50
  /** The one field of an entry written by `Publish`. */
  const EventDataField: string := "event_data"

  type Fields = map<string, Bytes>

  /** A stream entry; ids are assigned by XADD and increase along a stream. */
  datatype Entry = Entry(id: nat, fields: Fields)

  /** The consumer group on one stream: how many entries of the stream it has delivered, and
      this consumer's delivered-but-unacknowledged entries, in id order. */
  datatype Group = Group(delivered: nat, pending: seq<Entry>)

  datatype Store = Store(streams: map<string, seq<Entry>>, groups: map<string, Group>, nextId: nat)

  function StreamOf(s: Store, topic: string): seq<Entry> {
    if topic in s.streams then s.streams[topic] else []
  }

  function PendingOf(s: Store, topic: string): seq<Entry> {
    if topic in s.groups then s.groups[topic].pending else []
  }

  /** How many entries of the topic's stream the group has delivered (0 without a group). */
  function Delivered(s: Store, topic: string): nat {
    if topic in s.groups then s.groups[topic].delivered else 0
  }

  function DlqTopic(topic: string): (dlq: string)
    ensures dlq != topic
  {
    assert |topic + DLQSuffix| == |topic| + 4;
    topic + DLQSuffix
  }

  /** The ids of `es` strictly increase and all lie strictly between `lo` and `hi`. */
  predicate IdsWithin(es: seq<Entry>, lo: int, hi: int)
    decreases |es|
  {
    es == [] || (lo < es[0].id < hi && IdsWithin(es[1..], es[0].id, hi))
  }

  /** The bound on a group's pending ids: the id of the first entry it has not delivered, or
      the next id once it has delivered the whole stream. */
  function Frontier(stream: seq<Entry>, delivered: nat, nextId: nat): nat {
    if delivered < |stream| then stream[delivered].id else nextId
  }

  predicate GroupValid(g: Group, stream: seq<Entry>, nextId: nat) {
    && g.delivered <= |stream|
    && IdsWithin(g.pending, 0, Frontier(stream, g.delivered, nextId))
  }

  /** Stream ids increase and are below the next id; each group's pending entries are in id
      order and older than everything the group has not yet delivered. */
  predicate StoreValid(s: Store) {
    && s.nextId > 0
    && (forall t :: t in s.streams ==> IdsWithin(s.streams[t], 0, s.nextId))
    && (forall t :: t in s.groups ==> t in s.streams && GroupValid(s.groups[t], s.streams[t], s.nextId))
  }

  /** `IdsWithin` by positions: every id is in range, and ids increase with the position. */
  lemma {:induction false} WithinIndex(es: seq<Entry>, lo: int, hi: int)
    requires IdsWithin(es, lo, hi)
    ensures forall i :: 0 <= i < |es| ==> lo < es[i].id < hi
    ensures forall i, j :: 0 <= i < j < |es| ==> es[i].id < es[j].id
    decreases |es|
  {
    if es != [] {
      var tail := es[1..];
      WithinIndex(tail, es[0].id, hi);
      forall i | 0 <= i < |es| ensures lo < es[i].id < hi {
        if i > 0 {
          assert es[i] == tail[i - 1];
        }
      }
      forall i, j | 0 <= i < j < |es| ensures es[i].id < es[j].id {
        assert es[j] == tail[j - 1];
        if i > 0 {
          assert es[i] == tail[i - 1];
        }
      }
    }
  }

  lemma {:induction false} WithinWeaken(es: seq<Entry>, lo: int, hi: int, lo': int, hi': int)
    requires IdsWithin(es, lo, hi) && lo' <= lo && hi <= hi'
    ensures IdsWithin(es, lo', hi')
    decreases |es|
  {
    if es != [] {
      WithinWeaken(es[1..], es[0].id, hi, es[0].id, hi');
    }
  }

  /** Appending an entry whose id exceeds every id so far keeps the ids in order. */
  lemma {:induction false} WithinSnoc(es: seq<Entry>, lo: int, e: Entry, hi: int)
    requires IdsWithin(es, lo, e.id) && lo < e.id < hi
    ensures IdsWithin(es + [e], lo, hi)
    decreases |es|
  {
    if es == [] {
      assert [e][1..] == [];
    } else {
      assert (es + [e])[1..] == es[1..] + [e];
      WithinSnoc(es[1..], es[0].id, e, hi);
    }
  }

  /** Two id-ordered runs, the second entirely at or above `m` and the first below it, concatenate
      into an id-ordered run. */
  lemma {:induction false} WithinConcat(a: seq<Entry>, b: seq<Entry>, lo: int, m: int, hi: int)
    requires IdsWithin(a, lo, m) && IdsWithin(b, m - 1, hi) && lo < m <= hi
    ensures IdsWithin(a + b, lo, hi)
    decreases |a|
  {
    if a == [] {
      assert a + b == b;
      WithinWeaken(b, m - 1, hi, lo, hi);
    } else {
      assert (a + b)[1..] == a[1..] + b;
      WithinConcat(a[1..], b, a[0].id, m, hi);
    }
  }

  /** The entries from position `d` on are in order and start at `es[d]`. */
  lemma {:induction false} WithinFrom(es: seq<Entry>, lo: int, hi: int, d: nat)
    requires IdsWithin(es, lo, hi) && d < |es|
    ensures IdsWithin(es[d..], es[d].id - 1, hi)
    decreases d
  {
    if d > 0 {
      WithinFrom(es[1..], es[0].id, hi, d - 1);
      assert es[1..][d - 1..] == es[d..];
    }
  }

  /** The entries after position `k - 1` all have larger ids than it. */
  lemma {:induction false} WithinSuffix(es: seq<Entry>, lo: int, hi: int, k: nat)
    requires IdsWithin(es, lo, hi) && 0 < k <= |es|
    ensures IdsWithin(es[k..], es[k - 1].id, hi)
    decreases k
  {
    if k > 1 {
      WithinSuffix(es[1..], es[0].id, hi, k - 1);
      assert es[1..][k - 1..] == es[k..];
    }
  }

  /** The first `k` entries are in order and below the entry that follows them. */
  lemma {:induction false} WithinPrefix(es: seq<Entry>, lo: int, hi: int, k: nat)
    requires IdsWithin(es, lo, hi) && k <= |es|
    ensures IdsWithin(es[..k], lo, if k < |es| then es[k].id else hi)
    decreases k
  {
    if k > 0 {
      WithinIndex(es, lo, hi);
      WithinPrefix(es[1..], es[0].id, hi, k - 1);
      assert es[..k][1..] == es[1..][..k - 1];
      if k < |es| {
        assert es[1..][k - 1] == es[k];
      }
    }
  }

  /** XADD: appends an entry with a fresh id to the topic's stream, creating it if needed. */
  function XAdd(s: Store, topic: string, fields: Fields): Store {
    s.(streams := s.streams[topic := StreamOf(s, topic) + [Entry(s.nextId, fields)]], nextId := s.nextId + 1)
  }

  lemma XAddValid(s: Store, topic: string, fields: Fields)
    requires StoreValid(s)
    ensures StoreValid(XAdd(s, topic, fields))
  {
    var r := XAdd(s, topic, fields);
    var e := Entry(s.nextId, fields);
    forall t | t in r.streams ensures IdsWithin(r.streams[t], 0, r.nextId) {
      if t == topic {
        WithinSnoc(StreamOf(s, topic), 0, e, r.nextId);
      } else {
        WithinWeaken(s.streams[t], 0, s.nextId, 0, r.nextId);
      }
    }
    forall t | t in r.groups ensures t in r.streams && GroupValid(r.groups[t], r.streams[t], r.nextId) {
      var g := s.groups[t];
      var stream := s.streams[t];
      if t == topic {
        assert r.streams[t] == stream + [e];
        if g.delivered < |stream| {
          assert r.streams[t][g.delivered] == stream[g.delivered];
        }
      } else if g.delivered == |stream| {
        WithinWeaken(g.pending, 0, s.nextId, 0, r.nextId);
      }
    }
  }

  /** XADD of several entries, in order. */
  function XAddAll(s: Store, appends: seq<(string, Fields)>): Store
    decreases |appends|
  {
    if appends == [] then s else XAddAll(XAdd(s, appends[0].0, appends[0].1), appends[1..])
  }

  lemma {:induction false} XAddAllValid(s: Store, appends: seq<(string, Fields)>)
    requires StoreValid(s)
    ensures StoreValid(XAddAll(s, appends))
    decreases |appends|
  {
    if appends != [] {
      XAddValid(s, appends[0].0, appends[0].1);
      XAddAllValid(XAdd(s, appends[0].0, appends[0].1), appends[1..]);
    }
  }

  /** The entries without the one with this id. */
  function RemoveId(es: seq<Entry>, id: nat): seq<Entry> {
    if es == [] then []
    else if es[0].id == id then RemoveId(es[1..], id)
    else [es[0]] + RemoveId(es[1..], id)
  }

  /** Removing by id keeps exactly the other entries. */
  lemma {:induction false} RemoveIdMembers(es: seq<Entry>, id: nat)
    ensures forall e :: e in RemoveId(es, id) <==> e in es && e.id != id
  {
    if es != [] {
      RemoveIdMembers(es[1..], id);
      assert es == [es[0]] + es[1..];
    }
  }

  /** Removing by id keeps the entries in id order and in range. */
  lemma {:induction false} WithinRemove(es: seq<Entry>, lo: int, hi: int, id: nat)
    requires IdsWithin(es, lo, hi)
    ensures IdsWithin(RemoveId(es, id), lo, hi)
    decreases |es|
  {
    if es != [] {
      var rest := RemoveId(es[1..], id);
      WithinRemove(es[1..], es[0].id, hi, id);
      if es[0].id == id {
        WithinWeaken(rest, es[0].id, hi, lo, hi);
      } else {
        assert ([es[0]] + rest)[1..] == rest;
      }
    }
  }

  /** An id below every id of the sequence removes nothing. */
  lemma {:induction false} RemoveBelow(es: seq<Entry>, id: nat, hi: int)
    requires IdsWithin(es, id, hi)
    ensures RemoveId(es, id) == es
    decreases |es|
  {
    if es != [] {
      WithinWeaken(es[1..], es[0].id, hi, id, hi);
      RemoveBelow(es[1..], id, hi);
      assert es == [es[0]] + es[1..];
    }
  }

  /** Acknowledging an entry of an id-ordered sequence removes exactly that entry. */
  lemma {:induction false} RemoveAt(es: seq<Entry>, lo: int, hi: int, k: nat)
    requires IdsWithin(es, lo, hi) && k < |es|
    ensures RemoveId(es, es[k].id) == es[..k] + es[k + 1..]
    decreases k
  {
    var id := es[k].id;
    var tail := es[1..];
    if k == 0 {
      RemoveBelow(tail, id, hi);
      assert es[..0] + es[1..] == tail;
    } else {
      assert es[0].id != id by { WithinIndex(es, lo, hi); }
      assert IdsWithin(tail, es[0].id, hi);
      assert tail[k - 1] == es[k];
      RemoveAt(tail, es[0].id, hi, k - 1);
      assert RemoveId(es, id) == [es[0]] + RemoveId(tail, id);
      assert tail[..k - 1] == es[1..k] && tail[k..] == es[k + 1..];
      assert es[..k] == [es[0]] + es[1..k];
    }
  }

  /** XACK: removes the entry from this consumer's pending entries; without a group it changes nothing. */
  function XAck(s: Store, topic: string, id: nat): Store {
    if topic in s.groups then
      s.(groups := s.groups[topic := s.groups[topic].(pending := RemoveId(s.groups[topic].pending, id))])
    else s
  }

  lemma XAckValid(s: Store, topic: string, id: nat)
    requires StoreValid(s)
    ensures StoreValid(XAck(s, topic, id))
  {
    if topic in s.groups {
      var g := s.groups[topic];
      WithinRemove(g.pending, 0, Frontier(s.streams[topic], g.delivered, s.nextId), id);
    }
  }

  /** The entries of `es` with an id above `cursor`: what XREADGROUP with an explicit id returns
      from the pending entries, before the count is applied. */
  function After(es: seq<Entry>, cursor: nat): seq<Entry> {
    if es == [] then []
    else (if es[0].id > cursor then [es[0]] else []) + After(es[1..], cursor)
  }

  /** When every id is above the cursor, the read after it skips nothing. */
  lemma {:induction false} AfterAbove(es: seq<Entry>, cursor: nat, hi: int)
    requires IdsWithin(es, cursor, hi)
    ensures After(es, cursor) == es
    decreases |es|
  {
    if es != [] {
      WithinWeaken(es[1..], es[0].id, hi, cursor, hi);
      AfterAbove(es[1..], cursor, hi);
      assert es == [es[0]] + es[1..];
    }
  }

  function Take<X>(s: seq<X>, n: nat): (r: seq<X>)
    ensures r == s[..if |s| <= n then |s| else n]
  {
    if |s| <= n then s else s[..n]
  }

  /** XREADGROUP with id `cursor`: this consumer's pending entries after the cursor, at most `count`. */
  function ReadPending(s: Store, topic: string, cursor: nat, count: nat): seq<Entry> {
    Take(After(PendingOf(s, topic), cursor), count)
  }

  /** The entries XREADGROUP with id ">" delivers: the next undelivered ones, at most `count`. */
  function NewBatch(s: Store, topic: string, count: nat): seq<Entry>
    requires topic in s.groups && StoreValid(s)
  {
    var stream := s.streams[topic];
    var d := s.groups[topic].delivered;
    stream[d..if d + count <= |stream| then d + count else |stream|]
  }

  /** XREADGROUP with id ">": the group's delivered position moves past the batch, and the batch
      joins this consumer's pending entries. */
  function ReadNew(s: Store, topic: string, count: nat): Store
    requires topic in s.groups && StoreValid(s)
  {
    var g := s.groups[topic];
    var batch := NewBatch(s, topic, count);
    s.(groups := s.groups[topic := Group(g.delivered + |batch|, g.pending + batch)])
  }

  /** Entries read next from a stream join the end of the pending entries in id order, and
      stay below the new delivery frontier. */
  lemma BatchJoins(pending: seq<Entry>, stream: seq<Entry>, d: nat, k: nat, nextId: nat)
    requires d + k <= |stream| && IdsWithin(stream, 0, nextId)
    requires IdsWithin(pending, 0, Frontier(stream, d, nextId))
    ensures IdsWithin(pending + stream[d..d + k], 0, Frontier(stream, d + k, nextId))
  {
    var batch := stream[d..d + k];
    var e := d + k;
    if k > 0 {
      var m := stream[d].id;
      WithinIndex(stream, 0, nextId);
      WithinFrom(stream, 0, nextId, d);
      WithinPrefix(stream[d..], m - 1, nextId, k);
      assert stream[d..][..k] == batch;
      if e < |stream| {
        assert stream[d..][k] == stream[e];
      }
      WithinConcat(pending, batch, 0, m, Frontier(stream, e, nextId));
    } else {
      assert pending + batch == pending;
    }
  }

  lemma ReadNewValid(s: Store, topic: string, count: nat)
    requires topic in s.groups && StoreValid(s)
    ensures StoreValid(ReadNew(s, topic, count))
  {
    var g := s.groups[topic];
    var stream := s.streams[topic];
    BatchJoins(g.pending, stream, g.delivered, |NewBatch(s, topic, count)|, s.nextId);
  }

  /** A ">" read delivers the next `min(count, undelivered)` entries of the stream, in order;
      they join the end of the pending entries and the delivered position moves past them. */
  lemma ReadNewEffect(s: Store, topic: string, count: nat)
    requires topic in s.groups && StoreValid(s)
    ensures PendingOf(ReadNew(s, topic, count), topic) == PendingOf(s, topic) + NewBatch(s, topic, count)
    ensures Delivered(s, topic) + |NewBatch(s, topic, count)| <= |StreamOf(s, topic)|
    ensures NewBatch(s, topic, count)
         == StreamOf(s, topic)[Delivered(s, topic)..Delivered(s, topic) + |NewBatch(s, topic, count)|]
    ensures |NewBatch(s, topic, count)|
         == if Delivered(s, topic) + count <= |StreamOf(s, topic)| then count else |StreamOf(s, topic)| - Delivered(s, topic)
    ensures Delivered(ReadNew(s, topic, count), topic) == Delivered(s, topic) + |NewBatch(s, topic, count)|
    ensures ReadNew(s, topic, count).streams == s.streams
    ensures ReadNew(s, topic, count).groups.Keys == s.groups.Keys
  {
  }

  /** XGROUP CREATE … MKSTREAM with start id "0": creates the stream and the group if missing;
      an existing group is left as it is. */
  function EnsureGroup(s: Store, topic: string): Store {
    var withStream := if topic in s.streams then s else s.(streams := s.streams[topic := []]);
    if topic in s.groups then withStream
    else withStream.(groups := withStream.groups[topic := Group(0, [])])
  }

  lemma EnsureGroupValid(s: Store, topic: string)
    requires StoreValid(s)
    ensures StoreValid(EnsureGroup(s, topic))
    ensures topic in EnsureGroup(s, topic).groups
    ensures topic in s.groups ==> EnsureGroup(s, topic) == s
  {
  }

  /** The single-field entry `Publish` writes. */
  function Envelope(data: Bytes): Fields {
    map[EventDataField := data]
  }

  /** What `Publish` does: marshal the payload (failing with "marshal error: …") and append the
      envelope, or report the transport's error. `Ok` carries the fields appended. */
  function PublishOutcome(codec: Codec, payload: Value, xaddError: Option<string>): Result<Fields> {
    match codec.marshal(payload)
    case Err(msg) => Err("marshal error: " + msg)
    case Ok(data) => if xaddError.Some? then Err(xaddError.value) else Ok(Envelope(data))
  }

  /** An entry appended by `Publish` has exactly one field, `event_data`, holding the marshalled
      payload; a payload that does not marshal appends nothing. */
  lemma PublishEnvelope(codec: Codec, payload: Value, xaddError: Option<string>)
    ensures PublishOutcome(codec, payload, xaddError).Ok? <==> codec.marshal(payload).Ok? && xaddError.None?
    ensures PublishOutcome(codec, payload, xaddError).Ok? ==>
              && PublishOutcome(codec, payload, xaddError).value.Keys == {EventDataField}
              && PublishOutcome(codec, payload, xaddError).value[EventDataField] == codec.marshal(payload).value
    ensures codec.marshal(payload).Err? ==>
              PublishOutcome(codec, payload, xaddError) == Err("marshal error: " + codec.marshal(payload).error)
  {
  }

  /** Publish → subscribe: on a group that has delivered everything so far, the next ">" read
      after `Publish` returns exactly the new entry, whose `event_data` is the marshalled payload. */
  lemma PublishThenRead(s: Store, topic: string, data: Bytes)
    requires StoreValid(s) && topic in s.groups && s.groups[topic].delivered == |s.streams[topic]|
    ensures StoreValid(XAdd(s, topic, Envelope(data)))
    ensures NewBatch(XAdd(s, topic, Envelope(data)), topic, BatchSize) == [Entry(s.nextId, Envelope(data))]
    ensures NewBatch(XAdd(s, topic, Envelope(data)), topic, BatchSize)[0].fields[EventDataField] == data
  {
    XAddValid(s, topic, Envelope(data));
  }

  // ---- Delivery to a handler (handleMessage) ----

  /** The handler as an oracle: `handler(payload, n)` is whether the n-th call for this delivery
      (0 = the first call, i = the i-th retry) succeeds. */
  type Handler = (Bytes, nat) -> bool

  /** The subscriber's handler over a whole run: `handlers(id)` answers the calls made for the
      entry with that id, so entries with equal payloads can meet different outcomes. */
  type Handlers = nat -> Handler

  /** The first retry, from retry `i` on, whose handler call succeeds. */
  function FirstRetrySuccess(handler: Handler, payload: Bytes, i: nat): Option<nat>
    requires 1 <= i
    decreases MaxRetries + 1 - i
  {
    if i > MaxRetries then None
    else if handler(payload, i) then Some(i)
    else FirstRetrySuccess(handler, payload, i + 1)
  }

  /** `FirstRetrySuccess` finds a successful retry no later than the last one, with every retry
      before it failing; it finds none exactly when every retry from `i` on fails. */
  lemma {:induction false} FirstRetrySuccessSpec(handler: Handler, payload: Bytes, i: nat)
    requires 1 <= i
    ensures FirstRetrySuccess(handler, payload, i).Some? ==>
              && i <= FirstRetrySuccess(handler, payload, i).value <= MaxRetries
              && handler(payload, FirstRetrySuccess(handler, payload, i).value)
              && forall m :: i <= m < FirstRetrySuccess(handler, payload, i).value ==> !handler(payload, m)
    ensures FirstRetrySuccess(handler, payload, i).None? <==> forall m :: i <= m <= MaxRetries ==> !handler(payload, m)
    decreases MaxRetries + 1 - i
  {
    if i <= MaxRetries && !handler(payload, i) {
      FirstRetrySuccessSpec(handler, payload, i + 1);
    }
  }

  /** `[1, 2, …, n]`: the waits, in seconds, before retries 1 to n. */
  function Backoff(n: nat): (r: seq<nat>)
    ensures |r| == n
    ensures forall i :: 0 <= i < n ==> r[i] == i + 1
  {
    if n == 0 then [] else Backoff(n - 1) + [n]
  }

  /** The outcome of one `handleMessage`: how many handler calls it made, whether it copied the
      entry to the dead-letter stream, and the waits before the retries. */
  datatype Delivery = Delivery(calls: nat, toDlq: bool, waits: seq<nat>)

  /** `found` is whether the XPENDING lookup returned a summary (it returns nil on error). */
  function Deliver(handler: Handler, payload: Bytes, found: bool): Delivery {
    if handler(payload, 0) then Delivery(1, false, [])
    else if !found then Delivery(1, true, [])
    else match FirstRetrySuccess(handler, payload, 1)
      case Some(i) => Delivery(1 + i, false, Backoff(i))
      case None => Delivery(1 + MaxRetries, true, Backoff(MaxRetries))
  }

  /** The handler runs at least once and at most 1 + MaxRetries = 4 times; the k-th retry is
      preceded by a wait of k seconds. */
  lemma DeliveryBounds(handler: Handler, payload: Bytes, found: bool)
    ensures 1 <= Deliver(handler, payload, found).calls <= 1 + MaxRetries
    ensures |Deliver(handler, payload, found).waits| == Deliver(handler, payload, found).calls - 1
    ensures forall k :: 0 <= k < |Deliver(handler, payload, found).waits| ==> Deliver(handler, payload, found).waits[k] == k + 1
  {
    FirstRetrySuccessSpec(handler, payload, 1);
  }

  /** The entry goes to the dead-letter stream exactly when every handler call made failed;
      otherwise the last call made is the first that succeeded. */
  lemma DeliveryDlqIffAllFailed(handler: Handler, payload: Bytes, found: bool)
    ensures Deliver(handler, payload, found).toDlq <==>
              forall m :: 0 <= m < Deliver(handler, payload, found).calls ==> !handler(payload, m)
    ensures !Deliver(handler, payload, found).toDlq ==>
              && handler(payload, Deliver(handler, payload, found).calls - 1)
              && forall m :: 0 <= m < Deliver(handler, payload, found).calls - 1 ==> !handler(payload, m)
  {
    var d := Deliver(handler, payload, found);
    FirstRetrySuccessSpec(handler, payload, 1);
    if !handler(payload, 0) && found {
      var r := FirstRetrySuccess(handler, payload, 1);
      if r.Some? {
        assert handler(payload, d.calls - 1);
      } else {
        assert forall m :: 0 <= m < d.calls ==> !handler(payload, m) by {
          forall m | 0 <= m < d.calls ensures !handler(payload, m) {
            if m > 0 { assert 1 <= m <= MaxRetries; }
          }
        }
      }
    }
  }

  /** A first call that succeeds is the only call; a failed first call with a failed pending
      lookup skips the retries and dead-letters at once; a handler that always fails is called
      four times, waits 1, 2 and 3 seconds, and dead-letters. */
  lemma DeliveryCases(handler: Handler, payload: Bytes, found: bool)
    ensures handler(payload, 0) ==> Deliver(handler, payload, found) == Delivery(1, false, [])
    ensures !handler(payload, 0) && !found ==> Deliver(handler, payload, found) == Delivery(1, true, [])
    ensures found && (forall m :: 0 <= m <= MaxRetries ==> !handler(payload, m)) ==>
              Deliver(handler, payload, found) == Delivery(4, true, [1, 2, 3])
  {
    if found && (forall m :: 0 <= m <= MaxRetries ==> !handler(payload, m)) {
      FirstRetrySuccessSpec(handler, payload, 1);
      assert Backoff(3) == [1, 2, 3];
    }
  }

  /** The store after `handleMessage` settles an entry: the dead-letter copy (if it is made and
      the XADD succeeds), then the acknowledgement on the origin topic. */
  function Settle(s: Store, topic: string, entry: Entry, copyToDlq: bool): Store {
    XAck(if copyToDlq then XAdd(s, DlqTopic(topic), entry.fields) else s, topic, entry.id)
  }

  /** Settling leaves the origin stream alone and removes exactly the entry from the consumer's
      pending entries. */
  lemma SettleEffect(s: Store, topic: string, entry: Entry, copyToDlq: bool)
    requires StoreValid(s)
    ensures StoreValid(Settle(s, topic, entry, copyToDlq))
    ensures StreamOf(Settle(s, topic, entry, copyToDlq), topic) == StreamOf(s, topic)
    ensures PendingOf(Settle(s, topic, entry, copyToDlq), topic) == RemoveId(PendingOf(s, topic), entry.id)
    ensures (topic in Settle(s, topic, entry, copyToDlq).groups) == (topic in s.groups)
    ensures topic in s.groups ==> Settle(s, topic, entry, copyToDlq).groups[topic].delivered == s.groups[topic].delivered
    ensures copyToDlq ==>
              StreamOf(Settle(s, topic, entry, copyToDlq), DlqTopic(topic)) == StreamOf(s, DlqTopic(topic)) + [Entry(s.nextId, entry.fields)]
  {
    var mid := if copyToDlq then XAdd(s, DlqTopic(topic), entry.fields) else s;
    if copyToDlq {
      XAddValid(s, DlqTopic(topic), entry.fields);
    }
    XAckValid(mid, topic, entry.id);
  }

  /** The acknowledgements sent for the entries `es`, in order. */
  function AckLog(topic: string, es: seq<Entry>): (r: seq<(string, nat)>)
    ensures |r| == |es|
    decreases |es|
  {
    if es == [] then [] else AckLog(topic, es[..|es| - 1]) + [(topic, es[|es| - 1].id)]
  }

  /** One acknowledgement per entry, for that entry's id, in the entries' order. */
  lemma {:induction false} AckLogIndex(topic: string, es: seq<Entry>)
    ensures forall k :: 0 <= k < |es| ==> AckLog(topic, es)[k] == (topic, es[k].id)
    decreases |es|
  {
    if es != [] {
      var n := |es| - 1;
      AckLogIndex(topic, es[..n]);
      forall k | 0 <= k < |es| ensures AckLog(topic, es)[k] == (topic, es[k].id) {
        if k < n {
          assert es[..n][k] == es[k];
        }
      }
    }
  }

  lemma {:induction false} AckLogConcat(topic: string, a: seq<Entry>, b: seq<Entry>)
    ensures AckLog(topic, a + b) == AckLog(topic, a) + AckLog(topic, b)
    decreases |b|
  {
    if b == [] {
      assert a + b == a;
    } else {
      var n := |b| - 1;
      var ab := a + b;
      AckLogConcat(topic, a, b[..n]);
      assert ab[..|ab| - 1] == a + b[..n] by {
        assert forall k :: 0 <= k < |a| + n ==> ab[..|ab| - 1][k] == (a + b[..n])[k];
      }
      assert ab[|ab| - 1] == b[n];
    }
  }

  function Repeat<X>(x: X, n: nat): (r: seq<X>)
    ensures |r| == n && forall k :: 0 <= k < n ==> r[k] == x
  {
    if n == 0 then [] else Repeat(x, n - 1) + [x]
  }

  /** A dead-letter copy that cannot be written is lost: once every call has failed and the
      dead-letter XADD fails, the entry is neither pending nor in the dead-letter stream. */
  lemma FailedDlqWriteLosesEntry(s: Store, topic: string, entry: Entry)
    requires StoreValid(s)
    ensures entry !in PendingOf(Settle(s, topic, entry, false), topic)
    ensures StreamOf(Settle(s, topic, entry, false), DlqTopic(topic)) == StreamOf(s, DlqTopic(topic))
  {
    SettleEffect(s, topic, entry, false);
    RemoveIdMembers(PendingOf(s, topic), entry.id);
  }

  /** `hostname-pid`, with "unknown" for an empty host name. */
  function WorkerName(hostname: string, pid: string): (name: string)
    ensures hostname != "" ==> name == hostname + "-" + pid
    ensures hostname == "" ==> name == "unknown-" + pid
  {
    (if hostname == "" then "unknown" else hostname) + "-" + pid
  }

  /** Which calls to Redis fail during a run: the XPENDING lookup and the dead-letter XADD by
      entry id, the pending-replay and new-entry reads by round. */
  datatype BusFaults = BusFaults(
    pendingLookupFails: nat -> bool,
    dlqFails: nat -> bool,
    pendingReadFails: nat -> bool,
    newReadFails: nat -> bool)

  /** Whether `handleMessage` writes a dead-letter copy of an entry that has `event_data`. */
  function HandledCopy(entry: Entry, handler: Handlers, faults: BusFaults): bool {
    && EventDataField in entry.fields
    && Deliver(handler(entry.id), entry.fields[EventDataField], !faults.pendingLookupFails(entry.id)).toDlq
    && !faults.dlqFails(entry.id)
  }

  /** The store after `handleMessage` has settled each entry of `es`, in order. */
  function SettleAll(s: Store, topic: string, es: seq<Entry>, handler: Handlers, faults: BusFaults): Store
    decreases |es|
  {
    if es == [] then s
    else
      var last := es[|es| - 1];
      Settle(SettleAll(s, topic, es[..|es| - 1], handler, faults), topic, last, HandledCopy(last, handler, faults))
  }

  lemma SettleAllSnoc(s: Store, topic: string, es: seq<Entry>, e: Entry, handler: Handlers, faults: BusFaults)
    ensures SettleAll(s, topic, es + [e], handler, faults)
         == Settle(SettleAll(s, topic, es, handler, faults), topic, e, HandledCopy(e, handler, faults))
  {
    assert (es + [e])[..|es|] == es;
  }

  /** What a run shows besides the store: the acknowledgements sent, the payload of every
      handler call, and the waits, each in order. */
  datatype Trace = Trace(acks: seq<(string, nat)>, calls: seq<Bytes>, sleeps: seq<nat>)

  /** What `handleMessage` adds to the trace: for an entry with `event_data`, the handler calls
      and waits `Deliver` describes, then one acknowledgement; nothing for one without. */
  function HandleTrace(t: Trace, topic: string, entry: Entry, handler: Handlers, faults: BusFaults): Trace {
    if EventDataField !in entry.fields then t
    else
      var payload := entry.fields[EventDataField];
      var d := Deliver(handler(entry.id), payload, !faults.pendingLookupFails(entry.id));
      Trace(t.acks + [(topic, entry.id)], t.calls + Repeat(payload, d.calls), t.sleeps + d.waits)
  }

  /** The trace after `handleMessage` has run on each entry of `es`, in order. */
  function BatchTrace(t: Trace, topic: string, es: seq<Entry>, handler: Handlers, faults: BusFaults): Trace
    decreases |es|
  {
    if es == [] then t
    else HandleTrace(BatchTrace(t, topic, es[..|es| - 1], handler, faults), topic, es[|es| - 1], handler, faults)
  }

  lemma BatchTraceSnoc(t: Trace, topic: string, es: seq<Entry>, e: Entry, handler: Handlers, faults: BusFaults)
    ensures BatchTrace(t, topic, es + [e], handler, faults)
         == HandleTrace(BatchTrace(t, topic, es, handler, faults), topic, e, handler, faults)
  {
    assert (es + [e])[..|es|] == es;
  }

  /** Handling `a` and then `b` is handling `a + b`. */
  lemma {:induction false} BatchTraceConcat(t: Trace, topic: string, a: seq<Entry>, b: seq<Entry>,
                                            handler: Handlers, faults: BusFaults)
    ensures BatchTrace(BatchTrace(t, topic, a, handler, faults), topic, b, handler, faults)
         == BatchTrace(t, topic, a + b, handler, faults)
    decreases |b|
  {
    if b == [] {
      assert a + b == a;
    } else {
      var n := |b| - 1;
      BatchTraceConcat(t, topic, a, b[..n], handler, faults);
      assert (a + b)[..|a + b| - 1] == a + b[..n];
    }
  }

  /** Entries that all carry `event_data` are acknowledged once each, in order. */
  lemma {:induction false} BatchTraceAcks(t: Trace, topic: string, es: seq<Entry>, handler: Handlers, faults: BusFaults)
    requires forall j :: 0 <= j < |es| ==> EventDataField in es[j].fields
    ensures BatchTrace(t, topic, es, handler, faults).acks == t.acks + AckLog(topic, es)
    decreases |es|
  {
    if es != [] {
      BatchTraceAcks(t, topic, es[..|es| - 1], handler, faults);
    }
  }

  /** Handling entries that carry `event_data` calls the handler between once and
      1 + MaxRetries times per entry, and waits once per call beyond the first. */
  lemma {:induction false} BatchTraceCalls(t: Trace, topic: string, es: seq<Entry>, handler: Handlers, faults: BusFaults)
    requires forall j :: 0 <= j < |es| ==> EventDataField in es[j].fields
    ensures |t.calls| + |es| <= |BatchTrace(t, topic, es, handler, faults).calls| <= |t.calls| + (1 + MaxRetries) * |es|
    ensures |BatchTrace(t, topic, es, handler, faults).sleeps| - |t.sleeps|
         == |BatchTrace(t, topic, es, handler, faults).calls| - |t.calls| - |es|
    decreases |es|
  {
    if es != [] {
      var n := |es| - 1;
      var e := es[n];
      BatchTraceCalls(t, topic, es[..n], handler, faults);
      DeliveryBounds(handler(e.id), e.fields[EventDataField], !faults.pendingLookupFails(e.id));
    }
  }

  /** A consumer's pending entries are in id order, with ids between 0 and the next id. */
  lemma PendingWithin(s: Store, topic: string)
    requires StoreValid(s)
    ensures IdsWithin(PendingOf(s, topic), 0, s.nextId)
  {
    if topic in s.groups {
      var g := s.groups[topic];
      var stream := s.streams[topic];
      if g.delivered < |stream| {
        WithinIndex(stream, 0, s.nextId);
      }
      WithinWeaken(g.pending, 0, Frontier(stream, g.delivered, s.nextId), 0, s.nextId);
    }
  }

  /** Settling entries keeps the store valid and leaves the topic's stream, its group and the
      group's delivered position alone. */
  lemma {:induction false} SettleAllValid(s: Store, topic: string, es: seq<Entry>, handler: Handlers, faults: BusFaults)
    requires StoreValid(s)
    ensures StoreValid(SettleAll(s, topic, es, handler, faults))
    ensures StreamOf(SettleAll(s, topic, es, handler, faults), topic) == StreamOf(s, topic)
    ensures (topic in SettleAll(s, topic, es, handler, faults).groups) == (topic in s.groups)
    ensures Delivered(SettleAll(s, topic, es, handler, faults), topic) == Delivered(s, topic)
    decreases |es|
  {
    if es != [] {
      var n := |es| - 1;
      SettleAllValid(s, topic, es[..n], handler, faults);
      SettleEffect(SettleAll(s, topic, es[..n], handler, faults), topic, es[n], HandledCopy(es[n], handler, faults));
    }
  }

  /** The pending entries without each of `es`, removed one id at a time, in order. */
  function RemoveAll(p: seq<Entry>, es: seq<Entry>): seq<Entry>
    decreases |es|
  {
    if es == [] then p else RemoveId(RemoveAll(p, es[..|es| - 1]), es[|es| - 1].id)
  }

  /** Removing a run of consecutive entries of an id-ordered sequence, one by one and in order,
      cuts exactly that run out. */
  lemma {:induction false} RemoveRun(p: seq<Entry>, lo: int, hi: int, at: nat, es: seq<Entry>)
    requires IdsWithin(p, lo, hi) && at + |es| <= |p| && p[at..at + |es|] == es
    ensures RemoveAll(p, es) == p[..at] + p[at + |es|..]
    ensures IdsWithin(RemoveAll(p, es), lo, hi)
    decreases |es|
  {
    if es == [] {
      assert p[..at] + p[at..] == p;
    } else {
      var n := |es| - 1;
      assert p[at..at + n] == es[..n];
      RemoveRun(p, lo, hi, at, es[..n]);
      var q := RemoveAll(p, es[..n]);
      assert q[at] == es[n];
      RemoveAt(q, lo, hi, at);
      WithinRemove(q, lo, hi, es[n].id);
      assert q[..at] + q[at + 1..] == p[..at] + p[at + n + 1..];
    }
  }

  /** Settling acknowledges on the origin topic: its pending entries lose exactly the entry. */
  lemma SettlePending(s: Store, topic: string, entry: Entry, copyToDlq: bool)
    ensures PendingOf(Settle(s, topic, entry, copyToDlq), topic) == RemoveId(PendingOf(s, topic), entry.id)
  {
  }

  lemma {:induction false} SettleAllRemoves(s: Store, topic: string, es: seq<Entry>, handler: Handlers, faults: BusFaults)
    ensures PendingOf(SettleAll(s, topic, es, handler, faults), topic) == RemoveAll(PendingOf(s, topic), es)
    decreases |es|
  {
    if es != [] {
      var n := |es| - 1;
      SettleAllRemoves(s, topic, es[..n], handler, faults);
      SettlePending(SettleAll(s, topic, es[..n], handler, faults), topic, es[n], HandledCopy(es[n], handler, faults));
    }
  }

  /** Settling a run of consecutive pending entries, in order, removes exactly them from the
      pending entries. */
  lemma SettleAllPending(s: Store, topic: string, at: nat, es: seq<Entry>, handler: Handlers, faults: BusFaults)
    requires StoreValid(s)
    requires at + |es| <= |PendingOf(s, topic)| && PendingOf(s, topic)[at..at + |es|] == es
    ensures PendingOf(SettleAll(s, topic, es, handler, faults), topic)
         == PendingOf(s, topic)[..at] + PendingOf(s, topic)[at + |es|..]
  {
    SettleAllRemoves(s, topic, es, handler, faults);
    PendingWithin(s, topic);
    RemoveRun(PendingOf(s, topic), 0, s.nextId, at, es);
  }

  /** How many entries at the start of a read carry `event_data`: `handleMessage` handles
      those, and the type assertion on the next one crashes the process. */
  function Decodable(batch: seq<Entry>): (n: nat)
    ensures n <= |batch|
    decreases |batch|
  {
    if batch == [] || EventDataField !in batch[0].fields then 0 else 1 + Decodable(batch[1..])
  }

  /** Every entry before `Decodable(batch)` carries `event_data`, and the entry at it does not. */
  lemma {:induction false} DecodableSpec(batch: seq<Entry>)
    ensures forall j :: 0 <= j < Decodable(batch) ==> EventDataField in batch[j].fields
    ensures Decodable(batch) < |batch| ==> EventDataField !in batch[Decodable(batch)].fields
    decreases |batch|
  {
    if batch != [] && EventDataField in batch[0].fields {
      DecodableSpec(batch[1..]);
    }
  }

  /** A position before which every entry carries `event_data` and at which the entry does
      not (or the read ends) is `Decodable(batch)`. */
  lemma {:induction false} DecodableAt(batch: seq<Entry>, h: nat)
    requires h <= |batch|
    requires forall j :: 0 <= j < h ==> EventDataField in batch[j].fields
    requires h < |batch| ==> EventDataField !in batch[h].fields
    ensures Decodable(batch) == h
    decreases h
  {
    if h > 0 {
      assert EventDataField in batch[0].fields;
      DecodableAt(batch[1..], h - 1);
    }
  }

  /** One round of the pending replay reads the first pending entries (at most 50), and
      handling the decodable ones settles exactly them; after a full round every remaining
      pending id lies above the last one read. */
  lemma RoundStep(s: Store, topic: string, cursor: nat, hi: int, handler: Handlers, faults: BusFaults)
    requires StoreValid(s) && IdsWithin(PendingOf(s, topic), cursor, hi)
    ensures var batch := ReadPending(s, topic, cursor, BatchSize);
            var next := SettleAll(s, topic, batch[..Decodable(batch)], handler, faults);
            && batch == Take(PendingOf(s, topic), BatchSize)
            && StoreValid(next)
            && PendingOf(next, topic) == PendingOf(s, topic)[Decodable(batch)..]
            && (Decodable(batch) == |batch| > 0 ==> IdsWithin(PendingOf(next, topic), batch[|batch| - 1].id, hi))
  {
    var p := PendingOf(s, topic);
    AfterAbove(p, cursor, hi);
    var batch := ReadPending(s, topic, cursor, BatchSize);
    var h := Decodable(batch);
    assert batch[..h] == p[0..0 + h];
    SettleAllValid(s, topic, batch[..h], handler, faults);
    SettleAllPending(s, topic, 0, batch[..h], handler, faults);
    assert p[..0] + p[h..] == p[h..];
    if h == |batch| > 0 {
      WithinSuffix(p, cursor, hi, |batch|);
    }
  }

  /** Where a replay of the pending entries ends: the store, the entries handled so far (in
      the order `handleMessage` ran on them), the round whose read failed, and whether an
      entry crashed the process. */
  datatype Replay = Replay(store: Store, handled: seq<Entry>, failedAt: Option<nat>, crashed: bool)

  /** `processPendingMessages` from round `round` on, with the cursor at `cursor` and the
      entries `done` handled before: a failed read ends it; otherwise the read entries are
      handled in order until one crashes the process; an empty or short read, or a crash,
      ends it; a full read moves the cursor to its last id. */
  function ReplayFrom(s: Store, done: seq<Entry>, topic: string, cursor: nat, round: nat,
                      hi: int, handler: Handlers, faults: BusFaults): Replay
    requires StoreValid(s) && IdsWithin(PendingOf(s, topic), cursor, hi)
    decreases |PendingOf(s, topic)|
  {
    if faults.pendingReadFails(round) then Replay(s, done, Some(round), false)
    else
      var batch := ReadPending(s, topic, cursor, BatchSize);
      var h := Decodable(batch);
      var next := SettleAll(s, topic, batch[..h], handler, faults);
      if h < |batch| || |batch| < BatchSize then Replay(next, done + batch[..h], None, h < |batch|)
      else
        RoundStep(s, topic, cursor, hi, handler, faults);
        ReplayFrom(next, done + batch[..h], topic, batch[|batch| - 1].id, round + 1, hi, handler, faults)
  }

  /** `processPendingMessages`: the replay from cursor "0" in round 0. */
  function PendingReplay(s: Store, topic: string, handler: Handlers, faults: BusFaults): Replay
    requires StoreValid(s)
  {
    PendingWithin(s, topic);
    ReplayFrom(s, [], topic, 0, 0, s.nextId, handler, faults)
  }

  /** A round that reads a full batch and handles all of it continues the replay from the
      last id read, in the next round, with `next` the store and `done'` the entries handled
      after it. */
  lemma ReplayContinues(s: Store, done: seq<Entry>, topic: string, cursor: nat,
                        round: nat, hi: int, handler: Handlers, faults: BusFaults,
                        batch: seq<Entry>, handled: nat, next: Store, done': seq<Entry>)
    requires StoreValid(s) && IdsWithin(PendingOf(s, topic), cursor, hi)
    requires !faults.pendingReadFails(round)
    requires batch == ReadPending(s, topic, cursor, BatchSize)
    requires handled == Decodable(batch) == |batch| == BatchSize
    requires next == SettleAll(s, topic, batch[..handled], handler, faults)
    requires done' == done + batch[..handled]
    ensures StoreValid(next) && IdsWithin(PendingOf(next, topic), batch[|batch| - 1].id, hi)
    ensures |PendingOf(next, topic)| < |PendingOf(s, topic)|
    ensures ReplayFrom(s, done, topic, cursor, round, hi, handler, faults)
         == ReplayFrom(next, done', topic, batch[|batch| - 1].id, round + 1, hi, handler, faults)
  {
    RoundStep(s, topic, cursor, hi, handler, faults);
  }

  /** A round whose read is short, or in which an entry crashes the process, ends the replay
      with `next` the store and `done'` the entries handled after it. */
  lemma ReplayEnds(s: Store, done: seq<Entry>, topic: string, cursor: nat,
                   round: nat, hi: int, handler: Handlers, faults: BusFaults,
                   batch: seq<Entry>, handled: nat, next: Store, done': seq<Entry>)
    requires StoreValid(s) && IdsWithin(PendingOf(s, topic), cursor, hi)
    requires !faults.pendingReadFails(round)
    requires batch == ReadPending(s, topic, cursor, BatchSize)
    requires handled == Decodable(batch) && (handled < |batch| || |batch| < BatchSize)
    requires next == SettleAll(s, topic, batch[..handled], handler, faults)
    requires done' == done + batch[..handled]
    ensures StoreValid(next)
    ensures ReplayFrom(s, done, topic, cursor, round, hi, handler, faults)
         == Replay(next, done', None, handled < |batch|)
  {
    RoundStep(s, topic, cursor, hi, handler, faults);
  }

  /** Handling the first `h` entries read from `p` and leaving the rest pending splits `p`
      between the handled entries and the pending ones. */
  lemma SplitRound(p: seq<Entry>, batch: seq<Entry>, h: nat, pend: seq<Entry>, done: seq<Entry>, done': seq<Entry>)
    requires batch == Take(p, BatchSize) && h <= |batch|
    requires pend == p[h..] && done' == done + batch[..h]
    ensures done' + pend == done + p
  {
    assert batch[..h] == p[..h];
    assert p[..h] + p[h..] == p;
  }

  /** A round moves the entries it handles from the front of the pending entries to the end of
      the handled ones. */
  lemma EffectRound(s: Store, done: seq<Entry>, topic: string, cursor: nat, hi: int,
                    handler: Handlers, faults: BusFaults, batch: seq<Entry>, handled: nat, next: Store,
                    done': seq<Entry>)
    requires StoreValid(s) && IdsWithin(PendingOf(s, topic), cursor, hi)
    requires batch == ReadPending(s, topic, cursor, BatchSize) && handled == Decodable(batch)
    requires next == SettleAll(s, topic, batch[..handled], handler, faults)
    requires done' == done + batch[..handled]
    ensures done' + PendingOf(next, topic) == done + PendingOf(s, topic)
  {
    RoundStep(s, topic, cursor, hi, handler, faults);
    SplitRound(PendingOf(s, topic), batch, handled, PendingOf(next, topic), done, done');
  }

  /** A replay only moves entries from the front of the pending ones to the end of the handled
      ones: the handled entries followed by those still pending stay the same sequence. */
  lemma {:induction false} ReplayFromEffect(s: Store, done: seq<Entry>, topic: string, cursor: nat,
                                            round: nat, hi: int, handler: Handlers, faults: BusFaults, r: Replay)
    requires StoreValid(s) && IdsWithin(PendingOf(s, topic), cursor, hi)
    requires r == ReplayFrom(s, done, topic, cursor, round, hi, handler, faults)
    ensures r.handled + PendingOf(r.store, topic) == done + PendingOf(s, topic)
    decreases |PendingOf(s, topic)|
  {
    if !faults.pendingReadFails(round) {
      var batch := ReadPending(s, topic, cursor, BatchSize);
      var h := Decodable(batch);
      var next := SettleAll(s, topic, batch[..h], handler, faults);
      var done' := done + batch[..h];
      EffectRound(s, done, topic, cursor, hi, handler, faults, batch, h, next, done');
      if h == |batch| == BatchSize {
        ReplayContinues(s, done, topic, cursor, round, hi, handler, faults, batch, h, next, done');
        ReplayFromEffect(next, done', topic, batch[|batch| - 1].id, round + 1, hi, handler, faults, r);
      } else {
        ReplayEnds(s, done, topic, cursor, round, hi, handler, faults, batch, h, next, done');
      }
    }
  }

  /** A replay keeps the store valid and never touches the topic's stream, group or delivered
      position; every entry it handles carries `event_data`. */
  lemma {:induction false} ReplayFromValid(s: Store, done: seq<Entry>, topic: string, cursor: nat,
                                           round: nat, hi: int, handler: Handlers, faults: BusFaults, r: Replay)
    requires StoreValid(s) && IdsWithin(PendingOf(s, topic), cursor, hi)
    requires r == ReplayFrom(s, done, topic, cursor, round, hi, handler, faults)
    requires forall j :: 0 <= j < |done| ==> EventDataField in done[j].fields
    ensures StoreValid(r.store)
            && StreamOf(r.store, topic) == StreamOf(s, topic)
            && (topic in r.store.groups) == (topic in s.groups)
            && Delivered(r.store, topic) == Delivered(s, topic)
    ensures forall j :: 0 <= j < |r.handled| ==> EventDataField in r.handled[j].fields
    decreases |PendingOf(s, topic)|
  {
    if !faults.pendingReadFails(round) {
      var batch := ReadPending(s, topic, cursor, BatchSize);
      var h := Decodable(batch);
      var next := SettleAll(s, topic, batch[..h], handler, faults);
      var done' := done + batch[..h];
      SettleAllValid(s, topic, batch[..h], handler, faults);
      DecodedAppend(done, batch, h, done');
      if h == |batch| == BatchSize {
        ReplayContinues(s, done, topic, cursor, round, hi, handler, faults, batch, h, next, done');
        ReplayFromValid(next, done', topic, batch[|batch| - 1].id, round + 1, hi, handler, faults, r);
      } else {
        ReplayEnds(s, done, topic, cursor, round, hi, handler, faults, batch, h, next, done');
      }
    }
  }

  /** Appending the decodable entries of a read to entries that all carry `event_data`. */
  lemma DecodedAppend(done: seq<Entry>, batch: seq<Entry>, h: nat, done': seq<Entry>)
    requires h == Decodable(batch) && done' == done + batch[..h]
    requires forall j :: 0 <= j < |done| ==> EventDataField in done[j].fields
    ensures forall j :: 0 <= j < |done'| ==> EventDataField in done'[j].fields
  {
    DecodableSpec(batch);
    assert forall j :: |done| <= j < |done'| ==> done'[j] == batch[j - |done|];
  }

  /** Why a replay stops: a failed read (and nothing crashed), an entry without `event_data`
      (then the first entry still pending), or the end of the pending entries. */
  lemma {:induction false} ReplayFromStop(s: Store, done: seq<Entry>, topic: string, cursor: nat,
                                          round: nat, hi: int, handler: Handlers, faults: BusFaults, r: Replay)
    requires StoreValid(s) && IdsWithin(PendingOf(s, topic), cursor, hi)
    requires r == ReplayFrom(s, done, topic, cursor, round, hi, handler, faults)
    ensures (r.crashed ==> PendingOf(r.store, topic) != [] && EventDataField !in PendingOf(r.store, topic)[0].fields)
            && (r.failedAt.Some? ==> faults.pendingReadFails(r.failedAt.value) && !r.crashed)
            && (!r.crashed && r.failedAt.None? ==> PendingOf(r.store, topic) == [])
    decreases |PendingOf(s, topic)|
  {
    if !faults.pendingReadFails(round) {
      var batch := ReadPending(s, topic, cursor, BatchSize);
      var h := Decodable(batch);
      var next := SettleAll(s, topic, batch[..h], handler, faults);
      var done' := done + batch[..h];
      RoundStep(s, topic, cursor, hi, handler, faults);
      if h == |batch| == BatchSize {
        ReplayContinues(s, done, topic, cursor, round, hi, handler, faults, batch, h, next, done');
        ReplayFromStop(next, done', topic, batch[|batch| - 1].id, round + 1, hi, handler, faults, r);
      } else {
        ReplayEnds(s, done, topic, cursor, round, hi, handler, faults, batch, h, next, done');
        DecodableSpec(batch);
        if h < |batch| {
          assert PendingOf(next, topic)[0] == batch[h];
        }
      }
    }
  }

  /** The replay of `processPendingMessages` handles a prefix of the consumer's pending entries,
      in id order, and exactly the rest stay pending; each handled entry is acknowledged once,
      in that order. */
  lemma PendingReplayPrefix(s: Store, topic: string, handler: Handlers, faults: BusFaults, t: Trace)
    requires StoreValid(s)
    ensures PendingReplay(s, topic, handler, faults).handled + PendingOf(PendingReplay(s, topic, handler, faults).store, topic)
         == PendingOf(s, topic)
    ensures BatchTrace(t, topic, PendingReplay(s, topic, handler, faults).handled, handler, faults).acks
         == t.acks + AckLog(topic, PendingReplay(s, topic, handler, faults).handled)
  {
    var r := PendingReplay(s, topic, handler, faults);
    PendingWithin(s, topic);
    ReplayFromEffect(s, [], topic, 0, 0, s.nextId, handler, faults, r);
    ReplayFromValid(s, [], topic, 0, 0, s.nextId, handler, faults, r);
    BatchTraceAcks(t, topic, r.handled, handler, faults);
  }

  /** Why the replay stops: a failed read in some round (and nothing crashed), an entry without
      `event_data` first among those still pending (the type assertion panics), or because every
      pending entry was handled. */
  lemma PendingReplayStops(s: Store, topic: string, handler: Handlers, faults: BusFaults)
    requires StoreValid(s)
    ensures var r := PendingReplay(s, topic, handler, faults);
            r.crashed ==> PendingOf(r.store, topic) != [] && EventDataField !in PendingOf(r.store, topic)[0].fields
    ensures var r := PendingReplay(s, topic, handler, faults);
            r.failedAt.Some? ==> faults.pendingReadFails(r.failedAt.value) && !r.crashed
    ensures var r := PendingReplay(s, topic, handler, faults);
            !r.crashed && r.failedAt.None? ==> PendingOf(r.store, topic) == []
  {
    PendingWithin(s, topic);
    ReplayFromStop(s, [], topic, 0, 0, s.nextId, handler, faults, PendingReplay(s, topic, handler, faults));
  }

  /** The replay keeps the store valid, and leaves the topic's stream, whether it has a group,
      and the group's delivered position as they were. */
  lemma PendingReplayValid(s: Store, topic: string, handler: Handlers, faults: BusFaults)
    requires StoreValid(s)
    ensures StoreValid(PendingReplay(s, topic, handler, faults).store)
    ensures StreamOf(PendingReplay(s, topic, handler, faults).store, topic) == StreamOf(s, topic)
    ensures (topic in PendingReplay(s, topic, handler, faults).store.groups) == (topic in s.groups)
    ensures Delivered(PendingReplay(s, topic, handler, faults).store, topic) == Delivered(s, topic)
  {
    PendingWithin(s, topic);
    ReplayFromValid(s, [], topic, 0, 0, s.nextId, handler, faults, PendingReplay(s, topic, handler, faults));
  }

  /** One round of `listenLoop`'s read loop: a read that failed (it is followed by a one-second
      wait), or the entries of a ">" read that were handled, in order. A read that finds nothing
      new (redis.Nil) handles no entries. */
  datatype ListenRound = ReadError | Read(handled: seq<Entry>)

  /** Where the read loop ends: the store, its rounds, and whether an entry crashed the process. */
  datatype Listen = Listen(store: Store, rounds: seq<ListenRound>, crashed: bool)

  /** The entries handled over the rounds `rs`, in order. */
  function HandledIn(rs: seq<ListenRound>): seq<Entry>
    decreases |rs|
  {
    if rs == [] then []
    else HandledIn(rs[..|rs| - 1]) + (if rs[|rs| - 1].Read? then rs[|rs| - 1].handled else [])
  }

  lemma HandledInSnoc(rs: seq<ListenRound>, x: ListenRound)
    ensures HandledIn(rs + [x]) == HandledIn(rs) + (if x.Read? then x.handled else [])
  {
    assert (rs + [x])[..|rs|] == rs;
  }

  /** The entries of a read appended to the pending ones `p`: handling the first `h` of them
      leaves `p` followed by the rest. */
  lemma ReadSlices(pr: seq<Entry>, p: seq<Entry>, batch: seq<Entry>, h: nat)
    requires pr == p + batch && h <= |batch|
    ensures |p| + |batch[..h]| <= |pr| && pr[|p|..|p| + |batch[..h]|] == batch[..h]
    ensures pr[..|p|] + pr[|p| + |batch[..h]|..] == p + batch[h..]
  {
    assert pr[|p|..|p| + h] == batch[..h];
    assert pr[..|p|] == p && pr[|p| + h..] == batch[h..];
  }

  /** A ">" read of the next undelivered entries (at most 50) and the handling of its decodable
      ones: the delivered position moves past the whole read, and what stays pending from it
      is the entry that crashed and those after it. */
  lemma ListenRoundStep(s: Store, topic: string, handler: Handlers, faults: BusFaults,
                        batch: seq<Entry>, h: nat, read: Store, next: Store)
    requires StoreValid(s) && topic in s.groups
    requires batch == NewBatch(s, topic, BatchSize) && h == Decodable(batch)
    requires read == ReadNew(s, topic, BatchSize) && next == SettleAll(read, topic, batch[..h], handler, faults)
    ensures StoreValid(next) && topic in next.groups
    ensures StreamOf(next, topic) == StreamOf(s, topic)
    ensures Delivered(s, topic) + |batch| <= |StreamOf(s, topic)|
    ensures Delivered(next, topic) == Delivered(s, topic) + |batch|
    ensures batch == StreamOf(s, topic)[Delivered(s, topic)..Delivered(s, topic) + |batch|]
    ensures PendingOf(next, topic) == PendingOf(s, topic) + batch[h..]
  {
    ReadStep(s, topic, batch, read);
    SettleStep(read, topic, PendingOf(s, topic), batch, h, handler, faults, next);
  }

  /** `ReadNewEffect` for a read of `batch`, giving the store `read`. */
  lemma ReadStep(s: Store, topic: string, batch: seq<Entry>, read: Store)
    requires StoreValid(s) && topic in s.groups
    requires batch == NewBatch(s, topic, BatchSize) && read == ReadNew(s, topic, BatchSize)
    ensures StoreValid(read) && topic in read.groups
    ensures StreamOf(read, topic) == StreamOf(s, topic)
    ensures Delivered(s, topic) + |batch| <= |StreamOf(s, topic)|
    ensures Delivered(read, topic) == Delivered(s, topic) + |batch|
    ensures batch == StreamOf(s, topic)[Delivered(s, topic)..Delivered(s, topic) + |batch|]
    ensures PendingOf(read, topic) == PendingOf(s, topic) + batch
  {
    ReadNewValid(s, topic, BatchSize);
    ReadNewEffect(s, topic, BatchSize);
  }

  /** Handling the first `h` entries of a read that was appended to the pending entries `p`. */
  lemma SettleStep(read: Store, topic: string, p: seq<Entry>, batch: seq<Entry>, h: nat,
                   handler: Handlers, faults: BusFaults, next: Store)
    requires StoreValid(read) && topic in read.groups
    requires PendingOf(read, topic) == p + batch && h <= |batch|
    requires next == SettleAll(read, topic, batch[..h], handler, faults)
    ensures StoreValid(next) && topic in next.groups
    ensures StreamOf(next, topic) == StreamOf(read, topic) && Delivered(next, topic) == Delivered(read, topic)
    ensures PendingOf(next, topic) == p + batch[h..]
  {
    var es := batch[..h];
    assert PendingOf(next, topic) == p + batch[h..] by {
      var pr := PendingOf(read, topic);
      ReadSlices(pr, p, batch, h);
      SettleAllPending(read, topic, |p|, es, handler, faults);
    }
    SettleAllValid(read, topic, es, handler, faults);
  }

  /** `listenLoop`'s read loop from round `round` on, after the rounds `done`, until the
      context is done before round `rounds`: a failed read, or a read on a topic without the
      group, waits and goes on; otherwise the new entries are read and handled in order until
      one crashes the process. */
  function ListenFrom(s: Store, done: seq<ListenRound>, topic: string, round: nat, rounds: nat,
                      handler: Handlers, faults: BusFaults): Listen
    requires StoreValid(s)
    decreases rounds - round
  {
    if round >= rounds then Listen(s, done, false)
    else if faults.newReadFails(round) || topic !in s.groups then
      ListenFrom(s, done + [ReadError], topic, round + 1, rounds, handler, faults)
    else
      var batch := NewBatch(s, topic, BatchSize);
      var h := Decodable(batch);
      var read := ReadNew(s, topic, BatchSize);
      var next := SettleAll(read, topic, batch[..h], handler, faults);
      ListenRoundStep(s, topic, handler, faults, batch, h, read, next);
      if h < |batch| then Listen(next, done + [Read(batch[..h])], true)
      else ListenFrom(next, done + [Read(batch[..h])], topic, round + 1, rounds, handler, faults)
  }

  /** The read loop keeps the store valid, and leaves the topic's stream and whether it has a
      group alone; every entry it handles carries `event_data`. */
  lemma {:induction false} ListenFromValid(s: Store, done: seq<ListenRound>, topic: string, round: nat, rounds: nat,
                                           handler: Handlers, faults: BusFaults, l: Listen)
    requires StoreValid(s) && l == ListenFrom(s, done, topic, round, rounds, handler, faults)
    requires forall j :: 0 <= j < |HandledIn(done)| ==> EventDataField in HandledIn(done)[j].fields
    ensures StoreValid(l.store) && StreamOf(l.store, topic) == StreamOf(s, topic)
    ensures (topic in l.store.groups) == (topic in s.groups)
    ensures forall j :: 0 <= j < |HandledIn(l.rounds)| ==> EventDataField in HandledIn(l.rounds)[j].fields
    decreases rounds - round
  {
    if round < rounds {
      if faults.newReadFails(round) || topic !in s.groups {
        HandledInSnoc(done, ReadError);
        ListenFromValid(s, done + [ReadError], topic, round + 1, rounds, handler, faults, l);
      } else {
        var batch := NewBatch(s, topic, BatchSize);
        var h := Decodable(batch);
        var read := ReadNew(s, topic, BatchSize);
        var next := SettleAll(read, topic, batch[..h], handler, faults);
        ListenRoundStep(s, topic, handler, faults, batch, h, read, next);
        HandledInSnoc(done, Read(batch[..h]));
        DecodedAppend(HandledIn(done), batch, h, HandledIn(done + [Read(batch[..h])]));
        if h == |batch| {
          ListenFromValid(next, done + [Read(batch[..h])], topic, round + 1, rounds, handler, faults, l);
        }
      }
    }
  }

  /** The sequence algebra of one read round: handling the first `h` of the entries read at
      positions `d..d + |batch|` of the stream, and leaving the rest pending. */
  lemma ListenSplit(stream: seq<Entry>, d: nat, d': nat, batch: seq<Entry>, h: nat,
                    before: seq<Entry>, after: seq<Entry>, p: seq<Entry>, p': seq<Entry>)
    requires d' == d + |batch| <= |stream| && batch == stream[d..d']
    requires h <= |batch| && after == before + batch[..h] && p' == p + batch[h..]
    ensures p <= p' && after + p'[|p|..] == before + stream[d..d']
  {
    assert p'[|p|..] == batch[h..];
    assert batch[..h] + batch[h..] == batch;
  }

  /** Two runs of consecutive stream entries join. */
  lemma ListenJoin(stream: seq<Entry>, d0: nat, d1: nat, d2: nat, before: seq<Entry>, mid: seq<Entry>, after: seq<Entry>)
    requires d0 <= d1 <= d2 <= |stream|
    requires mid == before + stream[d0..d1]
    ensures (mid + stream[d1..d2] == after) == (after == before + stream[d0..d2])
  {
    assert stream[d0..d1] + stream[d1..d2] == stream[d0..d2];
  }

  /** The read loop handles the stream's undelivered entries in stream order, each once: the
      entries it handled, followed by those of its reads still pending (the one that crashed
      and those after it), are the entries its reads delivered; the pending entries from
      before stay as they were, and nothing new stays pending unless an entry crashed. */
  lemma {:induction false} ListenFromEffect(s: Store, done: seq<ListenRound>, topic: string, round: nat, rounds: nat,
                                            handler: Handlers, faults: BusFaults, l: Listen)
    requires StoreValid(s) && l == ListenFrom(s, done, topic, round, rounds, handler, faults)
    ensures Delivered(s, topic) <= Delivered(l.store, topic) <= |StreamOf(s, topic)|
    ensures PendingOf(s, topic) <= PendingOf(l.store, topic)
    ensures HandledIn(l.rounds) + PendingOf(l.store, topic)[|PendingOf(s, topic)|..]
         == HandledIn(done) + StreamOf(s, topic)[Delivered(s, topic)..Delivered(l.store, topic)]
    ensures !l.crashed ==> PendingOf(l.store, topic) == PendingOf(s, topic)
    decreases rounds - round, 1
  {
    if round >= rounds {
      EffectIdle(s, topic, HandledIn(done));
    } else if faults.newReadFails(round) || topic !in s.groups {
      HandledInSnoc(done, ReadError);
      ListenFromEffect(s, done + [ReadError], topic, round + 1, rounds, handler, faults, l);
    } else {
      var batch := NewBatch(s, topic, BatchSize);
      var h := Decodable(batch);
      var read := ReadNew(s, topic, BatchSize);
      var next := SettleAll(read, topic, batch[..h], handler, faults);
      ListenStep(s, done, topic, round, rounds, handler, faults, batch, h, read, next);
      ListenRoundStep(s, topic, handler, faults, batch, h, read, next);
      ListenEffectRead(s, next, done, batch, h, topic, round, rounds, handler, faults, l, h < |batch|);
    }
  }

  /** A loop that reads nothing leaves the pending entries and the delivered position alone. */
  lemma EffectIdle(s: Store, topic: string, handled: seq<Entry>)
    requires StoreValid(s)
    ensures Delivered(s, topic) <= |StreamOf(s, topic)|
    ensures handled + PendingOf(s, topic)[|PendingOf(s, topic)|..]
         == handled + StreamOf(s, topic)[Delivered(s, topic)..Delivered(s, topic)]
  {
    assert PendingOf(s, topic)[|PendingOf(s, topic)|..] == [];
  }

  /** `ListenFromEffect` for a round that reads, from the store `next` after it. */
  lemma {:induction false} ListenEffectRead(s: Store, next: Store, done: seq<ListenRound>, batch: seq<Entry>, h: nat,
                                            topic: string, round: nat, rounds: nat,
                                            handler: Handlers, faults: BusFaults, l: Listen, stop: bool)
    requires StoreValid(next) && h <= |batch| && stop == (h < |batch|) && round < rounds
    requires StreamOf(next, topic) == StreamOf(s, topic)
    requires Delivered(s, topic) + |batch| <= |StreamOf(s, topic)|
    requires Delivered(next, topic) == Delivered(s, topic) + |batch|
    requires batch == StreamOf(s, topic)[Delivered(s, topic)..Delivered(s, topic) + |batch|]
    requires PendingOf(next, topic) == PendingOf(s, topic) + batch[h..]
    requires l == if stop then Listen(next, done + [Read(batch[..h])], true)
                 else ListenFrom(next, done + [Read(batch[..h])], topic, round + 1, rounds, handler, faults)
    ensures Delivered(s, topic) <= Delivered(l.store, topic) <= |StreamOf(s, topic)|
    ensures PendingOf(s, topic) <= PendingOf(l.store, topic)
    ensures HandledIn(l.rounds) + PendingOf(l.store, topic)[|PendingOf(s, topic)|..]
         == HandledIn(done) + StreamOf(s, topic)[Delivered(s, topic)..Delivered(l.store, topic)]
    ensures !l.crashed ==> PendingOf(l.store, topic) == PendingOf(s, topic)
    decreases rounds - round, 0
  {
    var p := PendingOf(s, topic);
    var stream := StreamOf(s, topic);
    var d := Delivered(s, topic);
    var done' := done + [Read(batch[..h])];
    HandledInSnoc(done, Read(batch[..h]));
    ListenSplit(stream, d, Delivered(next, topic), batch, h, HandledIn(done), HandledIn(done'), p, PendingOf(next, topic));
    if !stop {
      ListenFromEffect(next, done', topic, round + 1, rounds, handler, faults, l);
      assert PendingOf(next, topic) == p;
      ListenJoin(stream, d, Delivered(next, topic), Delivered(l.store, topic), HandledIn(done), HandledIn(done'),
                 HandledIn(l.rounds) + PendingOf(l.store, topic)[|p|..]);
    }
  }

  /** The read loop runs one round per round until the context is done, unless an entry
      crashes the process; a round is a failed read exactly when the read fails or the topic
      has no group. */
  lemma {:induction false} ListenFromRounds(s: Store, done: seq<ListenRound>, topic: string, round: nat, rounds: nat,
                                            handler: Handlers, faults: BusFaults, l: Listen)
    requires StoreValid(s) && l == ListenFrom(s, done, topic, round, rounds, handler, faults)
    requires round <= rounds
    ensures |done| <= |l.rounds| <= |done| + (rounds - round) && l.rounds[..|done|] == done
    ensures !l.crashed ==> |l.rounds| == |done| + (rounds - round)
    ensures forall i :: |done| <= i < |l.rounds| ==>
              (l.rounds[i].ReadError? <==> faults.newReadFails(round + (i - |done|)) || topic !in s.groups)
    decreases rounds - round, 1
  {
    if round < rounds {
      if faults.newReadFails(round) || topic !in s.groups {
        RoundsFailed(s, done, topic, round, rounds, handler, faults, l);
      } else {
        var batch := NewBatch(s, topic, BatchSize);
        var h := Decodable(batch);
        var read := ReadNew(s, topic, BatchSize);
        var next := SettleAll(read, topic, batch[..h], handler, faults);
        ListenStep(s, done, topic, round, rounds, handler, faults, batch, h, read, next);
        RoundsRead(next, done, Read(batch[..h]), topic, round, rounds, handler, faults, l, h < |batch|);
      }
    }
  }

  /** `ListenFromRounds` for a round whose read fails. */
  lemma {:induction false} RoundsFailed(s: Store, done: seq<ListenRound>, topic: string, round: nat, rounds: nat,
                                        handler: Handlers, faults: BusFaults, l: Listen)
    requires StoreValid(s) && l == ListenFrom(s, done, topic, round, rounds, handler, faults)
    requires round < rounds && (faults.newReadFails(round) || topic !in s.groups)
    ensures |done| <= |l.rounds| <= |done| + (rounds - round) && l.rounds[..|done|] == done
    ensures !l.crashed ==> |l.rounds| == |done| + (rounds - round)
    ensures forall i :: |done| <= i < |l.rounds| ==>
              (l.rounds[i].ReadError? <==> faults.newReadFails(round + (i - |done|)) || topic !in s.groups)
    decreases rounds - round, 0
  {
    var x := ListenRound.ReadError;
    ListenFromRounds(s, done + [x], topic, round + 1, rounds, handler, faults, l);
    RoundsShift(done, x, done + [x], l.rounds, round, faults.newReadFails, topic !in s.groups, topic !in s.groups);
  }

  /** A round that reads ends the loop if an entry crashed and otherwise goes on with the
      next round from the store after it. */
  lemma ListenStep(s: Store, done: seq<ListenRound>, topic: string, round: nat, rounds: nat,
                   handler: Handlers, faults: BusFaults, batch: seq<Entry>, h: nat, read: Store, next: Store)
    requires StoreValid(s) && round < rounds && !faults.newReadFails(round) && topic in s.groups
    requires batch == NewBatch(s, topic, BatchSize) && h == Decodable(batch)
    requires read == ReadNew(s, topic, BatchSize) && next == SettleAll(read, topic, batch[..h], handler, faults)
    ensures StoreValid(next) && topic in next.groups
    ensures ListenFrom(s, done, topic, round, rounds, handler, faults)
         == if h < |batch| then Listen(next, done + [Read(batch[..h])], true)
            else ListenFrom(next, done + [Read(batch[..h])], topic, round + 1, rounds, handler, faults)
  {
    ListenRoundStep(s, topic, handler, faults, batch, h, read, next);
  }

  /** `ListenFromRounds` for a round that reads, from the store `next` after it. */
  lemma {:induction false} RoundsRead(next: Store, done: seq<ListenRound>, x: ListenRound, topic: string, round: nat,
                                      rounds: nat, handler: Handlers, faults: BusFaults, l: Listen, stop: bool)
    requires StoreValid(next) && topic in next.groups && x.Read?
    requires round < rounds && !faults.newReadFails(round)
    requires l == if stop then Listen(next, done + [x], true)
                 else ListenFrom(next, done + [x], topic, round + 1, rounds, handler, faults)
    ensures |done| <= |l.rounds| <= |done| + (rounds - round) && l.rounds[..|done|] == done
    ensures !l.crashed ==> |l.rounds| == |done| + (rounds - round)
    ensures forall i :: |done| <= i < |l.rounds| ==>
              (l.rounds[i].ReadError? <==> faults.newReadFails(round + (i - |done|)) || false)
    decreases rounds - round, 0
  {
    if stop {
      RoundsShift(done, x, done + [x], l.rounds, round, faults.newReadFails, false, false);
    } else {
      ListenFromRounds(next, done + [x], topic, round + 1, rounds, handler, faults, l);
      RoundsShift(done, x, done + [x], l.rounds, round, faults.newReadFails, false, topic !in next.groups);
    }
  }

  /** The rounds after `done' = done + [x]` followed round `round + 1` on, so those after
      `done` follow round `round` on. */
  lemma RoundsShift(done: seq<ListenRound>, x: ListenRound, done': seq<ListenRound>, rs: seq<ListenRound>,
                    round: nat, fails: nat -> bool, missing: bool, missing': bool)
    requires done' == done + [x] && |done'| <= |rs| && rs[..|done'|] == done' && missing' == missing
    requires x.ReadError? <==> fails(round) || missing
    requires forall i :: |done'| <= i < |rs| ==> (rs[i].ReadError? <==> fails((round + 1) + (i - |done'|)) || missing')
    ensures rs[..|done|] == done
    ensures forall i :: |done| <= i < |rs| ==> (rs[i].ReadError? <==> fails(round + (i - |done|)) || missing)
  {
    assert rs[..|done'|][..|done|] == rs[..|done|];
    assert rs[|done|] == rs[..|done'|][|done|];
  }

  /** What the read loop shows besides the store: a one-second wait after each failed read,
      and the trace of handling the entries of each read. */
  function ListenTrace(t: Trace, topic: string, rs: seq<ListenRound>, handler: Handlers, faults: BusFaults): Trace
    decreases |rs|
  {
    if rs == [] then t
    else
      var before := ListenTrace(t, topic, rs[..|rs| - 1], handler, faults);
      match rs[|rs| - 1]
      case ReadError => before.(sleeps := before.sleeps + [1])
      case Read(es) => BatchTrace(before, topic, es, handler, faults)
  }

  lemma ListenTraceSnoc(t: Trace, topic: string, rs: seq<ListenRound>, x: ListenRound, handler: Handlers, faults: BusFaults)
    ensures ListenTrace(t, topic, rs + [x], handler, faults)
         == match x
            case ReadError => ListenTrace(t, topic, rs, handler, faults).(sleeps := ListenTrace(t, topic, rs, handler, faults).sleeps + [1])
            case Read(es) => BatchTrace(ListenTrace(t, topic, rs, handler, faults), topic, es, handler, faults)
  {
    assert (rs + [x])[..|rs|] == rs;
  }

  /** Over the read loop the acknowledgements are those of the handled entries, once each and
      in order; a failed read sends none. */
  lemma {:induction false} ListenTraceAcks(t: Trace, topic: string, rs: seq<ListenRound>, handler: Handlers, faults: BusFaults)
    requires forall j :: 0 <= j < |HandledIn(rs)| ==> EventDataField in HandledIn(rs)[j].fields
    ensures ListenTrace(t, topic, rs, handler, faults).acks == t.acks + AckLog(topic, HandledIn(rs))
    decreases |rs|
  {
    if rs != [] {
      var n := |rs| - 1;
      var prev := ListenTrace(t, topic, rs[..n], handler, faults);
      var now := ListenTrace(t, topic, rs, handler, faults);
      var before := HandledIn(rs[..n]);
      var es := if rs[n].Read? then rs[n].handled else [];
      DecodedSplit(HandledIn(rs), before, es);
      ListenTraceAcks(t, topic, rs[..n], handler, faults);
      if rs[n].Read? {
        BatchTraceAcks(prev, topic, es, handler, faults);
        assert now == BatchTrace(prev, topic, es, handler, faults);
      } else {
        assert now.acks == prev.acks + AckLog(topic, es);
      }
      AckLogConcat(topic, before, es);
      AppendAssoc(t.acks, AckLog(topic, before), AckLog(topic, es));
    }
  }

  lemma AppendAssoc<X>(a: seq<X>, b: seq<X>, c: seq<X>)
    ensures a + b + c == a + (b + c)
  {
  }

  /** Both parts of a sequence of entries that all carry `event_data` do too. */
  lemma DecodedSplit(all: seq<Entry>, a: seq<Entry>, b: seq<Entry>)
    requires all == a + b
    requires forall j :: 0 <= j < |all| ==> EventDataField in all[j].fields
    ensures forall j :: 0 <= j < |a| ==> EventDataField in a[j].fields
    ensures forall j :: 0 <= j < |b| ==> EventDataField in b[j].fields
  {
    assert forall j :: 0 <= j < |a| ==> all[j] == a[j];
    assert forall j :: 0 <= j < |b| ==> all[|a| + j] == b[j];
  }

  /** `listenLoop`: the pending replay, then, unless it crashed, the read loop for `rounds`
      rounds. */
  function ListenAll(s: Store, topic: string, rounds: nat, handler: Handlers, faults: BusFaults): (Replay, Listen)
    requires StoreValid(s)
  {
    var r := PendingReplay(s, topic, handler, faults);
    PendingReplayValid(s, topic, handler, faults);
    if r.crashed then (r, Listen(r.store, [], true))
    else (r, ListenFrom(r.store, [], topic, 0, rounds, handler, faults))
  }

  /** The whole of `listenLoop` keeps the store valid, and leaves the topic's stream and
      whether it has a group alone; every entry it hands to the handler carries `event_data`. */
  lemma ListenAllValid(s: Store, topic: string, rounds: nat, handler: Handlers, faults: BusFaults)
    requires StoreValid(s)
    ensures var (r, l) := ListenAll(s, topic, rounds, handler, faults);
            && StoreValid(l.store) && StreamOf(l.store, topic) == StreamOf(s, topic)
            && (topic in l.store.groups) == (topic in s.groups)
            && (forall j :: 0 <= j < |r.handled| ==> EventDataField in r.handled[j].fields)
            && (forall j :: 0 <= j < |HandledIn(l.rounds)| ==> EventDataField in HandledIn(l.rounds)[j].fields)
  {
    var r := PendingReplay(s, topic, handler, faults);
    PendingWithin(s, topic);
    ReplayFromValid(s, [], topic, 0, 0, s.nextId, handler, faults, r);
    if !r.crashed {
      var l := ListenFrom(r.store, [], topic, 0, rounds, handler, faults);
      ListenFromValid(r.store, [], topic, 0, rounds, handler, faults, l);
    }
  }

  /** `listenLoop` handles each entry delivered to this consumer once, in order: first a
      prefix of the entries pending from before, then the stream's undelivered entries in
      stream order. What stays pending is the rest of the old pending entries, followed by the
      entries of the crashing read from the crash on; without a crash no new entry stays
      pending. */
  lemma ListenAllOrder(s: Store, topic: string, rounds: nat, handler: Handlers, faults: BusFaults)
    requires StoreValid(s)
    ensures var (r, l) := ListenAll(s, topic, rounds, handler, faults);
            && r.handled + PendingOf(r.store, topic) == PendingOf(s, topic)
            && PendingOf(r.store, topic) <= PendingOf(l.store, topic)
            && Delivered(s, topic) <= Delivered(l.store, topic) <= |StreamOf(s, topic)|
            && HandledIn(l.rounds) + PendingOf(l.store, topic)[|PendingOf(r.store, topic)|..]
               == StreamOf(s, topic)[Delivered(s, topic)..Delivered(l.store, topic)]
            && (!l.crashed ==> PendingOf(l.store, topic) == PendingOf(r.store, topic))
  {
    var r := PendingReplay(s, topic, handler, faults);
    PendingWithin(s, topic);
    ReplayFromEffect(s, [], topic, 0, 0, s.nextId, handler, faults, r);
    PendingReplayValid(s, topic, handler, faults);
    if r.crashed {
      EffectIdle(r.store, topic, []);
    } else {
      var l := ListenFrom(r.store, [], topic, 0, rounds, handler, faults);
      ListenFromEffect(r.store, [], topic, 0, rounds, handler, faults, l);
    }
  }

  /** The acknowledgements `listenLoop` sends are those of the entries it handled, once each
      and in order: the replayed ones, then those of the read loop. */
  lemma ListenAllAcks(s: Store, topic: string, rounds: nat, handler: Handlers, faults: BusFaults, t: Trace)
    requires StoreValid(s)
    ensures var (r, l) := ListenAll(s, topic, rounds, handler, faults);
            ListenTrace(BatchTrace(t, topic, r.handled, handler, faults), topic, l.rounds, handler, faults).acks
            == t.acks + AckLog(topic, r.handled + HandledIn(l.rounds))
  {
    var (r, l) := ListenAll(s, topic, rounds, handler, faults);
    ListenAllValid(s, topic, rounds, handler, faults);
    BatchTraceAcks(t, topic, r.handled, handler, faults);
    ListenTraceAcks(BatchTrace(t, topic, r.handled, handler, faults), topic, l.rounds, handler, faults);
    AckLogConcat(topic, r.handled, HandledIn(l.rounds));
    AppendAssoc(t.acks, AckLog(topic, r.handled), AckLog(topic, HandledIn(l.rounds)));
  }

  /** After `Subscribe` has made sure the group exists, the read loop never fails for want of
      it: a round waits exactly when its read fails, and without a crash there is one round per
      round before the context is done. */
  lemma SubscribeRounds(s: Store, topic: string, rounds: nat, handler: Handlers, faults: BusFaults)
    requires StoreValid(s)
    ensures StoreValid(EnsureGroup(s, topic))
    ensures var (r, l) := ListenAll(EnsureGroup(s, topic), topic, rounds, handler, faults);
            && (!l.crashed ==> |l.rounds| == rounds)
            && forall i :: 0 <= i < |l.rounds| ==> (l.rounds[i].ReadError? <==> faults.newReadFails(i))
  {
    var g := EnsureGroup(s, topic);
    EnsureGroupValid(s, topic);
    var r := PendingReplay(g, topic, handler, faults);
    PendingReplayValid(g, topic, handler, faults);
    if !r.crashed {
      var l := ListenFrom(r.store, [], topic, 0, rounds, handler, faults);
      ListenFromRounds(r.store, [], topic, 0, rounds, handler, faults, l);
    }
  }

  /** `redisBus`: a client of the stream store, for one consumer group and one consumer name.
      Besides the store it records what the outside world sees: the acknowledgements sent,
      the waits, and the payload of every handler call. */
  class RedisBus {
    const codec: Codec
    const group: string
    const worker: string
    var store: Store
    var acks: seq<(string, nat)>
    var sleeps: seq<nat>
    var calls: seq<Bytes>

    ghost predicate Valid()
      reads this
    {
      StoreValid(store)
    }

    function Out(): Trace
      reads this
    {
      Trace(acks, calls, sleeps)
    }

    /** `NewRedisBus`, connected to a server holding `store`. */
    constructor (codec: Codec, group: string, hostname: string, pid: string, store: Store)
      ensures this.codec == codec && this.group == group && this.worker == WorkerName(hostname, pid)
      ensures this.store == store && acks == [] && sleeps == [] && calls == []
    {
      this.codec := codec;
      this.group := group;
      this.worker := WorkerName(hostname, pid);
      this.store := store;
      acks := [];
      sleeps := [];
      calls := [];
    }

    /** `Publish`: one entry holding the marshalled payload under `event_data`, or an error and
      no entry. */
    method Publish(topic: string, payload: Value, xaddError: Option<string>) returns (err: Option<string>)
      modifies this
      ensures err.None? <==> PublishOutcome(codec, payload, xaddError).Ok?
      ensures err.Some? ==> err.value == PublishOutcome(codec, payload, xaddError).error && store == old(store)
      ensures err.None? ==> store == XAdd(old(store), topic, PublishOutcome(codec, payload, xaddError).value)
      ensures acks == old(acks) && sleeps == old(sleeps) && calls == old(calls)
    {
      var data := codec.marshal(payload);
      if data.Err? {
        return Some("marshal error: " + data.error);
      }
      if xaddError.Some? {
        return xaddError;
      }
      store := XAdd(store, topic, Envelope(data.value));
      return None;
    }

    method Ack(topic: string, id: nat)
      modifies this
      ensures store == XAck(old(store), topic, id) && acks == old(acks) + [(topic, id)]
      ensures sleeps == old(sleeps) && calls == old(calls)
    {
      store := XAck(store, topic, id);
      acks := acks + [(topic, id)];
    }

    /** `moveToDLQ`: copies the entry's fields to `topic_dlq`; a failed write is only logged. */
    method MoveToDLQ(topic: string, entry: Entry, fails: bool)
      modifies this
      ensures store == if fails then old(store) else XAdd(old(store), DlqTopic(topic), entry.fields)
      ensures acks == old(acks) && sleeps == old(sleeps) && calls == old(calls)
    {
      if !fails {
        store := XAdd(store, DlqTopic(topic), entry.fields);
      }
    }

    /** `handleMessage`: an entry without `event_data` crashes the process (the type assertion
      panics) before anything happens; otherwise the handler is called as `Deliver` says, the
      entry is dead-lettered when every call failed, and it is acknowledged exactly once. */
    method HandleMessage(topic: string, entry: Entry, handler: Handlers, faults: BusFaults) returns (crashed: bool)
      modifies this
      ensures crashed <==> EventDataField !in entry.fields
      ensures crashed ==> store == old(store) && acks == old(acks) && sleeps == old(sleeps) && calls == old(calls)
      ensures !crashed ==>
        var payload := entry.fields[EventDataField];
        var d := Deliver(handler(entry.id), payload, !faults.pendingLookupFails(entry.id));
        && calls == old(calls) + Repeat(payload, d.calls)
        && sleeps == old(sleeps) + d.waits
        && acks == old(acks) + [(topic, entry.id)]
        && store == Settle(old(store), topic, entry, HandledCopy(entry, handler, faults))
    {
      if EventDataField !in entry.fields {
        return true;
      }
      crashed := false;
      var payload := entry.fields[EventDataField];
      calls := calls + [payload];
      assert Repeat(payload, 1) == [payload];
      if handler(entry.id)(payload, 0) {
        Ack(topic, entry.id);
        return;
      }
      if !faults.pendingLookupFails(entry.id) {
        var success := Retry(payload, handler(entry.id));
        if success.Some? {
          Ack(topic, entry.id);
          return;
        }
      }
      MoveToDLQ(topic, entry, faults.dlqFails(entry.id));
      Ack(topic, entry.id);
    }

    /** The retry loop of `handleMessage`: before retry k it waits k seconds, and it stops at the
      first call that succeeds. */
    method Retry(payload: Bytes, handler: Handler) returns (success: Option<nat>)
      modifies this
      ensures success == FirstRetrySuccess(handler, payload, 1)
      ensures calls == old(calls) + Repeat(payload, if success.Some? then success.value else MaxRetries)
      ensures sleeps == old(sleeps) + Backoff(if success.Some? then success.value else MaxRetries)
      ensures store == old(store) && acks == old(acks)
    {
      var i := 0;
      while i < MaxRetries
        invariant 0 <= i <= MaxRetries
        invariant forall m :: 1 <= m <= i ==> !handler(payload, m)
        invariant calls == old(calls) + Repeat(payload, i)
        invariant sleeps == old(sleeps) + Backoff(i)
        invariant store == old(store) && acks == old(acks)
      {
        sleeps := sleeps + [i + 1];
        calls := calls + [payload];
        if handler(payload, i + 1) {
          assert FirstRetrySuccess(handler, payload, 1) == Some(i + 1);
          return Some(i + 1);
        }
        i := i + 1;
      }
      assert FirstRetrySuccess(handler, payload, 1) == None;
      return None;
    }

    /** The `for … range` over the entries of one read: each is handled in order, as by
      `HandleMessage`, until one crashes the process. */
    method HandleBatch(topic: string, batch: seq<Entry>, handler: Handlers, faults: BusFaults)
      returns (handled: nat, crashed: bool)
      modifies this
      ensures handled == Decodable(batch)
      ensures crashed <==> handled < |batch|
      ensures Out() == BatchTrace(old(Out()), topic, batch[..handled], handler, faults)
      ensures store == SettleAll(old(store), topic, batch[..handled], handler, faults)
    {
      handled := 0;
      ghost var done: seq<Entry> := [];
      while handled < |batch|
        invariant handled <= |batch| && done == batch[..handled]
        invariant forall j :: 0 <= j < handled ==> EventDataField in batch[j].fields
        invariant Out() == BatchTrace(old(Out()), topic, done, handler, faults)
        invariant store == SettleAll(old(store), topic, done, handler, faults)
      {
        var entry := batch[handled];
        crashed := HandleMessage(topic, entry, handler, faults);
        if crashed {
          DecodableAt(batch, handled);
          return;
        }
        BatchTraceSnoc(old(Out()), topic, done, entry, handler, faults);
        SettleAllSnoc(old(store), topic, done, entry, handler, faults);
        done := done + [entry];
        handled := handled + 1;
      }
      DecodableAt(batch, handled);
      crashed := false;
    }

    /** `processPendingMessages`: replays this consumer's pending entries in id order, reading
      at most 50 after the cursor each round, starting from cursor "0" and moving it to the
      last id read, as `PendingReplay` describes. */
    method ProcessPendingMessages(topic: string, handler: Handlers, faults: BusFaults)
      returns (failedAt: Option<nat>, crashed: bool)
      requires Valid()
      modifies this
      ensures Valid()
      ensures var r := PendingReplay(old(store), topic, handler, faults);
              && store == r.store && failedAt == r.failedAt && crashed == r.crashed
              && Out() == BatchTrace(old(Out()), topic, r.handled, handler, faults)
    {
      ghost var hi := store.nextId;
      ghost var done: seq<Entry> := [];
      PendingWithin(store, topic);
      var cursor: nat := 0;
      var round: nat := 0;
      failedAt, crashed := None, false;
      while true
        invariant Valid() && IdsWithin(PendingOf(store, topic), cursor, hi)
        invariant ReplayFrom(store, done, topic, cursor, round, hi, handler, faults)
               == PendingReplay(old(store), topic, handler, faults)
        invariant Out() == BatchTrace(old(Out()), topic, done, handler, faults)
        invariant failedAt.None? && !crashed
        decreases |PendingOf(store, topic)|
      {
        if faults.pendingReadFails(round) {
          failedAt := Some(round);
          return;
        }
        var batch := ReadPending(store, topic, cursor, BatchSize);
        ghost var s0, d0 := store, done;
        var handled;
        handled, crashed := HandleBatch(topic, batch, handler, faults);
        BatchTraceConcat(old(Out()), topic, d0, batch[..handled], handler, faults);
        done := done + batch[..handled];
        if crashed || |batch| < BatchSize {
          ReplayEnds(s0, d0, topic, cursor, round, hi, handler, faults, batch, handled, store, done);
          return;
        }
        ReplayContinues(s0, d0, topic, cursor, round, hi, handler, faults, batch, handled, store, done);
        cursor := batch[|batch| - 1].id;
        round := round + 1;
      }
    }

    /** `listenLoop`: the pending replay, then, unless it crashed, the read loop, as
      `ListenAll` describes. */
    method ListenLoop(topic: string, rounds: nat, handler: Handlers, faults: BusFaults) returns (crashed: bool)
      requires Valid()
      modifies this
      ensures Valid()
      ensures var (r, l) := ListenAll(old(store), topic, rounds, handler, faults);
              && store == l.store && crashed == l.crashed
              && Out() == ListenTrace(BatchTrace(old(Out()), topic, r.handled, handler, faults), topic, l.rounds, handler, faults)
    {
      var failedAt;
      failedAt, crashed := ProcessPendingMessages(topic, handler, faults);
      if !crashed {
        crashed := ReadLoop(topic, rounds, handler, faults);
      }
    }

    /** The `for` loop of `listenLoop`: `rounds` rounds of ">" reads (the context is done
      before the next one), whose entries are handled in order; a failed read, or one on a
      topic without the group, is followed by a one-second wait; a read that finds nothing new
      goes straight on. */
    method ReadLoop(topic: string, rounds: nat, handler: Handlers, faults: BusFaults) returns (crashed: bool)
      requires Valid()
      modifies this
      ensures Valid()
      ensures var l := ListenFrom(old(store), [], topic, 0, rounds, handler, faults);
              && store == l.store && crashed == l.crashed
              && Out() == ListenTrace(old(Out()), topic, l.rounds, handler, faults)
    {
      ghost var done: seq<ListenRound> := [];
      var round: nat := 0;
      crashed := false;
      while round < rounds
        invariant Valid() && round <= rounds && !crashed
        invariant ListenFrom(store, done, topic, round, rounds, handler, faults)
               == ListenFrom(old(store), [], topic, 0, rounds, handler, faults)
        invariant Out() == ListenTrace(old(Out()), topic, done, handler, faults)
        decreases rounds - round
      {
        if faults.newReadFails(round) || topic !in store.groups {
          sleeps := sleeps + [1];
          ListenTraceSnoc(old(Out()), topic, done, ReadError, handler, faults);
          done := done + [ReadError];
        } else {
          var batch := NewBatch(store, topic, BatchSize);
          ghost var s1 := store;
          store := ReadNew(store, topic, BatchSize);
          ghost var read := store;
          var handled;
          handled, crashed := HandleBatch(topic, batch, handler, faults);
          ListenTraceSnoc(old(Out()), topic, done, Read(batch[..handled]), handler, faults);
          ListenStep(s1, done, topic, round, rounds, handler, faults, batch, handled, read, store);
          done := done + [Read(batch[..handled])];
          if crashed {
            return;
          }
        }
        round := round + 1;
      }
    }

    /** `Subscribe`: creates the stream and the group when they are missing (the error for an
      existing group is ignored), then runs `listenLoop`. */
    method Subscribe(topic: string, rounds: nat, handler: Handlers, faults: BusFaults) returns (crashed: bool)
      requires Valid()
      modifies this
      ensures Valid() && topic in store.groups
      ensures var (r, l) := ListenAll(EnsureGroup(old(store), topic), topic, rounds, handler, faults);
              && store == l.store && crashed == l.crashed
              && Out() == ListenTrace(BatchTrace(old(Out()), topic, r.handled, handler, faults), topic, l.rounds, handler, faults)
    {
      EnsureGroupValid(store, topic);
      store := EnsureGroup(store, topic);
      ListenAllValid(store, topic, rounds, handler, faults);
      crashed := ListenLoop(topic, rounds, handler, faults);
    }
  }
}
