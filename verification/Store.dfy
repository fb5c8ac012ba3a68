/**
 The multi-version store as a state machine on values: every public operation of the in-memory backend
 is one atomic step. Reads made while a transaction runs are stated on the state before it; that the
 running code, which reads its own half-updated history, sees the same is proved in `FakeBackend`.
 */
module Store {
  import opened Wrappers
  import opened Sorting
  import opened Dicts
  import opened ByteStrings
  import opened Backend

  datatype Version = Version(
    revision: nat, value: Option<Bytes>, createRevision: nat, version: nat, leaseId: Option<LeaseId>)

  datatype LeaseState = LeaseState(ttl: int, deadline: real)

  type History = Dict<Bytes, seq<Version>>

  type WatcherId = nat

  datatype Phase = Active | Finished | Cancelled

  /** A watch generator with its queue, and what it has handed to its consumer so far. */
  datatype Stream = Stream(
    start: Bytes, end: Option<Bytes>, from: int, registeredAt: nat,
    backlog: seq<WatchBatch>, queue: seq<Option<WatchBatch>>, yielded: seq<WatchBatch>, phase: Phase)

  datatype State = State(
    revision: nat,
    compactedRevision: nat,
    history: History,
    events: seq<WatchBatch>,
    watchers: set<WatcherId>,
    streams: map<WatcherId, Stream>,
    nextWatcherId: WatcherId,
    leases: Dict<LeaseId, LeaseState>,
    nextLeaseId: LeaseId,
    clock: real,
    closed: bool)

  const INITIAL: State :=
    State(0, 0, RawDict([], map[]), [], {}, map[], 0, RawDict([], map[]), 1, 0.0, false)

  // ----- Reading -----

  function Chain(h: History, key: Bytes): seq<Version> {
    Get(h, key, [])
  }

  /** The last stored version that is not newer than `r`. */
  function LastAt(chain: seq<Version>, r: int): Option<Version> {
    if chain == [] then None
    else if chain[|chain| - 1].revision <= r then Some(chain[|chain| - 1])
    else LastAt(chain[..|chain| - 1], r)
  }

  function AsKeyValue(key: Bytes, v: Version): KeyValue
    requires v.value.Some?
  {
    KeyValue(key, v.value.value, v.createRevision, v.revision, v.version, v.leaseId)
  }

  function LiveValue(key: Bytes, v: Option<Version>): Option<KeyValue> {
    if v.None? || v.value.value.None? then None else Some(AsKeyValue(key, v.value))
  }

  function ValueAt(h: History, key: Bytes, r: int): Option<KeyValue> {
    LiveValue(key, LastAt(Chain(h, key), r))
  }

  predicate KeyLess(a: Bytes, b: Bytes) {
    Less(a, b)
  }

  function Collect(h: History, keys: seq<Bytes>, start: Bytes, end: Option<Bytes>, r: int): seq<KeyValue> {
    if keys == [] then []
    else
      var value := ValueAt(h, keys[0], r);
      (if KeyInRange(keys[0], start, end) && value.Some? then [value.value] else [])
      + Collect(h, keys[1..], start, end, r)
  }

  function Listing(h: History, start: Bytes, end: Option<Bytes>, r: int): seq<KeyValue> {
    Collect(h, Sorted(KeyLess, h.order), start, end, r)
  }

  function KeysOf(values: seq<KeyValue>): seq<Bytes> {
    seq(|values|, i requires 0 <= i < |values| => values[i].key)
  }

  function KeysInRange(s: State, start: Bytes, end: Option<Bytes>): seq<Bytes> {
    KeysOf(Listing(s.history, start, end, s.revision))
  }

  /** One page of a listing: at most `limit` values and the key to continue from. */
  function Page(values: seq<KeyValue>, r: int, limit: Option<int>): RangeResult
    requires limit.Some? ==> limit.value > 0
  {
    if limit.Some? && |values| > limit.value then
      RangeResult(values[..limit.value], r, true, Some(values[limit.value - 1].key + [0]))
    else
      RangeResult(values, r, false, None)
  }

  function RangeRevision(s: State, request: RangeRequest): int {
    if request.revision.Some? then request.revision.value else s.revision
  }

  /** Why a range is refused: an explicit revision must be newer than the compacted one, even equal is refused. */
  function RangeError(s: State, request: RangeRequest): Option<Error> {
    var r := RangeRevision(s, request);
    if request.limit.Some? && request.limit.value <= 0 then Some(ValueError)
    else if request.revision.None? then None
    else if s.compactedRevision != 0 && r <= s.compactedRevision then Some(CompactedRevision(r, s.compactedRevision))
    else if r > s.revision then Some(FutureRevision(r, s.revision))
    else None
  }

  function RangePage(s: State, request: RangeRequest): RangeResult
    requires RangeError(s, request).None?
  {
    var r := RangeRevision(s, request);
    Page(Listing(s.history, request.start, request.end, r), r, request.limit)
  }

  function RangeUnlocked(s: State, request: RangeRequest): Result<RangeResult, Error> {
    var error := RangeError(s, request);
    if error.Some? then Failure(error.value) else Success(RangePage(s, request))
  }

  function Range(s: State, request: RangeRequest): Result<RangeResult, Error> {
    if s.closed then Failure(BackendClosed) else RangeUnlocked(s, request)
  }

  // ----- Comparing -----

  function Actual(current: Option<KeyValue>, target: CompareTarget): Operand {
    match target
    case VALUE => BytesOperand(if current.Some? then current.value.value else [])
    case CREATE_REVISION => IntOperand(if current.Some? then current.value.createRevision else 0)
    case MOD_REVISION => IntOperand(if current.Some? then current.value.modRevision else 0)
    case VERSION => IntOperand(if current.Some? then current.value.version else 0)
    case LEASE => IntOperand(if current.Some? && current.value.leaseId.Some? then current.value.leaseId.value else 0)
  }

  predicate CompareBytes(actual: Bytes, operand: Bytes, operator: CompareOperator) {
    match operator
    case EQUAL => actual == operand
    case NOT_EQUAL => actual != operand
    case GREATER => Less(operand, actual)
    case LESS => Less(actual, operand)
  }

  predicate CompareInts(actual: int, operand: int, operator: CompareOperator) {
    match operator
    case EQUAL => actual == operand
    case NOT_EQUAL => actual != operand
    case GREATER => actual > operand
    case LESS => actual < operand
  }

  function CompareOne(current: Option<KeyValue>, c: Compare): Result<bool, Error> {
    match (Actual(current, c.target), c.operand)
    case (BytesOperand(a), BytesOperand(b)) => Success(CompareBytes(a, b, c.operator))
    case (IntOperand(a), IntOperand(b)) => Success(CompareInts(a, b, c.operator))
    case _ => Failure(BackendError)
  }

  /** All comparisons in order, stopping at the first that is false or ill-typed. */
  function CompareAll(s: State, compares: seq<Compare>): Result<bool, Error> {
    if compares == [] then Success(true)
    else
      var first := CompareOne(ValueAt(s.history, compares[0].key, s.revision), compares[0]);
      if first.Failure? || !first.value then first else CompareAll(s, compares[1..])
  }

  // ----- Validating -----

  predicate IsWrite(op: Operation) {
    !op.GetRange?
  }

  function WriteStart(op: Operation): Bytes
    requires IsWrite(op)
  {
    if op.Put? then op.key else op.start
  }

  function WriteEnd(op: Operation): Option<Bytes>
    requires IsWrite(op)
  {
    if op.Put? then Some(op.key + [0]) else op.end
  }

  predicate Overlapping(a: Operation, b: Operation) {
    IsWrite(a) && IsWrite(b) && RangesOverlap(WriteStart(a), WriteEnd(a), WriteStart(b), WriteEnd(b))
  }

  predicate LeaseMissing(s: State, op: Operation) {
    op.Put? && op.leaseId.Some? && op.leaseId.value !in s.leases.entries
  }

  function Validate(s: State, ops: seq<Operation>): Option<Error> {
    if ops == [] then None
    else
      var earlier, op := ops[..|ops| - 1], ops[|ops| - 1];
      var error := Validate(s, earlier);
      if error.Some? then error
      else if LeaseMissing(s, op) then Some(LeaseNotFound(op.leaseId.value))
      else if exists other :: other in earlier && Overlapping(op, other) then Some(BackendError)
      else None
  }

  predicate Changes(s: State, op: Operation) {
    op.Put? || (op.DeleteRange? && KeysInRange(s, op.start, op.end) != [])
  }

  predicate ChangesData(s: State, ops: seq<Operation>) {
    exists op :: op in ops && Changes(s, op)
  }

  // ----- Writing -----

  datatype Write = Write(key: Bytes, version: Version)

  function PutVersion(current: Option<KeyValue>, op: Operation, revision: nat): Version
    requires op.Put?
  {
    Version(revision, Some(op.value),
            if current.Some? then current.value.createRevision else revision,
            if current.Some? then current.value.version + 1 else 1,
            op.leaseId)
  }

  function Tombstone(current: KeyValue, revision: nat): Version {
    Version(revision, None, current.createRevision, current.version + 1, None)
  }

  function Tombstones(values: seq<KeyValue>, revision: nat): seq<Write> {
    seq(|values|, i requires 0 <= i < |values| => Write(values[i].key, Tombstone(values[i], revision)))
  }

  function OpWrites(s: State, op: Operation, revision: nat): seq<Write> {
    match op
    case Put(key, _, _) => [Write(key, PutVersion(ValueAt(s.history, key, s.revision), op, revision))]
    case DeleteRange(start, end) => Tombstones(Listing(s.history, start, end, s.revision), revision)
    case GetRange(_) => []
  }

  function Writes(s: State, ops: seq<Operation>, revision: nat): seq<Write> {
    if ops == [] then []
    else Writes(s, ops[..|ops| - 1], revision) + OpWrites(s, ops[|ops| - 1], revision)
  }

  function EventOf(w: Write): WatchEvent {
    var v := w.version;
    if v.value.Some? then WatchEvent(PUT, AsKeyValue(w.key, v))
    else WatchEvent(DELETE,
                    KeyValue(w.key, [], v.createRevision, v.revision, if v.version > 0 then v.version - 1 else 0, None))
  }

  function Events(writes: seq<Write>): seq<WatchEvent> {
    seq(|writes|, i requires 0 <= i < |writes| => EventOf(writes[i]))
  }

  function Append(h: History, w: Write): History {
    Set(h, w.key, Chain(h, w.key) + [w.version])
  }

  function AppendAll(h: History, writes: seq<Write>): History {
    if writes == [] then h
    else Append(AppendAll(h, writes[..|writes| - 1]), writes[|writes| - 1])
  }

  // ----- Publishing -----

  function Deliver(stream: Stream, batch: WatchBatch): Stream {
    var filtered := FilterBatch(batch, stream.start, stream.end);
    if filtered.None? then stream else stream.(queue := stream.queue + [filtered])
  }

  function DeliverAll(streams: map<WatcherId, Stream>, watchers: set<WatcherId>, batch: WatchBatch)
    : map<WatcherId, Stream>
  {
    map w | w in streams :: if w in watchers then Deliver(streams[w], batch) else streams[w]
  }

  function Publish(s: State, events: seq<WatchEvent>, revision: nat): State {
    if events == [] then s
    else
      var batch := WatchBatch(events, revision);
      s.(events := s.events + [batch], streams := DeliverAll(s.streams, s.watchers, batch))
  }

  /** Append the writes, move the revision and publish one batch. */
  function Commit(s: State, writes: seq<Write>): State {
    var revision := s.revision + 1;
    Publish(s.(history := AppendAll(s.history, writes), revision := revision), Events(writes), revision)
  }

  // ----- Transactions -----

  /** The read a transactional GetRange makes: pinned to the revision before the transaction. */
  function PinnedRequest(s: State, request: RangeRequest): RangeRequest {
    request.(revision := if s.revision == 0 then None else Some(s.revision))
  }

  function OpFailure(s: State, op: Operation): Option<Error> {
    if !op.GetRange? then None
    else if op.request.revision.Some? then Some(BackendError)
    else RangeError(s, PinnedRequest(s, op.request))
  }

  function OpResponse(s: State, op: Operation, revision: nat): Response
    requires OpFailure(s, op).None?
  {
    match op
    case Put(key, _, _) => PutResult(key, revision)
    case DeleteRange(start, end) => DeleteResult(|Listing(s.history, start, end, s.revision)|)
    case GetRange(request) => GetResult(RangePage(s, PinnedRequest(s, request)))
  }

  /** How many operations run before the first one that raises. */
  function Completed(s: State, ops: seq<Operation>): (n: nat)
    ensures n <= |ops|
    ensures forall i :: 0 <= i < n ==> OpFailure(s, ops[i]).None?
    ensures n < |ops| ==> OpFailure(s, ops[n]).Some?
  {
    if ops == [] || OpFailure(s, ops[0]).Some? then 0 else 1 + Completed(s, ops[1..])
  }

  function Responses(s: State, ops: seq<Operation>, revision: nat): seq<Response>
    requires forall i :: 0 <= i < |ops| ==> OpFailure(s, ops[i]).None?
  {
    seq(|ops|, i requires 0 <= i < |ops| => OpResponse(s, ops[i], revision))
  }

  function Execute(s: State, ops: seq<Operation>, succeeded: bool): (State, Result<TransactionResult, Error>) {
    var changed := ChangesData(s, ops);
    var revision := if changed then s.revision + 1 else s.revision;
    var n := Completed(s, ops);
    var writes := Writes(s, ops[..n], revision);
    if n < |ops| then
      (s.(history := AppendAll(s.history, writes)), Failure(OpFailure(s, ops[n]).value))
    else
      (if changed then Commit(s, writes) else s,
       Success(TransactionResult(succeeded, Responses(s, ops, revision), revision)))
  }

  function Transaction(s: State, compares: seq<Compare>, success: seq<Operation>, failure: seq<Operation>)
    : (State, Result<TransactionResult, Error>)
  {
    if s.closed then (s, Failure(BackendClosed))
    else
      var succeeded := CompareAll(s, compares);
      if succeeded.Failure? then (s, Failure(succeeded.error))
      else
        var ops := if succeeded.value then success else failure;
        var invalid := Validate(s, ops);
        if invalid.Some? then (s, Failure(invalid.value)) else Execute(s, ops, succeeded.value)
  }

  // ----- Leases -----

  function GrantLease(s: State, ttl: int): (State, Result<LeaseId, Error>) {
    if ttl <= 0 then (s, Failure(ValueError))
    else if s.closed then (s, Failure(BackendClosed))
    else
      (s.(leases := Set(s.leases, s.nextLeaseId, LeaseState(ttl, s.clock + ttl as real)),
          nextLeaseId := s.nextLeaseId + 1),
       Success(s.nextLeaseId))
  }

  function KeepAlive(s: State, id: LeaseId): (State, Result<int, Error>) {
    if s.closed then (s, Failure(BackendClosed))
    else if id !in s.leases.entries then (s, Failure(LeaseNotFound(id)))
    else
      var lease := s.leases.entries[id];
      (s.(leases := Set(s.leases, id, lease.(deadline := s.clock + lease.ttl as real))), Success(lease.ttl))
  }

  function Ceiling(x: real): int {
    if x.Floor as real == x then x.Floor else x.Floor + 1
  }

  function LeaseTimeToLive(s: State, id: LeaseId): Result<int, Error> {
    if s.closed then Failure(BackendClosed)
    else if id !in s.leases.entries then Failure(LeaseNotFound(id))
    else
      var left := Ceiling(s.leases.entries[id].deadline - s.clock);
      Success(if left > 0 then left else 0)
  }

  predicate Attached(h: History, key: Bytes, r: int, id: LeaseId) {
    var current := ValueAt(h, key, r);
    current.Some? && current.value.leaseId == Some(id)
  }

  /** The keys held by a lease, in the order the history iterates them. */
  function AttachedKeys(h: History, keys: seq<Bytes>, r: int, id: LeaseId): (attached: seq<Bytes>)
    ensures forall k :: k in attached <==> k in keys && Attached(h, k, r, id)
    ensures NoDup(keys) ==> NoDup(attached)
  {
    if keys == [] then []
    else
      var rest := AttachedKeys(h, keys[1..], r, id);
      assert keys == [keys[0]] + keys[1..];
      assert NoDup(keys) ==> NoDup(keys[1..]) && keys[0] !in keys[1..];
      if Attached(h, keys[0], r, id) then [keys[0]] + rest else rest
  }

  function Deletes(keys: seq<Bytes>): seq<Operation> {
    seq(|keys|, i requires 0 <= i < |keys| => DeleteRange(keys[i], None))
  }

  function ExpireLeaseKeys(s: State, id: LeaseId): State {
    var keys := AttachedKeys(s.history, s.history.order, s.revision, id);
    if keys == [] then s else Commit(s, Writes(s, Deletes(keys), s.revision + 1))
  }

  function DropLease(s: State, id: LeaseId): State {
    ExpireLeaseKeys(s.(leases := Pop(s.leases, id)), id)
  }

  function RevokeLease(s: State, id: LeaseId): (State, Option<Error>) {
    if s.closed then (s, Some(BackendClosed))
    else if id !in s.leases.entries then (s, Some(LeaseNotFound(id)))
    else (DropLease(s, id), None)
  }

  function ExpiredIds(leases: Dict<LeaseId, LeaseState>, ids: seq<LeaseId>, clock: real): (expired: seq<LeaseId>)
    ensures forall id :: id in expired <==>
                         id in ids && id in leases.entries && leases.entries[id].deadline <= clock
    ensures NoDup(ids) ==> NoDup(expired)
  {
    if ids == [] then []
    else
      var rest := ExpiredIds(leases, ids[1..], clock);
      assert ids == [ids[0]] + ids[1..];
      assert NoDup(ids) ==> NoDup(ids[1..]) && ids[0] !in ids[1..];
      if ids[0] in leases.entries && leases.entries[ids[0]].deadline <= clock then [ids[0]] + rest else rest
  }

  function DropLeases(s: State, ids: seq<LeaseId>): State {
    if ids == [] then s else DropLease(DropLeases(s, ids[..|ids| - 1]), ids[|ids| - 1])
  }

  function AdvanceTime(s: State, seconds: real): (State, Option<Error>) {
    if seconds < 0.0 then (s, Some(ValueError))
    else if s.closed then (s, Some(BackendClosed))
    else
      var later := s.(clock := s.clock + seconds);
      (DropLeases(later, ExpiredIds(s.leases, s.leases.order, later.clock)), None)
  }

  // ----- Compaction -----

  function NotNewer(chain: seq<Version>, r: int): seq<Version> {
    if chain == [] then []
    else
      NotNewer(chain[..|chain| - 1], r) +
      if chain[|chain| - 1].revision <= r then [chain[|chain| - 1]] else []
  }

  function Newer(chain: seq<Version>, r: int): seq<Version> {
    if chain == [] then []
    else
      Newer(chain[..|chain| - 1], r) +
      if chain[|chain| - 1].revision > r then [chain[|chain| - 1]] else []
  }

  function CompactChain(chain: seq<Version>, r: int): seq<Version> {
    var baseline := NotNewer(chain, r);
    (if baseline == [] then [] else [baseline[|baseline| - 1]]) + Newer(chain, r)
  }

  function CompactHistory(h: History, r: int): History {
    RawDict(h.order, map k | k in h.entries :: CompactChain(h.entries[k], r))
  }

  function NewerBatches(batches: seq<WatchBatch>, r: int): seq<WatchBatch> {
    if batches == [] then []
    else
      NewerBatches(batches[..|batches| - 1], r) +
      if batches[|batches| - 1].revision > r then [batches[|batches| - 1]] else []
  }

  function Compact(s: State, revision: int): (State, Option<Error>) {
    if s.closed then (s, Some(BackendClosed))
    else if revision > s.revision then (s, Some(FutureRevision(revision, s.revision)))
    else if revision <= s.compactedRevision then (s, None)
    else
      (s.(compactedRevision := revision,
          events := NewerBatches(s.events, revision),
          history := CompactHistory(s.history, revision)),
       None)
  }

  // ----- Watching -----

  /** What is left of each batch of revision `from` or later inside a range; batches left empty are dropped. */
  function Filtered(batches: seq<WatchBatch>, start: Bytes, end: Option<Bytes>, from: int): seq<WatchBatch> {
    if batches == [] then []
    else
      var batch := batches[|batches| - 1];
      var filtered := FilterBatch(batch, start, end);
      Filtered(batches[..|batches| - 1], start, end, from) +
      if batch.revision >= from && filtered.Some? then [filtered.value] else []
  }

  function Watch(s: State, start: Bytes, end: Option<Bytes>, from: int): (State, Result<WatcherId, Error>) {
    if s.closed then (s, Failure(BackendClosed))
    else if s.compactedRevision != 0 && from <= s.compactedRevision then
      (s, Failure(CompactedRevision(from, s.compactedRevision)))
    else
      var w := s.nextWatcherId;
      var stream := Stream(start, end, from, s.revision, Filtered(s.events, start, end, from), [], [], Active);
      (s.(watchers := s.watchers + {w}, streams := s.streams[w := stream], nextWatcherId := w + 1), Success(w))
  }

  datatype NextResult = Yield(batch: WatchBatch) | Stop | Blocked

  /** Resume a watch generator: the backlog first, then the queue; the stop marker ends it. */
  function Next(s: State, w: WatcherId): (State, NextResult) {
    if w !in s.streams || !s.streams[w].phase.Active? then (s, Stop)
    else
      var stream := s.streams[w];
      if stream.backlog != [] then
        (s.(streams := s.streams[w := stream.(backlog := stream.backlog[1..],
                                              yielded := stream.yielded + [stream.backlog[0]])]),
         Yield(stream.backlog[0]))
      else if stream.queue == [] then (s, Blocked)
      else if stream.queue[0].None? then
        (s.(streams := s.streams[w := stream.(queue := stream.queue[1..], phase := Finished)],
            watchers := s.watchers - {w}),
         Stop)
      else
        (s.(streams := s.streams[w := stream.(queue := stream.queue[1..],
                                              yielded := stream.yielded + [stream.queue[0].value])]),
         Yield(stream.queue[0].value))
  }

  /** The consumer abandons the generator. */
  function Cancel(s: State, w: WatcherId): State {
    if w !in s.streams || !s.streams[w].phase.Active? then s
    else s.(streams := s.streams[w := s.streams[w].(phase := Cancelled)], watchers := s.watchers - {w})
  }

  /** Queue the stop marker for some watchers. */
  function StopAll(streams: map<WatcherId, Stream>, watchers: set<WatcherId>): map<WatcherId, Stream> {
    map w | w in streams :: if w in watchers then streams[w].(queue := streams[w].queue + [None]) else streams[w]
  }

  function Close(s: State): State {
    if s.closed then s
    else s.(closed := true, streams := StopAll(s.streams, s.watchers), watchers := {})
  }
}
