/** The values that cross the etcd boundary, and how key ranges are read. */
module Backend {
  import opened Wrappers
  import opened ByteStrings

  type LeaseId = int

  datatype CompareTarget = VALUE | CREATE_REVISION | MOD_REVISION | VERSION | LEASE

  datatype CompareOperator = EQUAL | NOT_EQUAL | GREATER | LESS

  datatype Operand = BytesOperand(bytes: Bytes) | IntOperand(n: int)

  datatype KeyValue = KeyValue(
    key: Bytes, value: Bytes, createRevision: nat, modRevision: nat, version: nat, leaseId: Option<LeaseId>)

  datatype RangeRequest = RangeRequest(start: Bytes, end: Option<Bytes>, revision: Option<int>, limit: Option<int>)

  datatype RangeResult = RangeResult(
    values: seq<KeyValue>, revision: int, more: bool, nextKey: Option<Bytes>)

  datatype Compare = Compare(key: Bytes, target: CompareTarget, operator: CompareOperator, operand: Operand)

  datatype Operation =
    | Put(key: Bytes, value: Bytes, leaseId: Option<LeaseId>)
    | DeleteRange(start: Bytes, end: Option<Bytes>)
    | GetRange(request: RangeRequest)

  datatype Response =
    | PutResult(key: Bytes, revision: nat)
    | DeleteResult(deleted: nat)
    | GetResult(range: RangeResult)

  datatype TransactionResult = TransactionResult(succeeded: bool, responses: seq<Response>, revision: nat)

  datatype EventKind = PUT | DELETE

  datatype WatchEvent = WatchEvent(kind: EventKind, keyValue: KeyValue)

  datatype WatchBatch = WatchBatch(events: seq<WatchEvent>, revision: nat)

  datatype Error =
    | BackendClosed
    | BackendError
    | LeaseNotFound(id: LeaseId)
    | CompactedRevision(requested: int, compacted: nat)
    | FutureRevision(requested: int, current: nat)
    | ValueError

  // ----- Key ranges -----

  predicate KeyInRange(key: Bytes, start: Bytes, end: Option<Bytes>) {
    match end
    case None => key == start
    case Some(e) => InSpan(key, start, e)
  }

  function EffectiveEnd(start: Bytes, end: Option<Bytes>): Bytes {
    match end
    case None => start + [0]
    case Some(e) => e
  }

  predicate RangesOverlap(leftStart: Bytes, leftEnd: Option<Bytes>, rightStart: Bytes, rightEnd: Option<Bytes>) {
    var le, re := EffectiveEnd(leftStart, leftEnd), EffectiveEnd(rightStart, rightEnd);
    if le == UNBOUNDED then re == UNBOUNDED || Less(leftStart, re)
    else if re == UNBOUNDED then Less(rightStart, le)
    else Less(leftStart, re) && Less(rightStart, le)
  }

  function FilterEvents(events: seq<WatchEvent>, start: Bytes, end: Option<Bytes>): seq<WatchEvent> {
    if events == [] then []
    else
      var last := events[|events| - 1];
      FilterEvents(events[..|events| - 1], start, end) +
      if KeyInRange(last.keyValue.key, start, end) then [last] else []
  }

  function FilterBatch(batch: WatchBatch, start: Bytes, end: Option<Bytes>): Option<WatchBatch> {
    var events := FilterEvents(batch.events, start, end);
    if events == [] then None else Some(WatchBatch(events, batch.revision))
  }
}
