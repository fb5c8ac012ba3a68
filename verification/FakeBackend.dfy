/**
 The in-memory backend as it runs: fields updated in place, half-updated history read while a
 transaction executes. Each public method is proved to be the atomic step `Store` gives for it.
 */
module FakeBackend {
  import opened Wrappers
  import opened Sorting
  import opened Dicts
  import opened ByteStrings
  import opened Backend
  import opened Store
  import opened Views

  // ----- Facts about the specification that the loops need -----

  lemma {:induction false} OneMoreKey(h: History, keys: seq<Bytes>, i: nat, start: Bytes, end: Option<Bytes>, r: int)
    requires i < |keys|
    ensures var value := ValueAt(h, keys[i], r);
            Collect(h, keys[i..], start, end, r)
            == (if KeyInRange(keys[i], start, end) && value.Some? then [value.value] else [])
               + Collect(h, keys[i + 1..], start, end, r)
  {
    hide ValueAt, KeyInRange;
    assert keys[i..][0] == keys[i] && keys[i..][1..] == keys[i + 1..];
  }

  lemma {:induction false} NothingListed(h: History, start: Bytes, end: Option<Bytes>, r: int)
    ensures Collect(h, [], start, end, r) == []
  {}

  /** Listings do not see writes of a later revision either. */
  lemma {:induction false} LaterWritesUnlisted(h: History, writes: seq<Write>, start: Bytes, end: Option<Bytes>, r: int)
    requires forall w :: w in writes ==> w.version.revision > r
    ensures Listing(AppendAll(h, writes), start, end, r) == Listing(h, start, end, r)
  {
    var half := AppendAll(h, writes);
    forall k ensures ValueAt(half, k, r) == ValueAt(h, k, r) {
      LaterWritesInvisible(h, writes, k, r);
    }
    SameListing(half, h, start, end, r, r);
  }

  /** An operation reads only the current revision of the history. */
  lemma {:induction false} OperationReads(s: State, h: History, op: Operation, revision: nat)
    requires forall k :: ValueAt(h, k, s.revision) == ValueAt(s.history, k, s.revision)
    requires OpFailure(s, op).None? && OpFailure(s.(history := h), op).None?
    ensures OpWrites(s.(history := h), op, revision) == OpWrites(s, op, revision)
    ensures OpResponse(s.(history := h), op, revision) == OpResponse(s, op, revision)
  {
    match op
    case Put(key, _, _) =>
    case DeleteRange(start, end) =>
      SameListing(h, s.history, start, end, s.revision, s.revision);
    case GetRange(request) =>
      SameListing(h, s.history, request.start, request.end, s.revision, s.revision);
  }

  /** Whether an operation raises does not depend on what is stored. */
  lemma {:induction false} FailureIgnoresHistory(s: State, h: History, op: Operation)
    ensures OpFailure(s.(history := h), op) == OpFailure(s, op)
  {}

  /** Midway through a transaction an operation still does what it would have done before it. */
  lemma {:induction false} OperationIsPinned(s: State, ops: seq<Operation>, n: nat, revision: nat, half: State)
    requires n < |ops|
    requires revision == if ChangesData(s, ops) then s.revision + 1 else s.revision
    requires half == s.(history := AppendAll(s.history, Writes(s, ops[..n], revision)))
    ensures OpFailure(half, ops[n]) == OpFailure(s, ops[n])
    ensures OpFailure(s, ops[n]).None? ==>
              && OpWrites(half, ops[n], revision) == OpWrites(s, ops[n], revision)
              && OpResponse(half, ops[n], revision) == OpResponse(s, ops[n], revision)
  {
    var writes := Writes(s, ops[..n], revision);
    WritesSoFarAreLater(s, ops, n, revision);
    FailureIgnoresHistory(s, half.history, ops[n]);
    if OpFailure(s, ops[n]).None? {
      forall k ensures ValueAt(half.history, k, s.revision) == ValueAt(s.history, k, s.revision) {
        LaterWritesInvisible(s.history, writes, k, s.revision);
      }
      OperationReads(s, half.history, ops[n], revision);
    }
  }

  lemma {:induction false} SingleWrite(h: History, w: Write)
    ensures AppendAll(h, [w]) == Append(h, w)
    ensures Events([w]) == [EventOf(w)]
  {
    assert [w][..0] == [];
  }

  lemma {:induction false} OneMoreWrite(h: History, writes: seq<Write>, n: nat)
    requires n < |writes|
    ensures AppendAll(h, writes[..n + 1]) == Append(AppendAll(h, writes[..n]), writes[n])
    ensures Events(writes[..n + 1]) == Events(writes[..n]) + [EventOf(writes[n])]
  {
    hide Append, EventOf;
    assert writes[..n + 1][..n] == writes[..n];
  }

  lemma {:induction false} NoChangeNothingAppended(s: State, ops: seq<Operation>, revision: nat)
    requires !ChangesData(s, ops)
    ensures AppendAll(s.history, Writes(s, ops, revision)) == s.history
  {
    NoChangeNoWrites(s, ops, revision);
  }

  lemma {:induction false} NothingYet(s: State, ops: seq<Operation>, revision: nat)
    ensures AppendAll(s.history, Writes(s, ops[..0], revision)) == s.history
    ensures Events(Writes(s, ops[..0], revision)) == []
  {}

  lemma {:induction false} WritesSoFarAreLater(s: State, ops: seq<Operation>, n: nat, revision: nat)
    requires n <= |ops|
    requires revision == if ChangesData(s, ops) then s.revision + 1 else s.revision
    ensures forall w :: w in Writes(s, ops[..n], revision) ==> w.version.revision > s.revision
  {
    WritesCarryRevision(s, ops[..n], revision);
    NoChangeNoWrites(s, ops[..n], revision);
  }

  /** One more operation: its writes join those before it. */
  lemma {:induction false} OneMore(s: State, ops: seq<Operation>, n: nat, revision: nat)
    requires n < |ops|
    ensures Writes(s, ops[..n + 1], revision) == Writes(s, ops[..n], revision) + OpWrites(s, ops[n], revision)
    ensures AppendAll(s.history, Writes(s, ops[..n + 1], revision))
         == AppendAll(AppendAll(s.history, Writes(s, ops[..n], revision)), OpWrites(s, ops[n], revision))
    ensures Events(Writes(s, ops[..n + 1], revision))
         == Events(Writes(s, ops[..n], revision)) + Events(OpWrites(s, ops[n], revision))
  {
    hide OpWrites, AppendAll, EventOf;
    assert ops[..n + 1][..n] == ops[..n];
    AppendAllConcat(s.history, Writes(s, ops[..n], revision), OpWrites(s, ops[n], revision));
  }

  lemma {:induction false} OneMoreDelete(s: State, keys: seq<Bytes>, n: nat, revision: nat)
    requires n < |keys| && revision > s.revision
    ensures var ops := Deletes(keys);
            var half := AppendAll(s.history, Writes(s, ops[..n], revision));
            var tombstones := Tombstones(Listing(half, keys[n], None, s.revision), revision);
            && AppendAll(s.history, Writes(s, ops[..n + 1], revision)) == AppendAll(half, tombstones)
            && Events(Writes(s, ops[..n + 1], revision)) == Events(Writes(s, ops[..n], revision)) + Events(tombstones)
  {
    var ops := Deletes(keys);
    OneMore(s, ops, n, revision);
    WritesCarryRevision(s, ops[..n], revision);
    LaterWritesUnlisted(s.history, Writes(s, ops[..n], revision), keys[n], None, s.revision);
  }

  /** A history whose first `n` keys, in iteration order, are compacted. */
  ghost function PartlyCompacted(h: History, n: nat, r: int): History
    requires n <= |h.order|
  {
    RawDict(h.order, map k | k in h.entries ::
              if k in h.order[..n] then CompactChain(h.entries[k], r) else h.entries[k])
  }

  lemma {:induction false} OneMoreCompacted(h: History, n: nat, r: int)
    requires n < |h.order|
    ensures var half, key := PartlyCompacted(h, n, r), h.order[n];
            && key in half.entries
            && Set(half, key, CompactChain(half.entries[key], r)) == PartlyCompacted(h, n + 1, r)
  {
    hide CompactChain;
    assert h.order[n] in h.order && h.order[n] !in h.order[..n];
    assert h.order[..n + 1] == h.order[..n] + [h.order[n]];
  }

  lemma {:induction false} PartlyCompactedEnds(h: History, r: int)
    ensures PartlyCompacted(h, 0, r) == h
    ensures PartlyCompacted(h, |h.order|, r) == CompactHistory(h, r)
  {
    hide CompactChain;
    assert h.order[..|h.order|] == h.order;
  }

  lemma {:induction false} FirstErrorStays(s: State, ops: seq<Operation>, n: nat)
    requires n <= |ops| && Validate(s, ops[..n]).Some?
    ensures Validate(s, ops) == Validate(s, ops[..n])
  {
    if n == |ops| {
      assert ops[..n] == ops;
    } else {
      assert ops[..|ops| - 1][..n] == ops[..n];
      FirstErrorStays(s, ops[..|ops| - 1], n);
    }
  }

  /** `self._history[key].append(version)` */
  function AppendVersion(h: History, key: Bytes, version: Version): (r: History)
    ensures r == Append(h, Write(key, version))
  {
    Set(h, key, Get(h, key, []) + [version])
  }

  lemma {:induction false} NothingAppended(h: History)
    ensures AppendAll(h, []) == h && Events([]) == []
  {}

  /** While listed keys are deleted one after the other, the next one still reads as listed. */
  lemma {:induction false} UntouchedSoFar(h: History, values: seq<KeyValue>, i: nat, r: int, revision: nat)
    requires i < |values| && NoDup(KeysOf(values)) && ValueAt(h, values[i].key, r) == Some(values[i])
    ensures ValueAt(AppendAll(h, Tombstones(values, revision)[..i]), values[i].key, r) == Some(values[i])
  {
    var tombstones := Tombstones(values, revision);
    forall w | w in tombstones[..i] ensures w.key != values[i].key {
      var j :| 0 <= j < i && tombstones[j] == w;
      assert KeysOf(values)[j] != KeysOf(values)[i];
    }
    OtherKeysUntouched(h, tombstones[..i], values[i].key, r);
  }

  lemma {:induction false} DistinctListedKeys(h: History, start: Bytes, end: Option<Bytes>, r: int)
    ensures var values := Listing(h, start, end, r);
            && NoDup(KeysOf(values))
            && (forall i :: 0 <= i < |values| ==> ValueAt(h, values[i].key, r) == Some(values[i]))
  {
    var values := Listing(h, start, end, r);
    ListingEnumerates(h, start, end, r);
    KeyOrder();
    forall i | 0 <= i < |values| ensures ValueAt(h, values[i].key, r) == Some(values[i]) {
      assert values[i] in values;
      ViewShows(h, values[i].key, r);
    }
  }

  // ----- Validation -----

  /** The ranges validation has recorded after some operations. */
  ghost function WriteRanges(ops: seq<Operation>): seq<(Bytes, Option<Bytes>)> {
    if ops == [] then []
    else
      var last := ops[|ops| - 1];
      WriteRanges(ops[..|ops| - 1]) + if IsWrite(last) then [(WriteStart(last), WriteEnd(last))] else []
  }

  lemma {:induction false} OneMoreRange(ops: seq<Operation>, n: nat)
    requires n < |ops|
    ensures ops[..n + 1][..n] == ops[..n] && ops[..n + 1][n] == ops[n]
    ensures WriteRanges(ops[..n + 1])
         == WriteRanges(ops[..n]) + if IsWrite(ops[n]) then [(WriteStart(ops[n]), WriteEnd(ops[n]))] else []
  {}

  lemma {:induction false} RangesRecorded(ops: seq<Operation>, w: (Bytes, Option<Bytes>))
    ensures w in WriteRanges(ops) <==> exists op :: op in ops && IsWrite(op) && w == (WriteStart(op), WriteEnd(op))
  {
    hide WriteStart, WriteEnd;
    if ops != [] {
      RangesRecorded(ops[..|ops| - 1], w);
      assert forall op :: op in ops <==> op in ops[..|ops| - 1] || op == ops[|ops| - 1];
    }
  }

  lemma {:induction false} OverlapWithin(earlier: seq<Operation>, op: Operation)
    requires IsWrite(op)
    ensures (exists w :: w in WriteRanges(earlier) && RangesOverlap(WriteStart(op), WriteEnd(op), w.0, w.1))
       <==> (exists other :: other in earlier && Overlapping(op, other))
  {
    hide RangesOverlap, WriteRanges;
    if w :| w in WriteRanges(earlier) && RangesOverlap(WriteStart(op), WriteEnd(op), w.0, w.1) {
      RangesRecorded(earlier, w);
      var other :| other in earlier && IsWrite(other) && w == (WriteStart(other), WriteEnd(other));
      assert Overlapping(op, other);
    }
    if other :| other in earlier && Overlapping(op, other) {
      RangesRecorded(earlier, (WriteStart(other), WriteEnd(other)));
    }
  }

  lemma {:induction false} NoOverlapWithRead(earlier: seq<Operation>, op: Operation)
    requires !IsWrite(op)
    ensures !exists other :: other in earlier && Overlapping(op, other)
  {}

  // ----- The backend -----

  lemma {:induction false} OneMoreStopped(streams: map<WatcherId, Stream>, stopped: set<WatcherId>, w: WatcherId)
    requires w !in stopped
    ensures var half := StopAll(streams, stopped);
            StopAll(streams, stopped + {w})
            == if w in half then half[w := half[w].(queue := half[w].queue + [None])] else half
  {}

  lemma {:induction false} NoneStopped(streams: map<WatcherId, Stream>)
    ensures StopAll(streams, {}) == streams
  {}

  class FakeEtcdBackend {
    var revision: nat
    var compactedRevision: nat
    var history: History
    var events: seq<WatchBatch>
    var watchers: set<WatcherId>
    var streams: map<WatcherId, Stream>
    var nextWatcherId: WatcherId
    var leases: Dict<LeaseId, LeaseState>
    var nextLeaseId: LeaseId
    var clock: real
    var closed: bool

    function Contents(): State
      reads this
    {
      State(revision, compactedRevision, history, events, watchers, streams, nextWatcherId,
            leases, nextLeaseId, clock, closed)
    }

    constructor ()
      ensures Contents() == INITIAL
    {
      revision, compactedRevision := 0, 0;
      history, events := RawDict([], map[]), [];
      watchers, streams, nextWatcherId := {}, map[], 0;
      leases, nextLeaseId := RawDict([], map[]), 1;
      clock, closed := 0.0, false;
    }

    /** Read one page of the view at the requested, or else the current, revision. */
    method Range(request: RangeRequest) returns (r: Result<RangeResult, Error>)
      ensures r == Store.Range(Contents(), request)
      ensures r.Success? <==>
                && !closed
                && (request.limit.Some? ==> request.limit.value > 0)
                && (request.revision.Some? ==>
                      && request.revision.value <= revision
                      && (compactedRevision == 0 || request.revision.value > compactedRevision))
      ensures r.Failure? ==>
                r.error == if closed then BackendClosed
                           else if request.limit.Some? && request.limit.value <= 0 then ValueError
                           else if compactedRevision != 0 && request.revision.value <= compactedRevision
                           then CompactedRevision(request.revision.value, compactedRevision)
                           else FutureRevision(request.revision.value, revision)
      ensures r.Success? ==>
                && r.value.revision == (if request.revision.Some? then request.revision.value else revision)
                && PageOf(r.value, View(history, r.value.revision), request.start, request.end, request.limit)
    {
      if closed {
        return Failure(BackendClosed);
      }
      r := RangeUnlocked(request);
      if r.Success? {
        PageShows(history, request.start, request.end, r.value.revision, request.limit);
      }
    }

    /** One pass over the sorted keys. */
    method ListUnlocked(start: Bytes, end: Option<Bytes>, revision: int) returns (values: seq<KeyValue>)
      ensures values == Listing(history, start, end, revision)
    {
      hide KeyInRange, ValueAt, Sorted, Collect;
      var keys := Sorted(KeyLess, history.order);
      values := [];
      for i := 0 to |keys|
        invariant values + Collect(history, keys[i..], start, end, revision) == Listing(history, start, end, revision)
      {
        OneMoreKey(history, keys, i, start, end, revision);
        if KeyInRange(keys[i], start, end) {
          var value := ValueAt(history, keys[i], revision);
          if value.Some? {
            values := values + [value.value];
          }
        }
      }
      assert keys[|keys|..] == [];
      NothingListed(history, start, end, revision);
    }

    /** The checks, the listing, and the cut at the limit. */
    method RangeUnlocked(request: RangeRequest) returns (r: Result<RangeResult, Error>)
      ensures r == Store.RangeUnlocked(Contents(), request)
    {
      hide Listing;
      if request.limit.Some? && request.limit.value <= 0 {
        return Failure(ValueError);
      }
      var revision: int := this.revision;
      if request.revision.Some? {
        revision := request.revision.value;
        if compactedRevision != 0 && revision <= compactedRevision {
          return Failure(CompactedRevision(revision, compactedRevision));
        }
        if revision > this.revision {
          return Failure(FutureRevision(revision, this.revision));
        }
      }
      var values := ListUnlocked(request.start, request.end, revision);
      var more := request.limit.Some? && |values| > request.limit.value;
      if more {
        values := values[..request.limit.value];
      }
      var nextKey := if more then Some(values[|values| - 1].key + [0]) else None;
      return Success(RangeResult(values, revision, more, nextKey));
    }

    method ValidateTransaction(ops: seq<Operation>) returns (error: Option<Error>)
      ensures error == Validate(Contents(), ops)
    {
      hide Overlapping, WriteStart, WriteEnd, RangesOverlap;
      ghost var s := Contents();
      var writeRanges: seq<(Bytes, Option<Bytes>)> := [];
      var i := 0;
      while i < |ops|
        invariant 0 <= i <= |ops|
        invariant Validate(s, ops[..i]).None?
        invariant writeRanges == WriteRanges(ops[..i])
      {
        var op := ops[i];
        OneMoreRange(ops, i);
        if op.Put? && op.leaseId.Some? && op.leaseId.value !in leases.entries {
          FirstErrorStays(s, ops, i + 1);
          return Some(LeaseNotFound(op.leaseId.value));
        }
        if IsWrite(op) {
          var candidate := (WriteStart(op), WriteEnd(op));
          OverlapWithin(ops[..i], op);
          if exists w :: w in writeRanges && RangesOverlap(candidate.0, candidate.1, w.0, w.1) {
            FirstErrorStays(s, ops, i + 1);
            return Some(BackendError);
          }
          writeRanges := writeRanges + [candidate];
        } else {
          NoOverlapWithRead(ops[..i], op);
        }
        i := i + 1;
      }
      assert ops[..i] == ops;
      return None;
    }

    method TransactionChangesData(ops: seq<Operation>) returns (changes: bool)
      ensures changes == ChangesData(Contents(), ops)
    {
      hide Listing;
      for i := 0 to |ops|
        invariant !ChangesData(Contents(), ops[..i])
      {
        if ops[i].Put? {
          assert Changes(Contents(), ops[i]);
          return true;
        }
        if ops[i].DeleteRange? && KeysInRange(Contents(), ops[i].start, ops[i].end) != [] {
          assert Changes(Contents(), ops[i]);
          return true;
        }
        assert ops[..i + 1] == ops[..i] + [ops[i]];
      }
      assert ops[..|ops|] == ops;
      return false;
    }

    method PutUnlocked(op: Operation, revision: nat) returns (keyValue: KeyValue)
      requires op.Put?
      modifies this`history
      ensures var w := Write(op.key, PutVersion(ValueAt(old(history), op.key, this.revision), op, revision));
              history == Append(old(history), w) && WatchEvent(PUT, keyValue) == EventOf(w)
    {
      var current := ValueAt(history, op.key, this.revision);
      var createRevision := if current.Some? then current.value.createRevision else revision;
      var version := if current.Some? then current.value.version + 1 else 1;
      var stored := Version(revision, Some(op.value), createRevision, version, op.leaseId);
      history := AppendVersion(history, op.key, stored);
      keyValue := AsKeyValue(op.key, stored);
    }

    method DeleteUnlocked(start: Bytes, end: Option<Bytes>, revision: nat)
      returns (deleted: nat, events: seq<WatchEvent>)
      modifies this`history
      ensures var values := Listing(old(history), start, end, this.revision);
              && history == AppendAll(old(history), Tombstones(values, revision))
              && events == Events(Tombstones(values, revision))
              && deleted == |values|
    {
      hide Listing, AppendAll, Append, ValueAt, WellFormed;
      ghost var values := Listing(history, start, end, this.revision);
      ghost var tombstones := Tombstones(values, revision);
      ghost var before := history;
      DistinctListedKeys(history, start, end, this.revision);
      NothingAppended(history);
      var keys := KeysInRange(Contents(), start, end);
      events := [];
      for i := 0 to |keys|
        invariant history == AppendAll(before, tombstones[..i])
        invariant events == Events(tombstones[..i])
      {
        var key := keys[i];
        UntouchedSoFar(before, values, i, this.revision, revision);
        var current := ValueAt(history, key, this.revision);
        var version := Version(revision, None, current.value.createRevision, current.value.version + 1, None);
        history := AppendVersion(history, key, version);
        events := events + [WatchEvent(DELETE, KeyValue(
          key, [], current.value.createRevision, revision, current.value.version, None))];
        OneMoreWrite(before, tombstones, i);
      }
      assert tombstones[..|keys|] == tombstones;
      deleted := |keys|;
    }

    method PublishUnlocked(events: seq<WatchEvent>, revision: nat)
      modifies this`events, this`streams
      ensures Contents() == Publish(old(Contents()), events, revision)
    {
      if events == [] {
        return;
      }
      var batch := WatchBatch(events, revision);
      this.events := this.events + [batch];
      var todo := watchers;
      while todo != {}
        invariant todo <= watchers
        invariant this.events == old(this.events) + [batch]
        invariant streams == DeliverAll(old(streams), watchers - todo, batch)
        decreases todo
      {
        var w :| w in todo;
        if w in streams {
          var filtered := FilterBatch(batch, streams[w].start, streams[w].end);
          if filtered.Some? {
            streams := streams[w := streams[w].(queue := streams[w].queue + [filtered])];
          }
        }
        assert watchers - (todo - {w}) == (watchers - todo) + {w};
        todo := todo - {w};
      }
      assert watchers - todo == watchers;
    }

    method Transaction(compares: seq<Compare>, success: seq<Operation>, failure: seq<Operation>)
      returns (r: Result<TransactionResult, Error>)
      modifies this
      ensures (Contents(), r) == Store.Transaction(old(Contents()), compares, success, failure)
    {
      if closed {
        return Failure(BackendClosed);
      }
      var succeeded := CompareAll(Contents(), compares);
      if succeeded.Failure? {
        return Failure(succeeded.error);
      }
      var ops := if succeeded.value then success else failure;
      var invalid := ValidateTransaction(ops);
      if invalid.Some? {
        return Failure(invalid.value);
      }
      r := ExecuteUnlocked(ops, succeeded.value);
    }

    /** The body of the transaction loop for one operation. */
    method PerformUnlocked(op: Operation, revision: nat) returns (r: Result<(Response, seq<WatchEvent>), Error>)
      modifies this`history
      ensures r.Failure? ==> history == old(history) && OpFailure(old(Contents()), op) == Some(r.error)
      ensures r.Success? ==>
                && OpFailure(old(Contents()), op).None?
                && history == AppendAll(old(history), OpWrites(old(Contents()), op, revision))
                && r.value == (OpResponse(old(Contents()), op, revision),
                               Events(OpWrites(old(Contents()), op, revision)))
    {
      match op
      case Put(key, _, _) =>
        ghost var w := OpWrites(Contents(), op, revision);
        SingleWrite(history, w[0]);
        var keyValue := PutUnlocked(op, revision);
        r := Success((PutResult(key, revision), [WatchEvent(PUT, keyValue)]));
      case DeleteRange(start, end) =>
        var deleted, events := DeleteUnlocked(start, end, revision);
        r := Success((DeleteResult(deleted), events));
      case GetRange(request) =>
        if request.revision.Some? {
          return Failure(BackendError);
        }
        var page := RangeUnlocked(RangeRequest(
          request.start, request.end, if this.revision == 0 then None else Some(this.revision), request.limit));
        if page.Failure? {
          return Failure(page.error);
        }
        NothingAppended(history);
        r := Success((GetResult(page.value), []));
    }

    method ExecuteUnlocked(ops: seq<Operation>, succeeded: bool) returns (r: Result<TransactionResult, Error>)
      modifies this
      ensures (Contents(), r) == Execute(old(Contents()), ops, succeeded)
    {
      hide Writes, AppendAll, OpWrites, OpResponse, OpFailure, Events, ChangesData;
      ghost var s := Contents();
      var changed := TransactionChangesData(ops);
      var revision := if changed then this.revision + 1 else this.revision;
      var responses: seq<Response> := [];
      var events: seq<WatchEvent> := [];
      var i := 0;
      NothingYet(s, ops, revision);
      while i < |ops|
        invariant 0 <= i <= Completed(s, ops)
        invariant Contents() == s.(history := AppendAll(s.history, Writes(s, ops[..i], revision)))
        invariant responses == Responses(s, ops[..i], revision)
        invariant events == Events(Writes(s, ops[..i], revision))
      {
        OperationIsPinned(s, ops, i, revision, Contents());
        OneMore(s, ops, i, revision);
        var outcome := PerformUnlocked(ops[i], revision);
        if outcome.Failure? {
          return Failure(outcome.error);
        }
        responses := responses + [outcome.value.0];
        events := events + outcome.value.1;
        assert ops[..i + 1] == ops[..i] + [ops[i]];
        i := i + 1;
      }
      assert ops[..i] == ops;
      if changed {
        this.revision := revision;
        PublishUnlocked(events, revision);
      } else {
        NoChangeNothingAppended(s, ops, revision);
      }
      r := Success(TransactionResult(succeeded, responses, this.revision));
    }

    method GrantLease(ttl: int) returns (r: Result<LeaseId, Error>)
      modifies this
      ensures (Contents(), r) == Store.GrantLease(old(Contents()), ttl)
      ensures r == if ttl <= 0 then Failure(ValueError) else if closed then Failure(BackendClosed)
                   else Success(old(nextLeaseId))
    {
      if ttl <= 0 {
        return Failure(ValueError);
      }
      if closed {
        return Failure(BackendClosed);
      }
      var id := nextLeaseId;
      nextLeaseId := nextLeaseId + 1;
      leases := Set(leases, id, LeaseState(ttl, clock + ttl as real));
      return Success(id);
    }

    method KeepAlive(id: LeaseId) returns (r: Result<int, Error>)
      modifies this
      ensures (Contents(), r) == Store.KeepAlive(old(Contents()), id)
      ensures r == if closed then Failure(BackendClosed)
                   else if id !in old(leases.entries) then Failure(LeaseNotFound(id))
                   else Success(old(leases.entries)[id].ttl)
    {
      if closed {
        return Failure(BackendClosed);
      }
      if id !in leases.entries {
        return Failure(LeaseNotFound(id));
      }
      var lease := leases.entries[id];
      leases := Set(leases, id, lease.(deadline := clock + lease.ttl as real));
      return Success(lease.ttl);
    }

    method LeaseTimeToLive(id: LeaseId) returns (r: Result<int, Error>)
      ensures r == Store.LeaseTimeToLive(Contents(), id)
      ensures r.Success? <==> !closed && id in leases.entries
      ensures r.Failure? ==> r.error == if closed then BackendClosed else LeaseNotFound(id)
      ensures r.Success? ==>
                var left := leases.entries[id].deadline - clock;
                if left <= 0.0 then r.value == 0 else left <= r.value as real < left + 1.0
    {
      if closed {
        return Failure(BackendClosed);
      }
      if id !in leases.entries {
        return Failure(LeaseNotFound(id));
      }
      var left := Ceiling(leases.entries[id].deadline - clock);
      return Success(if left > 0 then left else 0);
    }

    method ExpireLeaseKeysUnlocked(id: LeaseId)
      modifies this`history, this`revision, this`events, this`streams
      ensures Contents() == ExpireLeaseKeys(old(Contents()), id)
    {
      hide Listing, Writes, OpWrites, AppendAll, Events, Tombstones, Attached, WellFormed, Publish;
      ghost var s := Contents();
      var keys := AttachedKeys(history, history.order, revision, id);
      if keys == [] {
        return;
      }
      var next := revision + 1;
      ghost var ops := Deletes(keys);
      var events: seq<WatchEvent> := [];
      NothingYet(s, ops, next);
      for i := 0 to |keys|
        invariant Contents() == s.(history := AppendAll(s.history, Writes(s, ops[..i], next)))
        invariant events == Events(Writes(s, ops[..i], next))
      {
        OneMoreDelete(s, keys, i, next);
        var _, deleted := DeleteUnlocked(keys[i], None, next);
        events := events + deleted;
      }
      assert ops[..|keys|] == ops;
      revision := next;
      PublishUnlocked(events, next);
    }

    method RevokeLease(id: LeaseId) returns (error: Option<Error>)
      modifies this
      ensures (Contents(), error) == Store.RevokeLease(old(Contents()), id)
      ensures error == if old(closed) then Some(BackendClosed)
                       else if id !in old(leases.entries) then Some(LeaseNotFound(id)) else None
    {
      if closed {
        return Some(BackendClosed);
      }
      if id !in leases.entries {
        return Some(LeaseNotFound(id));
      }
      DropLeaseUnlocked(id);
      return None;
    }

    method DropLeaseUnlocked(id: LeaseId)
      modifies this`leases, this`history, this`revision, this`events, this`streams
      ensures Contents() == DropLease(old(Contents()), id)
    {
      leases := Pop(leases, id);
      ExpireLeaseKeysUnlocked(id);
    }

    method AdvanceTime(seconds: real) returns (error: Option<Error>)
      modifies this
      ensures (Contents(), error) == Store.AdvanceTime(old(Contents()), seconds)
      ensures error == if seconds < 0.0 then Some(ValueError) else if old(closed) then Some(BackendClosed) else None
    {
      hide DropLease, ExpiredIds;
      if seconds < 0.0 {
        return Some(ValueError);
      }
      if closed {
        return Some(BackendClosed);
      }
      clock := clock + seconds;
      ghost var later := Contents();
      var expired := ExpiredIds(leases, leases.order, clock);
      for i := 0 to |expired|
        invariant Contents() == DropLeases(later, expired[..i])
      {
        assert expired[..i + 1][..i] == expired[..i];
        DropLeaseUnlocked(expired[i]);
      }
      assert expired[..|expired|] == expired;
      return None;
    }

    method Compact(revision: int) returns (error: Option<Error>)
      modifies this
      ensures (Contents(), error) == Store.Compact(old(Contents()), revision)
      ensures error == if old(closed) then Some(BackendClosed)
                       else if revision > old(this.revision) then Some(FutureRevision(revision, old(this.revision)))
                       else None
    {
      if closed {
        return Some(BackendClosed);
      }
      if revision > this.revision {
        return Some(FutureRevision(revision, this.revision));
      }
      if revision <= compactedRevision {
        return None;
      }
      hide CompactChain, NewerBatches, PartlyCompacted, CompactHistory, Set, WellFormed;
      compactedRevision := revision;
      events := NewerBatches(events, revision);
      ghost var before := history;
      var keys := history.order;
      PartlyCompactedEnds(before, revision);
      for i := 0 to |keys|
        invariant Contents() == old(Contents()).(
                    compactedRevision := revision, events := NewerBatches(old(events), revision),
                    history := PartlyCompacted(before, i, revision))
      {
        OneMoreCompacted(before, i, revision);
        CompactKey(keys[i], revision);
      }
      return None;
    }

    /** Keep the newest version at or below the bound, and everything above it. */
    method CompactKey(key: Bytes, revision: int)
      requires key in history.entries
      modifies this`history
      ensures history == Set(old(history), key, CompactChain(old(history).entries[key], revision))
    {
      var versions := history.entries[key];
      var baseline := NotNewer(versions, revision);
      var newer := Newer(versions, revision);
      history := Set(history, key, (if baseline == [] then [] else [baseline[|baseline| - 1]]) + newer);
    }

    method Watch(start: Bytes, end: Option<Bytes>, startRevision: int) returns (r: Result<WatcherId, Error>)
      modifies this
      ensures (Contents(), r) == Store.Watch(old(Contents()), start, end, startRevision)
      ensures r.Success? <==> old(!closed && (compactedRevision == 0 || startRevision > compactedRevision))
      ensures r.Failure? ==>
                r.error == if old(closed) then BackendClosed else CompactedRevision(startRevision, compactedRevision)
    {
      if closed {
        return Failure(BackendClosed);
      }
      if compactedRevision != 0 && startRevision <= compactedRevision {
        return Failure(CompactedRevision(startRevision, compactedRevision));
      }
      var w := nextWatcherId;
      nextWatcherId := nextWatcherId + 1;
      var backlog := Filtered(events, start, end, startRevision);
      streams := streams[w := Stream(start, end, startRevision, revision, backlog, [], [], Active)];
      watchers := watchers + {w};
      return Success(w);
    }

    method Next(w: WatcherId) returns (r: NextResult)
      modifies this
      ensures (Contents(), r) == Store.Next(old(Contents()), w)
    {
      if w !in streams || !streams[w].phase.Active? {
        return Stop;
      }
      var stream := streams[w];
      if stream.backlog != [] {
        var batch := stream.backlog[0];
        streams := streams[w := stream.(backlog := stream.backlog[1..], yielded := stream.yielded + [batch])];
        return Yield(batch);
      }
      if stream.queue == [] {
        return Blocked;
      }
      var item := stream.queue[0];
      stream := stream.(queue := stream.queue[1..]);
      if item.None? {
        streams := streams[w := stream.(phase := Finished)];
        watchers := watchers - {w};
        return Stop;
      }
      streams := streams[w := stream.(yielded := stream.yielded + [item.value])];
      return Yield(item.value);
    }

    method Cancel(w: WatcherId)
      modifies this
      ensures Contents() == Store.Cancel(old(Contents()), w)
    {
      if w in streams && streams[w].phase.Active? {
        streams := streams[w := streams[w].(phase := Cancelled)];
        watchers := watchers - {w};
      }
    }

    method Close()
      modifies this
      ensures Contents() == Store.Close(old(Contents()))
    {
      hide StopAll;
      if closed {
        return;
      }
      closed := true;
      ghost var before := streams;
      NoneStopped(before);
      assert watchers - watchers == {};
      var todo := watchers;
      while todo != {}
        invariant todo <= watchers && streams == StopAll(before, watchers - todo)
        invariant Contents() == old(Contents()).(closed := true, streams := streams)
        decreases todo
      {
        var w :| w in todo;
        OneMoreStopped(before, watchers - todo, w);
        assert watchers - (todo - {w}) == watchers - todo + {w};
        if w in streams {
          streams := streams[w := streams[w].(queue := streams[w].queue + [None])];
        }
        todo := todo - {w};
      }
      assert watchers - {} == watchers;
      watchers := {};
    }
  }
}
