/** What a transaction that raises after a write leaves behind, and what becomes of it. */
module Torn {
  import opened Wrappers
  import opened Dicts
  import opened ByteStrings
  import opened Backend
  import opened Store
  import opened Views
  import opened Logs
  import opened Compaction
  import opened Commits
  import opened Runs
  import opened Snapshots
  import opened PlainMap
  import opened Acceptance

  /** The versions that an accepted transaction has appended when one of its reads raises. */
  function LeftBehind(s: State, call: Call): seq<Write> {
    if !call.DoTransaction? then []
    else
      var ops := Accepted(s, call.compares, call.success, call.failure);
      if ops.None? || Completed(s, ops.value) == |ops.value| then []
      else
        Writes(s, ops.value[..Completed(s, ops.value)],
               if ChangesData(s, ops.value) then s.revision + 1 else s.revision)
  }

  lemma {:induction false} LeftBehindExactly(s: State, call: Call)
    ensures LeftBehind(s, call) == [] <==> Guarded(s, call)
    ensures LeftBehind(s, call) != [] ==>
              !s.closed && Step(s, call) == s.(history := AppendAll(s.history, LeftBehind(s, call)))
  {
    hide Writes, AppendAll, Validate, CompareAll, ChangesData, OpFailure, Commit, OpResponse, Responses, Completed;
    if call.DoTransaction? {
      var ops := Accepted(s, call.compares, call.success, call.failure);
      if ops.Some? && Completed(s, ops.value) < |ops.value| {
        var revision := if ChangesData(s, ops.value) then s.revision + 1 else s.revision;
        NoChangeNoWrites(s, ops.value[..Completed(s, ops.value)], revision);
      }
    }
  }

  /** They are what the completed part of the transaction would have been fit to commit. */
  lemma {:induction false} LeftBehindFits(s: State, log: Log, call: Call)
    requires Inv(s, log) && LeftBehind(s, call) != []
    ensures WritesOk(At(log, |log|), LeftBehind(s, call), s.revision + 1)
  {
    var ops := Accepted(s, call.compares, call.success, call.failure).value;
    var done := ops[..Completed(s, ops)];
    AcceptedIsDisjoint(s, ops);
    hide Inv, At, Writes, OpTouches, Validate, CompareAll, WritesOk, Completed;
    assert DisjointOps(done) by {
      assert forall i :: 0 <= i < |done| ==> done[i] == ops[i];
    }
    WritesFit(s, log, done);
    assert ChangesData(s, ops) by {
      NoChangeNoWrites(s, done, s.revision);
      NoChangeNoWrites(s, done, s.revision + 1);
      assert forall op :: op in done ==> op in ops;
    }
  }

  lemma {:induction false} LastAtBound(chain: seq<Version>, r: int)
    ensures LastAt(chain, r).Some? ==> LastAt(chain, r).value.revision <= r
  {
    if chain != [] {
      LastAtBound(chain[..|chain| - 1], r);
    }
  }

  /** From the next revision on each of them is what its key reads as, for as long as nothing else writes the key. */
  lemma {:induction false} LeftoverReads(s: State, log: Log, call: Call, w: Write, r: int)
    requires Inv(s, log) && w in LeftBehind(s, call) && r > s.revision
    ensures ValueAt(Step(s, call).history, w.key, r) == LiveValue(w.key, Some(w.version))
  {
    hide Step, Inv, At, LeftBehind, AppendAll, Guarded;
    var writes := LeftBehind(s, call);
    LeftBehindExactly(s, call);
    LeftBehindFits(s, log, call);
    ChainAfter(s.history, writes, w.key);
  }

  /** One revision on, each of them reads differently from what the store shows now. */
  lemma {:induction false} LeftoverDiffers(s: State, log: Log, call: Call, w: Write)
    requires Inv(s, log) && w in LeftBehind(s, call)
    ensures var h := Step(s, call).history;
            && ValueAt(h, w.key, s.revision) == ValueAt(s.history, w.key, s.revision)
            && ValueAt(h, w.key, s.revision + 1) != ValueAt(s.history, w.key, s.revision)
  {
    hide Step, Inv, At, LeftBehind, AppendAll, Guarded;
    var writes := LeftBehind(s, call);
    LeftBehindExactly(s, call);
    LeftBehindFits(s, log, call);
    LaterWritesInvisible(s.history, writes, w.key, s.revision);
    LeftoverReads(s, log, call, w, s.revision + 1);
    LastAtBound(Chain(s.history, w.key), s.revision);
    InvNow(s, log, w.key);
    assert EventOk(At(log, |log|), EventOf(w), s.revision + 1);
  }

  /**
   Whatever was left behind shows, although no event was published for it, once a put of another key commits.
   */
  lemma {:induction false} LeftoverSurfaces(s: State, log: Log, call: Call, w: Write, other: Bytes)
    requires Inv(s, log) && w in LeftBehind(s, call) && other != w.key
    ensures var u := Transaction(Step(s, call), [], [Put(other, [], None)], []).0;
            && u.revision == s.revision + 1 && u.compactedRevision == s.compactedRevision
            && |u.events| == |s.events| + 1 && u.events[..|s.events|] == s.events
            && u.events[|s.events|].revision == u.revision && !Touches(u.events[|s.events|].events, w.key)
            && ValueAt(u.history, w.key, s.revision) == ValueAt(s.history, w.key, s.revision)
            && ValueAt(u.history, w.key, u.revision) != ValueAt(s.history, w.key, s.revision)
  {
    hide Transaction, Step, Inv, LeftBehind, ValueAt, Append, Guarded, AppendAll;
    var t, op := Step(s, call), Put(other, [], None);
    var v := Write(other, PutVersion(ValueAt(t.history, other, t.revision), op, t.revision + 1));
    LeftBehindExactly(s, call);
    LeftoverDiffers(s, log, call, w);
    PutCommits(t, op);
    ReadAfterAppend(t.history, v, w.key, s.revision);
    ReadAfterAppend(t.history, v, w.key, s.revision + 1);
  }

  // ----- Leases -----

  lemma {:induction false} DeletesWriteKeys(s: State, keys: seq<Bytes>, revision: nat, w: Write)
    requires w in Writes(s, Deletes(keys), revision)
    ensures w.key in keys
  {
    hide Writes, OpWrites;
    WritesComeFrom(s, Deletes(keys), revision, w);
    var op :| op in Deletes(keys) && w in OpWrites(s, op, revision);
    var i :| 0 <= i < |keys| && Deletes(keys)[i] == op;
    OwnKeyOnly(s, keys[i], revision, w);
  }

  lemma {:induction false} CommitAppends(s: State, writes: seq<Write>)
    ensures Commit(s, writes).history == AppendAll(s.history, writes)
  {
    hide AppendAll;
  }

  /** Expiring a lease writes no key that is not attached to it, whatever else the history holds. */
  lemma {:induction false} ExpirySpares(s: State, id: LeaseId, key: Bytes, r: int)
    requires !Attached(s.history, key, s.revision, id)
    ensures ValueAt(ExpireLeaseKeys(s, id).history, key, r) == ValueAt(s.history, key, r)
  {
    hide ValueAt, AppendAll, Attached, Writes, Commit, Deletes;
    var keys := AttachedKeys(s.history, s.history.order, s.revision, id);
    if keys != [] {
      var writes := Writes(s, Deletes(keys), s.revision + 1);
      CommitAppends(s, writes);
      forall w | w in writes ensures w.key != key {
        DeletesWriteKeys(s, keys, s.revision + 1, w);
      }
      OtherKeysUntouched(s.history, writes, key, r);
    }
  }

  lemma {:induction false} OwnKeyOnly(s: State, key: Bytes, revision: nat, w: Write)
    requires w in OpWrites(s, DeleteRange(key, None), revision)
    ensures w.key == key
  {
    ListingEnumerates(s.history, key, None, s.revision);
    hide Listing, View;
    var values := Listing(s.history, key, None, s.revision);
    var i :| 0 <= i < |values| && Tombstones(values, revision)[i] == w;
    assert values[i] in values;
  }

  lemma {:induction false} LeasedWrite(s: State, op: Operation, revision: nat, w: Write)
    requires w in OpWrites(s, op, revision) && w.version.leaseId.Some?
    ensures op.Put? && op.leaseId == w.version.leaseId && w.version.value.Some?
  {
    hide Listing, ValueAt;
  }

  lemma {:induction false} AcceptedLease(s: State, call: Call, op: Operation)
    requires call.DoTransaction?
    requires var ops := Accepted(s, call.compares, call.success, call.failure); ops.Some? && op in ops.value
    ensures !LeaseMissing(s, op)
  {
    hide Validate, CompareAll, LeaseMissing, ReportedApart;
    ValidatedExactly(s, Accepted(s, call.compares, call.success, call.failure).value);
  }

  /** A version left behind under a lease was put under a lease that exists. */
  lemma {:induction false} LeftoverLease(s: State, call: Call, w: Write)
    requires w in LeftBehind(s, call) && w.version.leaseId.Some?
    ensures w.version.value.Some? && w.version.leaseId.value in s.leases.entries
  {
    hide Accepted, Completed, Writes, OpWrites, ChangesData;
    var ops := Accepted(s, call.compares, call.success, call.failure).value;
    var done := ops[..Completed(s, ops)];
    var revision := if ChangesData(s, ops) then s.revision + 1 else s.revision;
    WritesComeFrom(s, done, revision, w);
    var op :| op in done && w in OpWrites(s, op, revision);
    LeasedWrite(s, op, revision, w);
    AcceptedLease(s, call, op);
  }

  /**
   Lease safety fails too: a version left behind under a lease that did not hold its key before outlives
   the lease. Once the lease is revoked and another key is put, it shows under a lease that is gone.
   */
  lemma {:induction false} LeftoverOutlivesLease(
    s: State, log: Log, call: Call, w: Write, id: LeaseId, other: Bytes)
    requires Inv(s, log) && w in LeftBehind(s, call) && w.version.leaseId == Some(id) && other != w.key
    requires !Attached(s.history, w.key, s.revision, id)
    ensures var (t, error) := RevokeLease(Step(s, call), id);
            var u := Transaction(t, [], [Put(other, [], None)], []).0;
            && error.None? && id !in u.leases.entries
            && Attached(u.history, w.key, u.revision, id)
  {
    hide Transaction, Step, Inv, LeftBehind, ValueAt, Append, Guarded, AppendAll, ExpireLeaseKeys;
    LeftBehindExactly(s, call);
    LeftoverLease(s, call, w);
    LeftoverDiffers(s, log, call, w);
    var torn := Step(s, call);
    var (t, op) := (RevokeLease(torn, id).0, Put(other, [], None));
    var released := torn.(leases := Pop(torn.leases, id));
    ExpiryFacts(released, id);
    var v := Write(other, PutVersion(ValueAt(t.history, other, t.revision), op, t.revision + 1));
    PutCommits(t, op);
    ReadAfterAppend(t.history, v, w.key, t.revision + 1);
    ExpirySpares(released, id, w.key, t.revision + 1);
    LeftoverReads(s, log, call, w, t.revision + 1);
  }

  lemma {:induction false} ExpiryFacts(s: State, id: LeaseId)
    ensures var t := ExpireLeaseKeys(s, id);
            t.revision >= s.revision && t.leases == s.leases && t.closed == s.closed
  {
    hide AttachedKeys, Writes, AppendAll;
  }

  // ----- When snapshots and events stay in step -----

  /** From every readable revision, the view and the retained batches after it give the current view. */
  ghost predicate Reproducible(s: State) {
    forall r: nat :: s.compactedRevision <= r <= s.revision ==>
      Replay(View(s.history, r), NewerBatches(s.events, r)) == View(s.history, s.revision)
  }

  ghost predicate StaysReproducible(w: World) {
    forall calls: seq<Call> :: Clean(w, calls) ==> Reproducible(Run(w, calls).state)
  }

  lemma {:induction false} InvariantIsReproducible(s: State, log: Log)
    requires Inv(s, log)
    ensures Reproducible(s)
  {
    hide Inv, View, Replay, NewerBatches;
    forall r: nat | s.compactedRevision <= r <= s.revision
      ensures Replay(View(s.history, r), NewerBatches(s.events, r)) == View(s.history, s.revision)
    {
      SnapshotPlusEvents(s, log, r);
    }
  }

  /** A record that differs from an earlier one without an event in the only batch since then is missed. */
  lemma {:induction false} SilentChange(u: State, events: seq<WatchBatch>, batch: WatchBatch, key: Bytes, r: nat)
    requires u.compactedRevision <= r <= u.revision && u.events == events + [batch]
    requires (forall i :: 0 <= i < |events| ==> events[i].revision <= r) && batch.revision > r
    requires !Touches(batch.events, key)
    requires ValueAt(u.history, key, r) != ValueAt(u.history, key, u.revision)
    ensures !Reproducible(u)
  {
    hide ValueAt, View, ApplyEvents;
    NoneNewer(events, r);
    assert NewerBatches(u.events, r) == [] + [batch];
    var before := View(u.history, r);
    assert [batch][..0] == [] && Replay(before, [batch]) == ApplyEvents(before, batch.events);
    UntouchedLookup(before, batch.events, key);
    ViewShows(u.history, key, r);
    ViewShows(u.history, key, u.revision);
  }

  lemma {:induction false} LeftoverIsMissed(s: State, log: Log, call: Call, w: Write, other: Bytes)
    requires Inv(s, log) && w in LeftBehind(s, call) && other != w.key
    ensures !Reproducible(Transaction(Step(s, call), [], [Put(other, [], None)], []).0)
  {
    hide *;
    RetainedRevisions(s, log);
    InvCounter(s, log);
    LeftoverSurfaces(s, log, call, w, other);
    var u := Transaction(Step(s, call), [], [Put(other, [], None)], []).0;
    var batch := u.events[|s.events|];
    assert u.events == s.events + [batch];
    SilentChange(u, s.events, batch, w.key, s.revision);
  }

  /**
   Snapshot plus events gives the current view in every clean continuation of a call if and only if the call
   is all or nothing: one that raises too late breaks it in some continuation.
   */
  lemma {:induction false} SnapshotCondition(w: World, call: Call)
    requires Inv(w.state, w.log)
    ensures StaysReproducible(Advance(w, call)) <==> Guarded(w.state, call)
  {
    hide Inv, Step, Guarded, Published, Reproducible, LeftBehind, Transaction, Clean, Run;
    var v := Advance(w, call);
    if Guarded(w.state, call) {
      StepKeepsInvariant(w.state, w.log, call);
      forall calls: seq<Call> | Clean(v, calls) ensures Reproducible(Run(v, calls).state) {
        RunKeepsInvariant(v, calls);
        InvariantIsReproducible(Run(v, calls).state, Run(v, calls).log);
      }
    } else {
      LeftBehindExactly(w.state, call);
      var left := LeftBehind(w.state, call)[0];
      var other := left.key + [0];
      LeftoverIsMissed(w.state, w.log, call, left, other);
      OnePut(v, other);
    }
  }

  // ----- A concrete transaction -----

  const KEY: Bytes := [97]
  const OTHER: Bytes := [98]
  const READ_PAST: Operation := GetRange(RangeRequest(KEY, None, Some(5), None))
  const TORN: seq<Operation> := [Put(KEY, [1], None), READ_PAST]
  const NEXT: Operation := Put(OTHER, [2], None)
  const LEFTOVER: Version := Version(1, Some([1]), 1, 1, None)

  lemma {:induction false} TornLeavesVersion()
    ensures !Guarded(INITIAL, DoTransaction([], TORN, []))
    ensures var (t, r) := Transaction(INITIAL, [], TORN, []);
            r == Failure(BackendError) && t == INITIAL.(history := RawDict([KEY], map[KEY := [LEFTOVER]]))
  {
    assert TORN[..1] == [TORN[0]] && TORN[..0] == [];
    assert [TORN[0]][..0] == [] && Validate(INITIAL, [TORN[0]]).None?;
    assert Validate(INITIAL, TORN).None?;
    assert TORN[1..] == [READ_PAST];
    assert OpFailure(INITIAL, READ_PAST) == Some(BackendError);
    assert Completed(INITIAL, TORN) == 1;
    var w := Write(KEY, LEFTOVER);
    assert Writes(INITIAL, [TORN[0]], 1) == Writes(INITIAL, [TORN[0]][..0], 1) + OpWrites(INITIAL, TORN[0], 1);
    assert Writes(INITIAL, TORN[..1], 1) == [w];
    assert [w][..0] == [];
    assert AppendAll(INITIAL.history, [w]) == Append(INITIAL.history, w);
    assert Chain(INITIAL.history, KEY) + [LEFTOVER] == [LEFTOVER] && [] + [KEY] == [KEY];
    assert Append(INITIAL.history, w).order == [KEY];
    assert Append(INITIAL.history, w) == RawDict([KEY], map[KEY := [LEFTOVER]]);
    assert Changes(INITIAL, TORN[0]) && ChangesData(INITIAL, TORN[..1]);
    assert Accepted(INITIAL, [], TORN, []) == Some(TORN);
    assert Execute(INITIAL, TORN, true) ==
           (INITIAL.(history := AppendAll(INITIAL.history, Writes(INITIAL, TORN[..1], 1))), Failure(BackendError));
  }

  /** The version left behind shows once another key is put, although no event was ever published for it. */
  lemma {:induction false} TornTransactionSurfaces()
    ensures var t := Transaction(INITIAL, [], TORN, []).0;
            var u := Transaction(t, [], [NEXT], []).0;
            && ValueAt(t.history, KEY, t.revision).None?
            && u.revision == 1 && |u.events| == 1
            && ValueAt(u.history, KEY, u.revision) == Some(KeyValue(KEY, [1], 1, 1, 1, None))
            && !Touches(u.events[0].events, KEY)
  {
    TornLeavesVersion();
    hide Transaction;
    var t := INITIAL.(history := RawDict([KEY], map[KEY := [LEFTOVER]]));
    OneLeftoverReads(t.history);
    PutCommits(t, NEXT);
    hide ValueAt;
    ReadAfterAppend(t.history, Write(OTHER, PutVersion(ValueAt(t.history, OTHER, 0), NEXT, 1)), KEY, 1);
  }

  lemma {:induction false} OneLeftoverReads(h: History)
    requires h == RawDict([KEY], map[KEY := [LEFTOVER]])
    ensures ValueAt(h, KEY, 0).None? && ValueAt(h, KEY, 1) == Some(KeyValue(KEY, [1], 1, 1, 1, None))
  {
    assert [LEFTOVER][0] == LEFTOVER && [LEFTOVER][..0] == [];
    assert Chain(h, KEY) == [LEFTOVER];
    assert LastAt([LEFTOVER], 1) == Some(LEFTOVER);
    assert LastAt([LEFTOVER], 0) == LastAt([], 0);
    assert ValueAt(h, KEY, 0) == LiveValue(KEY, None);
  }
}
