/** The writes of an accepted transaction and of a lease expiry are fit to be committed. */
module Commits {
  import opened Wrappers
  import opened Sorting
  import opened ByteStrings
  import opened Backend
  import opened Ranges
  import opened Store
  import opened Views
  import opened Logs

  predicate OpTouches(op: Operation, key: Bytes) {
    IsWrite(op) && KeyInRange(key, WriteStart(op), WriteEnd(op))
  }

  /** No key lies in the write ranges of two operations. */
  ghost predicate DisjointOps(ops: seq<Operation>) {
    forall i, j, key :: 0 <= i < j < |ops| ==> !(OpTouches(ops[i], key) && OpTouches(ops[j], key))
  }

  /** The writes of one operation: in its range, one per key, built on what the store shows. */
  lemma {:induction false} OpWritesFit(s: State, log: Log, op: Operation)
    requires Inv(s, log)
    ensures WritesOk(At(log, |log|), OpWrites(s, op, s.revision + 1), s.revision + 1)
    ensures forall w :: w in OpWrites(s, op, s.revision + 1) ==> OpTouches(op, w.key)
  {
    hide Inv, At, ValueAt, Listing;
    match op
    case Put(key, _, _) =>
      InvNow(s, log, key);
      LessAppend(key);
    case DeleteRange(start, end) =>
      InvListing(s, log, start, end);
      ListedKeysDistinct(Listing(s.history, start, end, s.revision), At(log, |log|), start, end);
      TombstonesFit(Listing(s.history, start, end, s.revision), At(log, |log|), start, end, s.revision + 1);
    case GetRange(_) =>
  }

  lemma {:induction false} InvNow(s: State, log: Log, key: Bytes)
    requires Inv(s, log)
    ensures |log| == s.revision && ValueAt(s.history, key, s.revision) == Lookup(At(log, |log|), key)
  {
    InvShows(s, log, key, s.revision);
  }

  lemma {:induction false} InvListing(s: State, log: Log, start: Bytes, end: Option<Bytes>)
    requires Inv(s, log)
    ensures |log| == s.revision
    ensures Enumerates(Listing(s.history, start, end, s.revision), At(log, |log|), start, end)
  {
    InvView(s, log, s.revision);
    ListingEnumerates(s.history, start, end, s.revision);
  }

  lemma {:induction false} LessAppend(k: Bytes)
    ensures Less(k, k + [0])
  {
    SuccessorIsImmediate(k, k);
  }

  lemma {:induction false} ListedKeysDistinct(values: seq<KeyValue>, m: Snapshot, start: Bytes, end: Option<Bytes>)
    requires Enumerates(values, m, start, end)
    ensures NoDup(KeysOf(values))
  {
    KeyOrder();
  }

  lemma {:induction false} TombstonesFit(
    values: seq<KeyValue>, m: Snapshot, start: Bytes, end: Option<Bytes>, revision: nat)
    requires Enumerates(values, m, start, end) && NoDup(KeysOf(values))
    ensures WritesOk(m, Tombstones(values, revision), revision)
    ensures forall w :: w in Tombstones(values, revision) ==> KeyInRange(w.key, start, end)
  {
    var writes := Tombstones(values, revision);
    forall i, j | 0 <= i < j < |writes| ensures writes[i].key != writes[j].key {
      assert KeysOf(values)[i] != KeysOf(values)[j];
    }
    forall w | w in writes
      ensures w.version.revision == revision && EventOk(m, EventOf(w), revision) && KeyInRange(w.key, start, end)
    {
      var i :| 0 <= i < |writes| && writes[i] == w;
      assert values[i] in values;
    }
  }

  /** Operations that share no key write every key at most once. */
  lemma {:induction false} WritesFit(s: State, log: Log, ops: seq<Operation>)
    requires Inv(s, log) && DisjointOps(ops)
    ensures WritesOk(At(log, |log|), Writes(s, ops, s.revision + 1), s.revision + 1)
    ensures forall w :: w in Writes(s, ops, s.revision + 1) ==> exists op :: op in ops && OpTouches(op, w.key)
  {
    hide Inv, At, OpWrites, OpTouches, EventOk;
    if ops != [] {
      var init, last := ops[..|ops| - 1], ops[|ops| - 1];
      WritesFit(s, log, init);
      OpWritesFit(s, log, last);
      var a, b := Writes(s, init, s.revision + 1), OpWrites(s, last, s.revision + 1);
      forall i, j | 0 <= i < |a| && 0 <= j < |b| ensures a[i].key != b[j].key {
        assert a[i] in a && b[j] in b;
        var op :| op in init && OpTouches(op, a[i].key);
        var at :| 0 <= at < |init| && init[at] == op;
        assert ops[at] == op;
      }
      forall w | w in a + b ensures exists op :: op in ops && OpTouches(op, w.key) {
        if w in a {
          var op :| op in init && OpTouches(op, w.key);
          assert op in ops;
        } else {
          assert last in ops && OpTouches(last, w.key);
        }
      }
    }
  }

  // ----- Accepted transactions -----

  lemma {:induction false} AcceptedPairs(s: State, ops: seq<Operation>)
    requires Validate(s, ops).None?
    ensures forall i, j :: 0 <= i < j < |ops| ==> !Overlapping(ops[j], ops[i])
  {
    hide Overlapping, LeaseMissing;
    if ops != [] {
      AcceptedPairs(s, ops[..|ops| - 1]);
      forall i | 0 <= i < |ops| - 1 ensures !Overlapping(ops[|ops| - 1], ops[i]) {
        assert ops[i] in ops[..|ops| - 1];
      }
    }
  }

  /** Validation leaves no key to two writes. */
  lemma {:induction false} AcceptedIsDisjoint(s: State, ops: seq<Operation>)
    requires Validate(s, ops).None?
    ensures DisjointOps(ops)
  {
    AcceptedPairs(s, ops);
    hide RangesOverlap, KeyInRange, Validate;
    forall i, j, key | 0 <= i < j < |ops| ensures !(OpTouches(ops[i], key) && OpTouches(ops[j], key)) {
      if OpTouches(ops[i], key) && OpTouches(ops[j], key) {
        SharedKeyOverlaps(key, WriteStart(ops[j]), WriteEnd(ops[j]), WriteStart(ops[i]), WriteEnd(ops[i]));
      }
    }
  }

  /** The batch a transaction publishes. */
  function TransactionBatch(s: State, ops: seq<Operation>): WatchBatch {
    WatchBatch(Events(Writes(s, ops, s.revision + 1)), s.revision + 1)
  }

  lemma {:induction false} ExecuteKeepsInvariant(s: State, log: Log, ops: seq<Operation>, succeeded: bool)
    requires Inv(s, log) && Validate(s, ops).None? && Completed(s, ops) == |ops|
    ensures var t := Execute(s, ops, succeeded).0;
            if ChangesData(s, ops)
            then t.events == s.events + [TransactionBatch(s, ops)] && Inv(t, log + [TransactionBatch(s, ops)])
            else t == s
  {
    hide Inv, Validate, DisjointOps, WritesOk, Commit, Completed, ChangesData, Writes, OpFailure, OpResponse, Responses,
      AppendAll, Events, At;
    AcceptedIsDisjoint(s, ops);
    if ChangesData(s, ops) {
      assert ops[..|ops|] == ops;
      WritesFit(s, log, ops);
      NoChangeNoWrites(s, ops, s.revision + 1);
      InvCounter(s, log);
      CommitKeepsInvariant(s, log, Writes(s, ops, s.revision + 1));
    }
  }

  lemma {:induction false} OnePutWrites(s: State, op: Operation)
    requires op.Put?
    ensures Completed(s, [op]) == 1 && ChangesData(s, [op])
    ensures Writes(s, [op], s.revision + 1)
         == [Write(op.key, PutVersion(ValueAt(s.history, op.key, s.revision), op, s.revision + 1))]
  {
    hide ValueAt, PutVersion;
    assert [op][1..] == [] && Changes(s, op) && op in [op];
    assert [op][..0] == [] && Writes(s, [op][..0], s.revision + 1) == [];
  }

  lemma {:induction false} OneAppended(h: History, w: Write)
    ensures AppendAll(h, [w]) == Append(h, w) && Events([w]) == [EventOf(w)]
  {
    hide Append, EventOf;
    assert [w][..0] == [];
  }

  lemma {:induction false} OnePutAccepted(s: State, op: Operation)
    requires op.Put? && op.leaseId.None?
    ensures Validate(s, [op]).None?
  {
    assert [op][..0] == [];
  }

  /** A put without a lease, on its own, always goes through. */
  lemma {:induction false} PutCommits(s: State, op: Operation)
    requires op.Put? && op.leaseId.None? && !s.closed
    ensures var w := Write(op.key, PutVersion(ValueAt(s.history, op.key, s.revision), op, s.revision + 1));
            var (u, r) := Transaction(s, [], [op], []);
            && r.Success? && u == Commit(s, [w])
            && u.revision == s.revision + 1 && u.history == Append(s.history, w)
            && u.events == s.events + [WatchBatch([EventOf(w)], s.revision + 1)]
  {
    hide ValueAt, Append, AppendAll, EventOf, Events, PutVersion, Writes, Completed, ChangesData, Validate, DeliverAll,
      Responses;
    var w := Write(op.key, PutVersion(ValueAt(s.history, op.key, s.revision), op, s.revision + 1));
    OnePutWrites(s, op);
    OnePutAccepted(s, op);
    OneAppended(s.history, w);
    assert [op][..1] == [op];
  }

  // ----- Lease expiry -----

  lemma {:induction false} DeletesAreDisjoint(keys: seq<Bytes>)
    requires NoDup(keys)
    ensures DisjointOps(Deletes(keys))
  {}

  lemma {:induction false} LiveKeyIsDeleted(s: State, log: Log, key: Bytes)
    requires Inv(s, log) && ValueAt(s.history, key, s.revision).Some?
    ensures Changes(s, DeleteRange(key, None))
  {
    hide Inv, At, ValueAt, Listing;
    InvListing(s, log, key, None);
    InvNow(s, log, key);
    assert KeyInRange(key, key, None);
    EnumerationKeys(Listing(s.history, key, None, s.revision), At(log, |log|), key, None);
    assert key in KeysInRange(s, key, None);
  }

  function ExpiryBatch(s: State, id: LeaseId): WatchBatch {
    TransactionBatch(s, Deletes(AttachedKeys(s.history, s.history.order, s.revision, id)))
  }

  lemma {:induction false} ExpireKeepsInvariant(s: State, log: Log, id: LeaseId)
    requires Inv(s, log)
    ensures var t := ExpireLeaseKeys(s, id);
            if AttachedKeys(s.history, s.history.order, s.revision, id) == [] then t == s
            else t.events == s.events + [ExpiryBatch(s, id)] && Inv(t, log + [ExpiryBatch(s, id)])
  {
    hide Inv, WritesOk, Commit, Writes, ChangesData, Changes, ValueAt, DisjointOps, At, Events, NoDup;
    var keys := AttachedKeys(s.history, s.history.order, s.revision, id);
    if keys != [] {
      var ops := Deletes(keys);
      DeletesAreDisjoint(keys);
      WritesFit(s, log, ops);
      assert Attached(s.history, keys[0], s.revision, id);
      LiveKeyIsDeleted(s, log, keys[0]);
      ChangesMember(s, ops, 0);
      NoChangeNoWrites(s, ops, s.revision + 1);
      InvCounter(s, log);
      CommitKeepsInvariant(s, log, Writes(s, ops, s.revision + 1));
    }
  }

  lemma {:induction false} ChangesMember(s: State, ops: seq<Operation>, i: nat)
    requires i < |ops| && Changes(s, ops[i])
    ensures ChangesData(s, ops)
  {}
}
