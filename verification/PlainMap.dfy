/**
 The store seen as one plain map from keys to records and a counter: a transaction reads only the map it
 started from, and its writes land together.
 */
module PlainMap {
  import opened Wrappers
  import opened Sorting
  import opened ByteStrings
  import opened Backend
  import opened Store
  import opened Views
  import opened Logs
  import opened Commits
  import opened Runs

  // ----- What a transaction does to a plain map -----

  ghost predicate PutTo(ops: seq<Operation>, key: Bytes) {
    exists op :: op in ops && op.Put? && op.key == key
  }

  ghost predicate Erases(ops: seq<Operation>, key: Bytes) {
    exists op :: op in ops && op.DeleteRange? && KeyInRange(key, op.start, op.end)
  }

  /** A put starts a record or goes on counting from the one in the map. */
  function PutRecord(m: Snapshot, op: Operation, revision: nat): KeyValue
    requires op.Put?
  {
    if op.key in m
    then KeyValue(op.key, op.value, m[op.key].createRevision, revision, m[op.key].version + 1, op.leaseId)
    else KeyValue(op.key, op.value, revision, revision, 1, op.leaseId)
  }

  /** The record of one key after the operations, whatever their order. */
  ghost function After(m: Snapshot, ops: seq<Operation>, key: Bytes, revision: nat): Option<KeyValue> {
    if PutTo(ops, key) then
      var op :| op in ops && op.Put? && op.key == key;
      Some(PutRecord(m, op, revision))
    else if Erases(ops, key) then None
    else Lookup(m, key)
  }

  ghost predicate PlainChanges(m: Snapshot, ops: seq<Operation>) {
    exists key :: PutTo(ops, key) || (key in m && Erases(ops, key))
  }

  ghost function KeysWithin(m: Snapshot, start: Bytes, end: Option<Bytes>): set<Bytes> {
    set k | k in m && KeyInRange(k, start, end)
  }

  ghost predicate Answers(m: Snapshot, op: Operation, response: Response, before: nat, after: nat) {
    match op
    case Put(key, _, _) => response == PutResult(key, after)
    case DeleteRange(start, end) => response == DeleteResult(|KeysWithin(m, start, end)|)
    case GetRange(request) =>
      && (request.limit.Some? ==> request.limit.value > 0)
      && exists values :: Enumerates(values, m, request.start, request.end)
                       && response == GetResult(Page(values, before, request.limit))
  }

  /** The reads of the operations cannot raise. */
  predicate ReadsAllowed(s: State, ops: seq<Operation>) {
    forall op :: op in ops && op.GetRange? ==>
      && op.request.revision.None?
      && (op.request.limit.Some? ==> op.request.limit.value > 0)
      && (s.compactedRevision < s.revision || s.compactedRevision == s.revision == 0)
  }

  lemma {:induction false} ReadsAllowedExactly(s: State, ops: seq<Operation>)
    requires s.compactedRevision <= s.revision
    ensures ReadsAllowed(s, ops) <==> Completed(s, ops) == |ops|
  {
    var n := Completed(s, ops);
    if n < |ops| {
      assert ops[n] in ops;
    } else {
      forall op | op in ops && op.GetRange? ensures OpFailure(s, op).None? {
        var i :| 0 <= i < |ops| && ops[i] == op;
      }
    }
  }

  // ----- Comparisons -----

  /** Byte operands belong to values, numbers to everything else. */
  predicate WellTyped(c: Compare) {
    c.operand.BytesOperand? <==> c.target.VALUE?
  }

  /** The number a record answers a comparison with; an absent key answers 0, and so does a record without lease. */
  function Counter(m: Snapshot, key: Bytes, target: CompareTarget): int
    requires !target.VALUE?
  {
    if key !in m then 0
    else if target.CREATE_REVISION? then m[key].createRevision
    else if target.MOD_REVISION? then m[key].modRevision
    else if target.VERSION? then m[key].version
    else if m[key].leaseId.Some? then m[key].leaseId.value
    else 0
  }

  /** The relation asked for, left to right: the record first, the operand second. */
  predicate Meets(m: Snapshot, c: Compare) {
    WellTyped(c) &&
    if c.target.VALUE? then
      var value := if c.key in m then m[c.key].value else [];
      && (c.operator.EQUAL? ==> value == c.operand.bytes)
      && (c.operator.NOT_EQUAL? ==> value != c.operand.bytes)
      && (c.operator.GREATER? ==> Less(c.operand.bytes, value))
      && (c.operator.LESS? ==> Less(value, c.operand.bytes))
    else
      var number := Counter(m, c.key, c.target);
      && (c.operator.EQUAL? ==> number == c.operand.n)
      && (c.operator.NOT_EQUAL? ==> number != c.operand.n)
      && (c.operator.GREATER? ==> c.operand.n < number)
      && (c.operator.LESS? ==> number < c.operand.n)
  }

  /** A comparison is answered with its relation on the map, and raises exactly when its operand is ill-typed. */
  lemma {:induction false} CompareMeets(m: Snapshot, c: Compare)
    ensures CompareOne(Lookup(m, c.key), c) == if WellTyped(c) then Success(Meets(m, c)) else Failure(BackendError)
    ensures Meets(m, c) ==> WellTyped(c)
  {
    hide Less;
  }

  /** How the operators relate: one of three holds, inequality is the complement, thresholds are monotone. */
  lemma {:induction false} ComparisonLaws(m: Snapshot, key: Bytes, target: CompareTarget, x: Operand)
    requires WellTyped(Compare(key, target, EQUAL, x))
    ensures var equal, less := Meets(m, Compare(key, target, EQUAL, x)), Meets(m, Compare(key, target, LESS, x));
            var greater := Meets(m, Compare(key, target, GREATER, x));
            && (equal || less || greater) && !(equal && less) && !(equal && greater) && !(less && greater)
            && Meets(m, Compare(key, target, NOT_EQUAL, x)) == !equal
    ensures forall n: int :: x.IntOperand? && n < x.n && Meets(m, Compare(key, target, GREATER, x)) ==>
              Meets(m, Compare(key, target, GREATER, IntOperand(n)))
    ensures forall b: Bytes :: x.BytesOperand? && Less(b, x.bytes) && Meets(m, Compare(key, target, GREATER, x)) ==>
              Meets(m, Compare(key, target, GREATER, BytesOperand(b)))
  {
    if x.BytesOperand? {
      var value := if key in m then m[key].value else [];
      LessTotal(value, x.bytes);
      LessAsymmetric(value, x.bytes);
      LessAsymmetric(x.bytes, value);
      LessIrreflexive(value);
      forall b: Bytes | Less(b, x.bytes) && Less(x.bytes, value) ensures Less(b, value) {
        LessTransitive(b, x.bytes, value);
      }
      hide Less;
    }
  }

  /** The first comparison that does not hold is number `i`. */
  predicate StopsAt(m: Snapshot, compares: seq<Compare>, i: int) {
    0 <= i < |compares| && !Meets(m, compares[i]) && forall j :: 0 <= j < i ==> Meets(m, compares[j])
  }

  /** Comparisons read the map the transaction starts from, in order, up to the first that does not hold. */
  lemma {:induction false} CompareReadsMap(s: State, log: Log, compares: seq<Compare>)
    requires Inv(s, log)
    ensures var m, r := At(log, |log|), CompareAll(s, compares);
            && (r == Success(true) <==> forall i :: 0 <= i < |compares| ==> Meets(m, compares[i]))
            && (r != Success(true) <==>
                  exists i :: StopsAt(m, compares, i)
                              && r == if WellTyped(compares[i]) then Success(false) else Failure(BackendError))
  {
    hide Inv, At, ValueAt, CompareOne, Meets, WellTyped;
    if compares != [] {
      var m := At(log, |log|);
      InvNow(s, log, compares[0].key);
      CompareMeets(m, compares[0]);
      var rest := compares[1..];
      CompareReadsMap(s, log, rest);
      if Meets(m, compares[0]) {
        var r := CompareAll(s, rest);
        assert CompareAll(s, compares) == r;
        forall i | 0 <= i < |rest| ensures rest[i] == compares[i + 1] {}
        if r != Success(true) {
          var i :| StopsAt(m, rest, i)
                  && r == if WellTyped(rest[i]) then Success(false) else Failure(BackendError);
          assert compares[i + 1] == rest[i];
          forall j | 0 <= j < i + 1 ensures Meets(m, compares[j]) {
            if j > 0 { assert Meets(m, rest[j - 1]); }
          }
          assert StopsAt(m, compares, i + 1);
        } else {
          forall i | 0 <= i < |compares| ensures Meets(m, compares[i]) {
            if i > 0 { assert Meets(m, rest[i - 1]); }
          }
        }
      } else {
        assert StopsAt(m, compares, 0);
      }
    }
  }

  // ----- Writes -----

  lemma {:induction false} WritesComeFrom(s: State, ops: seq<Operation>, revision: nat, w: Write)
    ensures w in Writes(s, ops, revision) <==> exists op :: op in ops && w in OpWrites(s, op, revision)
  {
    hide OpWrites;
    if ops != [] {
      var init, last := ops[..|ops| - 1], ops[|ops| - 1];
      WritesComeFrom(s, init, revision, w);
      assert forall op :: op in ops <==> op in init || op == last;
    }
  }

  /** A key is written by a delete only if the map holds it, and then it is removed. */
  lemma {:induction false} DeleteWrites(s: State, log: Log, start: Bytes, end: Option<Bytes>, revision: nat, key: Bytes)
    requires Inv(s, log)
    ensures var writes := OpWrites(s, DeleteRange(start, end), revision);
            && ((exists w :: w in writes && w.key == key) <==> key in At(log, |log|) && KeyInRange(key, start, end))
            && (forall w :: w in writes ==> w.version.value.None?)
  {
    hide Inv, At, ValueAt, Listing, KeyInRange;
    var values := Listing(s.history, start, end, s.revision);
    var writes := OpWrites(s, DeleteRange(start, end), revision);
    InvListing(s, log, start, end);
    EnumerationKeys(values, At(log, |log|), start, end);
    if w :| w in writes && w.key == key {
      var i :| 0 <= i < |writes| && writes[i] == w;
      assert KeysOf(values)[i] == key;
    }
    if key in KeysOf(values) {
      var i :| 0 <= i < |values| && KeysOf(values)[i] == key;
      assert writes[i] in writes && writes[i].key == key;
    }
  }

  lemma {:induction false} PutWrites(s: State, log: Log, op: Operation)
    requires Inv(s, log) && op.Put?
    ensures var writes := OpWrites(s, op, s.revision + 1);
            && |writes| == 1 && writes[0].key == op.key
            && Outcome(EventOf(writes[0])) == Some(PutRecord(At(log, |log|), op, s.revision + 1))
  {
    hide Inv, At, ValueAt;
    InvNow(s, log, op.key);
  }

  lemma {:induction false} WrittenKey(s: State, log: Log, ops: seq<Operation>, w: Write)
    requires Inv(s, log) && w in Writes(s, ops, s.revision + 1)
    ensures PutTo(ops, w.key) || (w.key in At(log, |log|) && Erases(ops, w.key) && w.version.value.None?)
  {
    hide Inv, At, ValueAt, Listing, Writes, KeyInRange, Tombstones;
    WritesComeFrom(s, ops, s.revision + 1, w);
    var op :| op in ops && w in OpWrites(s, op, s.revision + 1);
    match op
    case Put(_, _, _) => assert PutTo(ops, w.key);
    case DeleteRange(start, end) => DeleteWrites(s, log, start, end, s.revision + 1, w.key);
    case GetRange(_) =>
  }

  lemma {:induction false} PutIsWritten(s: State, log: Log, ops: seq<Operation>, op: Operation) returns (w: Write)
    requires Inv(s, log) && op in ops && op.Put?
    ensures w in Writes(s, ops, s.revision + 1) && w.key == op.key
    ensures Outcome(EventOf(w)) == Some(PutRecord(At(log, |log|), op, s.revision + 1))
  {
    hide Inv, At, EventOf, Outcome, PutRecord;
    PutWrites(s, log, op);
    w := OpWrites(s, op, s.revision + 1)[0];
    WritesComeFrom(s, ops, s.revision + 1, w);
  }

  lemma {:induction false} DeleteIsWritten(
    s: State, log: Log, ops: seq<Operation>, op: Operation, key: Bytes) returns (w: Write)
    requires Inv(s, log) && op in ops && op.DeleteRange? && KeyInRange(key, op.start, op.end)
    requires key in At(log, |log|)
    ensures w in Writes(s, ops, s.revision + 1) && w.key == key && Outcome(EventOf(w)) == None
  {
    hide Inv, At, Writes, OpWrites;
    DeleteWrites(s, log, op.start, op.end, s.revision + 1, key);
    w :| w in OpWrites(s, op, s.revision + 1) && w.key == key;
    WritesComeFrom(s, ops, s.revision + 1, w);
  }

  lemma {:induction false} WrittenOutcome(m: Snapshot, writes: seq<Write>, w: Write)
    requires DistinctWrites(writes) && w in writes
    ensures Lookup(ApplyEvents(m, Events(writes)), w.key) == Outcome(EventOf(w))
  {
    hide ApplyEvents, Outcome;
    var i :| 0 <= i < |writes| && writes[i] == w;
    var events := Events(writes);
    assert forall j :: 0 <= j < |writes| ==> events[j].keyValue.key == writes[j].key;
    TouchedLookup(m, events, i);
  }

  lemma {:induction false} NotWrittenLookup(m: Snapshot, writes: seq<Write>, key: Bytes)
    requires forall w :: w in writes ==> w.key != key
    ensures Lookup(ApplyEvents(m, Events(writes)), key) == Lookup(m, key)
  {
    hide ApplyEvents;
    var events := Events(writes);
    forall e | e in events ensures e.keyValue.key != key {
      var i :| 0 <= i < |writes| && events[i] == e;
      assert writes[i] in writes;
    }
    UntouchedLookup(m, events, key);
  }

  /** Replaying the batch of an accepted transaction gives every key the record the operations call for. */
  lemma {:induction false} BatchEffect(s: State, log: Log, ops: seq<Operation>, key: Bytes)
    requires Inv(s, log) && DisjointOps(ops)
    ensures var m := At(log, |log|);
            Lookup(ApplyEvents(m, TransactionBatch(s, ops).events), key) == After(m, ops, key, s.revision + 1)
  {
    hide Inv, At, Writes, DisjointOps, KeyInRange, Events, EventOf, PutRecord, EventOk, Outcome, ApplyEvents;
    var m, revision := At(log, |log|), s.revision + 1;
    var writes := Writes(s, ops, revision);
    WritesFit(s, log, ops);
    if PutTo(ops, key) {
      var op :| op in ops && op.Put? && op.key == key
                && After(m, ops, key, revision) == Some(PutRecord(m, op, revision));
      var w := PutIsWritten(s, log, ops, op);
      WrittenOutcome(m, writes, w);
    } else if Erases(ops, key) && key in m {
      var op :| op in ops && op.DeleteRange? && KeyInRange(key, op.start, op.end);
      var w := DeleteIsWritten(s, log, ops, op, key);
      WrittenOutcome(m, writes, w);
    } else {
      forall w | w in writes ensures w.key != key {
        WrittenKey(s, log, ops, w);
      }
      NotWrittenLookup(m, writes, key);
    }
  }

  lemma {:induction false} ChangesAgree(s: State, log: Log, ops: seq<Operation>)
    requires Inv(s, log)
    ensures ChangesData(s, ops) <==> PlainChanges(At(log, |log|), ops)
  {
    hide Inv, At, KeyInRange, Writes;
    var m := At(log, |log|);
    NoChangeNoWrites(s, ops, s.revision + 1);
    var writes := Writes(s, ops, s.revision + 1);
    if writes != [] {
      WrittenKey(s, log, ops, writes[0]);
    }
    if key :| PutTo(ops, key) || (key in m && Erases(ops, key)) {
      if PutTo(ops, key) {
        var op :| op in ops && op.Put? && op.key == key;
        var w := PutIsWritten(s, log, ops, op);
      } else {
        var op :| op in ops && op.DeleteRange? && KeyInRange(key, op.start, op.end);
        var w := DeleteIsWritten(s, log, ops, op, key);
      }
    }
  }

  // ----- The refinement -----

  lemma {:induction false} DistinctCount(keys: seq<Bytes>)
    requires NoDup(keys)
    ensures |set k | k in keys| == |keys|
  {
    if keys != [] {
      var init, last := keys[..|keys| - 1], keys[|keys| - 1];
      DistinctCount(init);
      assert (set k | k in keys) == (set k | k in init) + {last};
    }
  }

  lemma {:induction false} ListingCount(values: seq<KeyValue>, m: Snapshot, start: Bytes, end: Option<Bytes>)
    requires Enumerates(values, m, start, end)
    ensures |values| == |KeysWithin(m, start, end)|
  {
    hide KeyInRange;
    ListedKeysDistinct(values, m, start, end);
    EnumerationKeys(values, m, start, end);
    DistinctCount(KeysOf(values));
    assert KeysWithin(m, start, end) == set k | k in KeysOf(values);
  }

  /** Every response is an answer about the map before the transaction. */
  lemma {:induction false} ResponseAnswers(s: State, log: Log, op: Operation, revision: nat)
    requires Inv(s, log) && OpFailure(s, op).None?
    ensures Answers(At(log, |log|), op, OpResponse(s, op, revision), s.revision, revision)
  {
    hide Inv, At, ValueAt, Listing, Enumerates, Page;
    match op
    case Put(_, _, _) =>
    case DeleteRange(start, end) =>
      InvListing(s, log, start, end);
      ListingCount(Listing(s.history, start, end, s.revision), At(log, |log|), start, end);
    case GetRange(request) =>
      InvListing(s, log, request.start, request.end);
  }

  /**
   An accepted transaction whose reads cannot raise is one step of the plain map: it answers from the map
   before, every key gets the record the operations call for, and the counter moves by one exactly when
   the map changes hands.
   */
  lemma {:induction false} TransactionRefines(s: State, log: Log, ops: seq<Operation>, succeeded: bool)
    requires Inv(s, log) && Validate(s, ops).None? && ReadsAllowed(s, ops)
    ensures var m := At(log, |log|);
            var (t, r) := Execute(s, ops, succeeded);
            && t.revision == s.revision + (if PlainChanges(m, ops) then 1 else 0)
            && (forall key :: ValueAt(t.history, key, t.revision) == After(m, ops, key, s.revision + 1))
            && r.Success? && r.value.revision == t.revision && r.value.succeeded == succeeded
            && |r.value.responses| == |ops|
            && (forall i :: 0 <= i < |ops| ==>
                  Answers(m, ops[i], r.value.responses[i], s.revision, t.revision))
  {
    InvCounter(s, log);
    ReadsAllowedExactly(s, ops);
    ChangesAgree(s, log, ops);
    hide Inv, Validate, ReadsAllowed, At, ChangesData, PlainChanges, OpResponse, OpFailure, After, Answers, Writes,
      AppendAll, Events, ValueAt;
    var m := At(log, |log|);
    var (t, r) := Execute(s, ops, succeeded);
    assert ops[..|ops|] == ops;
    forall key ensures ValueAt(t.history, key, t.revision) == After(m, ops, key, s.revision + 1) {
      ExecutedView(s, log, ops, succeeded, key);
    }
    forall i | 0 <= i < |ops| ensures Answers(m, ops[i], r.value.responses[i], s.revision, t.revision) {
      ResponseAnswers(s, log, ops[i], t.revision);
    }
  }

  lemma {:induction false} ExecutedView(s: State, log: Log, ops: seq<Operation>, succeeded: bool, key: Bytes)
    requires Inv(s, log) && Validate(s, ops).None? && Completed(s, ops) == |ops|
    ensures var t := Execute(s, ops, succeeded).0;
            ValueAt(t.history, key, t.revision) == After(At(log, |log|), ops, key, s.revision + 1)
  {
    hide *;
    ChangesAgree(s, log, ops);
    AcceptedIsDisjoint(s, ops);
    ExecuteKeepsInvariant(s, log, ops, succeeded);
    var m := At(log, |log|);
    var t := Execute(s, ops, succeeded).0;
    if ChangesData(s, ops) {
      var batch := TransactionBatch(s, ops);
      InvNow(t, log + [batch], key);
      AtNext(log + [batch], |log|);
      AtPrefix(log, [batch], |log|);
      BatchEffect(s, log, ops, key);
    } else {
      InvNow(s, log, key);
      UnchangedAfter(m, ops, key, s.revision + 1);
    }
  }

  lemma {:induction false} UnchangedAfter(m: Snapshot, ops: seq<Operation>, key: Bytes, revision: nat)
    requires !PlainChanges(m, ops)
    ensures After(m, ops, key, revision) == Lookup(m, key)
  {}

  /**
   The whole call, wherever it is all or nothing: it fails and nothing changes, or the branch its
   comparisons choose is one step of the plain map.
   */
  lemma {:induction false} WholeTransactionRefines(
    s: State, log: Log, compares: seq<Compare>, success: seq<Operation>, failure: seq<Operation>)
    requires Inv(s, log) && Guarded(s, DoTransaction(compares, success, failure))
    ensures var m := At(log, |log|);
            var (t, r) := Transaction(s, compares, success, failure);
            var all := forall i :: 0 <= i < |compares| ==> Meets(m, compares[i]);
            var ops := if all then success else failure;
            && (r.Failure? ==> t == s)
            && (r.Success? ==>
                  && r.value.succeeded == all
                  && t.revision == r.value.revision == s.revision + (if PlainChanges(m, ops) then 1 else 0)
                  && (forall key :: ValueAt(t.history, key, t.revision) == After(m, ops, key, s.revision + 1))
                  && |r.value.responses| == |ops|
                  && (forall i :: 0 <= i < |ops| ==>
                        Answers(m, ops[i], r.value.responses[i], s.revision, t.revision)))
  {
    CompareReadsMap(s, log, compares);
    InvCounter(s, log);
    AtomicityCondition(s, compares, success, failure);
    var ops := Accepted(s, compares, success, failure);
    if ops.Some? && Completed(s, ops.value) == |ops.value| {
      ReadsAllowedExactly(s, ops.value);
      hide ReadsAllowed, Completed;
      TransactionRefines(s, log, ops.value, CompareAll(s, compares).value);
    }
    hide Inv, At, Meets, PlainChanges, After, Validate, ValueAt, Answers, Guarded;
    hide Commit, Writes, ChangesData, CompareAll;
  }
}
