/** What a record says about its own past: revisions, versions, and comparisons on them. */
module Records {
  import opened Wrappers
  import opened ByteStrings
  import opened Backend
  import opened Store
  import opened Views
  import opened Logs
  import opened Commits
  import opened Runs
  import opened PlainMap

  lemma {:induction false} TouchedNext(log: Log, r: nat, key: Bytes) returns (e: WatchEvent)
    requires GoodLog(log) && r < |log| && Touches(log[r].events, key)
    ensures e in log[r].events && e.keyValue.key == key && EventOk(At(log, r), e, r + 1)
    ensures Lookup(At(log, r + 1), key) == Outcome(e)
  {
    assert BatchOk(At(log, r), log[r], r + 1);
    hide ApplyEvents, EventOk, Outcome, GoodLog, At;
    var i :| 0 <= i < |log[r].events| && log[r].events[i].keyValue.key == key;
    e := log[r].events[i];
    AtNext(log, r);
    TouchedLookup(At(log, r), log[r].events, i);
  }

  lemma {:induction false} UntouchedNext(log: Log, r: nat, key: Bytes)
    requires r < |log| && !Touches(log[r].events, key)
    ensures Lookup(At(log, r + 1), key) == Lookup(At(log, r), key)
  {
    hide ApplyEvents, At;
    AtNext(log, r);
    UntouchedLookup(At(log, r), log[r].events, key);
  }

  /** The record of `key` at revision `r` was there, unchanged and untouched, ever since the put at its mod revision. */
  ghost predicate StandsSince(log: Log, r: nat, key: Bytes, kv: KeyValue)
    requires r <= |log|
  {
    && kv.key == key && 1 <= kv.modRevision <= r
    && (forall q: nat :: kv.modRevision <= q <= r ==> Lookup(At(log, q), key) == Some(kv))
    && (forall q: nat :: kv.modRevision <= q < r ==> !Touches(log[q].events, key))
    && WatchEvent(PUT, kv) in log[kv.modRevision - 1].events
  }

  lemma {:induction false} RecordStandsSince(log: Log, r: nat, key: Bytes)
    requires GoodLog(log) && r <= |log| && Lookup(At(log, r), key).Some?
    ensures StandsSince(log, r, key, Lookup(At(log, r), key).value)
  {
    hide GoodLog, ApplyEvents, Replay;
    if r == 0 {
      EmptyStart(log);
    } else if Touches(log[r - 1].events, key) {
      var e := TouchedNext(log, r - 1, key);
    } else {
      UntouchedNext(log, r - 1, key);
      RecordStandsSince(log, r - 1, key);
    }
  }

  // ----- Incarnations -----

  ghost predicate PutIn(batch: WatchBatch, key: Bytes) {
    exists e :: e in batch.events && e.kind.PUT? && e.keyValue.key == key
  }

  /** How many of the batches with revisions in (from, to] put the key. */
  ghost function Puts(log: Log, from: nat, to: nat, key: Bytes): nat
    requires from <= to <= |log|
  {
    if from == to then 0 else Puts(log, from, to - 1, key) + if PutIn(log[to - 1], key) then 1 else 0
  }

  /** The record at `r` belongs to an incarnation begun by a put on an absent key, and counts its puts. */
  ghost predicate Incarnation(log: Log, r: nat, key: Bytes, kv: KeyValue)
    requires r <= |log|
  {
    && 1 <= kv.createRevision <= kv.modRevision <= r
    && key !in At(log, kv.createRevision - 1)
    && (forall q: nat :: kv.createRevision <= q <= r ==> key in At(log, q))
    && kv.version == Puts(log, kv.createRevision - 1, r, key)
    && 1 <= kv.version <= kv.modRevision - kv.createRevision + 1
  }

  lemma {:induction false} RecordCountsPuts(log: Log, r: nat, key: Bytes)
    requires GoodLog(log) && r <= |log| && Lookup(At(log, r), key).Some?
    ensures Incarnation(log, r, key, Lookup(At(log, r), key).value)
  {
    hide GoodLog, ApplyEvents, Replay, At;
    if r == 0 {
      EmptyStart(log);
    } else {
      var kv := Lookup(At(log, r), key).value;
      if Touches(log[r - 1].events, key) {
        var e := TouchedNext(log, r - 1, key);
        assert e.kind.PUT? && PutIn(log[r - 1], key);
        if key in At(log, r - 1) {
          RecordCountsPuts(log, r - 1, key);
        } else {
          assert Puts(log, r - 1, r, key) == 0 + 1;
        }
      } else {
        UntouchedNext(log, r - 1, key);
        RecordCountsPuts(log, r - 1, key);
        assert !PutIn(log[r - 1], key);
      }
    }
  }

  lemma {:induction false} EmptyStart(log: Log)
    ensures At(log, 0) == map[]
  {}

  /**
   At every readable revision, after any compaction: a live record's version is the number of puts since
   its creation, the key was there all along, and the three counters are 0 for an absent key only.
   */
  lemma {:induction false} LiveRecords(s: State, log: Log, key: Bytes, r: nat)
    requires Inv(s, log) && s.compactedRevision <= r <= s.revision
    ensures var current := ValueAt(s.history, key, r);
            && (current.Some? ==> StandsSince(log, r, key, current.value) && Incarnation(log, r, key, current.value))
            && (Actual(current, CREATE_REVISION) == IntOperand(0) <==> current.None?)
            && (Actual(current, MOD_REVISION) == IntOperand(0) <==> current.None?)
            && (Actual(current, VERSION) == IntOperand(0) <==> current.None?)
  {
    InvShows(s, log, key, r);
    InvGoodLog(s, log);
    InvCounter(s, log);
    hide Inv, GoodLog, ValueAt, At, Puts, Touches;
    if Lookup(At(log, r), key).Some? {
      RecordStandsSince(log, r, key);
      RecordCountsPuts(log, r, key);
    }
  }

  /** What the comparisons clients use mean: presence, absence, a lease's hold, and a value. */
  lemma {:induction false} ComparisonsTell(s: State, log: Log, key: Bytes)
    requires Inv(s, log)
    ensures var m := At(log, |log|);
            && (Meets(m, Compare(key, VERSION, GREATER, IntOperand(0))) <==> key in m)
            && (forall t: CompareTarget :: t.CREATE_REVISION? || t.MOD_REVISION? || t.VERSION? ==>
                  (Meets(m, Compare(key, t, EQUAL, IntOperand(0))) <==> key !in m))
            && (forall id: int :: id != 0 ==>
                  (Meets(m, Compare(key, LEASE, EQUAL, IntOperand(id))) <==> key in m && m[key].leaseId == Some(id)))
            && (forall v: Bytes :: v != [] ==>
                  (Meets(m, Compare(key, VALUE, EQUAL, BytesOperand(v))) <==> key in m && m[key].value == v))
  {
    InvGoodLog(s, log);
    hide Inv, GoodLog, At, Puts, Touches;
    if key in At(log, |log|) {
      RecordCountsPuts(log, |log|, key);
    }
    ComparisonsOf(At(log, |log|), key);
    hide Meets;
  }

  /** Of any map whose records count from one. */
  lemma {:induction false} ComparisonsOf(m: Snapshot, key: Bytes)
    requires key in m ==> m[key].createRevision > 0 && m[key].modRevision > 0 && m[key].version > 0
    ensures Meets(m, Compare(key, VERSION, GREATER, IntOperand(0))) <==> key in m
    ensures forall t: CompareTarget :: t.CREATE_REVISION? || t.MOD_REVISION? || t.VERSION? ==>
              (Meets(m, Compare(key, t, EQUAL, IntOperand(0))) <==> key !in m)
    ensures forall id: int :: id != 0 ==>
              (Meets(m, Compare(key, LEASE, EQUAL, IntOperand(id))) <==> key in m && m[key].leaseId == Some(id))
    ensures forall v: Bytes :: v != [] ==>
              (Meets(m, Compare(key, VALUE, EQUAL, BytesOperand(v))) <==> key in m && m[key].value == v)
  {
    hide Less;
  }

  // ----- Compare and swap -----

  predicate Committed(s: State, call: Call) {
    call.DoTransaction? &&
    var r := Transaction(s, call.compares, call.success, call.failure).1;
    r.Success? && r.value.succeeded
  }

  lemma {:induction false} CommittedCompares(s: State, log: Log, call: Call, c: Compare)
    requires Inv(s, log) && Committed(s, call) && c in call.compares
    ensures Meets(At(log, |log|), c)
  {
    CompareReadsMap(s, log, call.compares);
    hide Inv, At, Meets, Validate, Execute;
    var i :| 0 <= i < |call.compares| && call.compares[i] == c;
  }

  /**
   No ABA: if a transaction that compares a key's mod revision with m > 0 goes through, the key's record
   has been the same at every revision from m to now, and no event touched it in between.
   */
  lemma {:induction false} CompareModRevision(s: State, log: Log, call: Call, key: Bytes, m: nat)
    requires Inv(s, log) && Committed(s, call) && m > 0
    requires Compare(key, MOD_REVISION, EQUAL, IntOperand(m)) in call.compares
    ensures key in At(log, |log|) && At(log, |log|)[key].modRevision == m
    ensures StandsSince(log, |log|, key, At(log, |log|)[key])
  {
    CommittedCompares(s, log, call, Compare(key, MOD_REVISION, EQUAL, IntOperand(m)));
    InvGoodLog(s, log);
    InvCounter(s, log);
    hide Inv, GoodLog, At, Transaction;
    RecordStandsSince(log, |log|, key);
  }

  /** So a record a client has read, at any earlier revision, is still the record it swaps. */
  lemma {:induction false} SwapsWhatWasRead(s: State, log: Log, call: Call, key: Bytes, seenAt: nat, seen: KeyValue)
    requires Inv(s, log) && Committed(s, call)
    requires seenAt <= |log| && Lookup(At(log, seenAt), key) == Some(seen)
    requires Compare(key, MOD_REVISION, EQUAL, IntOperand(seen.modRevision)) in call.compares
    ensures Lookup(At(log, |log|), key) == Some(seen)
  {
    InvGoodLog(s, log);
    InvCounter(s, log);
    RecordStandsSince(log, seenAt, key);
    hide Inv, GoodLog, At, Transaction;
    CompareModRevision(s, log, call, key, seen.modRevision);
    assert Lookup(At(log, seenAt), key) == Some(At(log, |log|)[key]);
  }

  // ----- Claims -----

  /** A put-if-absent that went through. */
  ghost predicate Claims(s: State, call: Call, key: Bytes) {
    && Committed(s, call)
    && Compare(key, CREATE_REVISION, EQUAL, IntOperand(0)) in call.compares
    && PutTo(call.success, key)
  }

  lemma {:induction false} ClaimFoundNothing(s: State, log: Log, call: Call, key: Bytes)
    requires Inv(s, log) && Claims(s, call, key)
    ensures key !in At(log, |log|)
  {
    CommittedCompares(s, log, call, Compare(key, CREATE_REVISION, EQUAL, IntOperand(0)));
    InvGoodLog(s, log);
    InvCounter(s, log);
    hide Inv, GoodLog, At, Transaction, PutTo;
    if key in At(log, |log|) {
      RecordCountsPuts(log, |log|, key);
    }
  }

  lemma {:induction false} CommittedExecutes(s: State, call: Call)
    requires Committed(s, call)
    ensures Validate(s, call.success).None? && Completed(s, call.success) == |call.success|
    ensures Step(s, call) == Execute(s, call.success, true).0
    ensures Guarded(s, call)
  {
    hide CompareAll, Validate, Commit, Writes, ChangesData, OpFailure, OpResponse, Responses, AppendAll;
  }

  lemma {:induction false} ClaimLeavesRecord(w: World, call: Call, key: Bytes)
    requires Inv(w.state, w.log) && Claims(w.state, call, key)
    ensures var v := Advance(w, call); Inv(v.state, v.log) && key in At(v.log, |v.log|)
  {
    hide Inv, At, Execute, ValueAt, PutTo, Step, Guarded, Published;
    CommittedExecutes(w.state, call);
    StepKeepsInvariant(w.state, w.log, call);
    ExecutedView(w.state, w.log, call.success, true, key);
    var v := Advance(w, call);
    InvNow(v.state, v.log, key);
    InvNow(w.state, w.log, key);
  }

  lemma {:induction false} GoneMeansDeleted(log: Log, from: nat, to: nat, key: Bytes)
    requires GoodLog(log) && from <= to <= |log| && key in At(log, from) && key !in At(log, to)
    ensures exists i, e :: from <= i < to && e in log[i].events && e.kind.DELETE? && e.keyValue.key == key
  {
    hide GoodLog, At, EventOk;
    if Touches(log[to - 1].events, key) {
      var e := TouchedNext(log, to - 1, key);
      assert Lookup(At(log, to), key) == Outcome(e);
    } else {
      UntouchedNext(log, to - 1, key);
      assert Lookup(At(log, to - 1), key) == Lookup(At(log, to), key);
      GoneMeansDeleted(log, from, to - 1, key);
      var i, e :| from <= i < to - 1 && e in log[i].events && e.kind.DELETE? && e.keyValue.key == key;
    }
  }

  /** Between two successful put-if-absent transactions on a key, in any clean run, the log holds a delete of it. */
  lemma {:induction false} NoDoubleClaim(w: World, first: Call, between: seq<Call>, second: Call, key: Bytes)
    requires Inv(w.state, w.log) && Claims(w.state, first, key)
    requires Clean(Advance(w, first), between)
    requires Claims(Run(Advance(w, first), between).state, second, key)
    ensures var a := Advance(w, first);
            var b := Run(a, between);
            exists i, e :: |a.log| <= i < |b.log| && e in b.log[i].events && e.kind.DELETE? && e.keyValue.key == key
  {
    hide *;
    var a := Advance(w, first);
    var b := Run(a, between);
    ClaimLeavesRecord(w, first, key);
    RunKeepsInvariant(a, between);
    LogGrows(a, between);
    ClaimFoundNothing(b.state, b.log, second, key);
    InvGoodLog(b.state, b.log);
    InvCounter(b.state, b.log);
    assert b.log == a.log + b.log[|a.log|..];
    AtPrefix(a.log, b.log[|a.log|..], |a.log|);
    GoneMeansDeleted(b.log, |a.log|, |b.log|, key);
  }
}
