/** Whole runs of the backend: what every sequence of calls keeps. */
module Runs {
  import opened Wrappers
  import opened Dicts
  import opened ByteStrings
  import opened Backend
  import opened Store
  import opened Views
  import opened Logs
  import opened Compaction
  import opened Commits

  /** The calls that can change the backend. */
  datatype Call =
    | DoTransaction(compares: seq<Compare>, success: seq<Operation>, failure: seq<Operation>)
    | DoGrant(ttl: int)
    | DoKeepAlive(id: LeaseId)
    | DoRevoke(id: LeaseId)
    | DoAdvance(seconds: real)
    | DoCompact(revision: int)
    | DoWatch(start: Bytes, end: Option<Bytes>, from: int)
    | DoNext(watcher: WatcherId)
    | DoCancel(watcher: WatcherId)
    | DoClose

  function Step(s: State, call: Call): State {
    match call
    case DoTransaction(compares, success, failure) => Transaction(s, compares, success, failure).0
    case DoGrant(ttl) => GrantLease(s, ttl).0
    case DoKeepAlive(id) => KeepAlive(s, id).0
    case DoRevoke(id) => RevokeLease(s, id).0
    case DoAdvance(seconds) => AdvanceTime(s, seconds).0
    case DoCompact(revision) => Compact(s, revision).0
    case DoWatch(start, end, from) => Watch(s, start, end, from).0
    case DoNext(w) => Next(s, w).0
    case DoCancel(w) => Cancel(s, w)
    case DoClose => Close(s)
  }

  /** The batches a step appended to the retained events. */
  function Published(before: State, after: State): Log {
    if |before.events| <= |after.events| then after.events[|before.events|..] else []
  }

  /** The backend together with its full log, which compaction does not shorten. */
  datatype World = World(state: State, log: Log)

  const START: World := World(INITIAL, [])

  function Advance(w: World, call: Call): World {
    var next := Step(w.state, call);
    World(next, w.log + Published(w.state, next))
  }

  function Run(w: World, calls: seq<Call>): World {
    if calls == [] then w else Advance(Run(w, calls[..|calls| - 1]), calls[|calls| - 1])
  }

  // ----- When a transaction is atomic -----

  /** The operations a transaction goes on to execute, once its comparisons and its writes are accepted. */
  function Accepted(s: State, compares: seq<Compare>, success: seq<Operation>, failure: seq<Operation>)
    : Option<seq<Operation>>
  {
    var succeeded := CompareAll(s, compares);
    if s.closed || succeeded.Failure? then None
    else
      var ops := if succeeded.value then success else failure;
      if Validate(s, ops).Some? then None else Some(ops)
  }

  /** No operation that changes data stands before the first GetRange that raises. */
  predicate AllOrNothing(s: State, ops: seq<Operation>) {
    Completed(s, ops) < |ops| ==> !ChangesData(s, ops[..Completed(s, ops)])
  }

  predicate Guarded(s: State, call: Call) {
    call.DoTransaction? ==>
      var ops := Accepted(s, call.compares, call.success, call.failure);
      ops.Some? ==> AllOrNothing(s, ops.value)
  }

  /** Every transaction of the run is all or nothing at its turn. */
  predicate Clean(w: World, calls: seq<Call>) {
    calls == [] || (
      && Clean(w, calls[..|calls| - 1])
      && Guarded(Run(w, calls[..|calls| - 1]).state, calls[|calls| - 1]))
  }

  lemma {:induction false} AppendedIsLonger(h: History, writes: seq<Write>, key: Bytes)
    ensures |Chain(AppendAll(h, writes), key)| >= |Chain(h, key)|
    ensures (exists w :: w in writes && w.key == key) ==> |Chain(AppendAll(h, writes), key)| > |Chain(h, key)|
  {
    if writes != [] {
      var init, last := writes[..|writes| - 1], writes[|writes| - 1];
      AppendedIsLonger(h, init, key);
      assert forall w :: w in writes <==> w in init || w == last;
    }
  }

  /**
   A transaction that raises leaves the store as it was exactly when none of the operations before the
   one that raises would change data; otherwise their versions stay behind in the history.
   */
  lemma {:induction false} AtomicityCondition(
    s: State, compares: seq<Compare>, success: seq<Operation>, failure: seq<Operation>)
    ensures var (t, r) := Transaction(s, compares, success, failure);
            (r.Failure? ==> t == s) <==> Guarded(s, DoTransaction(compares, success, failure))
  {
    hide Writes, AppendAll, Validate, CompareAll, ChangesData, OpFailure, Commit, OpResponse, Responses;
    var ops := Accepted(s, compares, success, failure);
    if ops.Some? {
      var n := Completed(s, ops.value);
      if n < |ops.value| {
        var revision := if ChangesData(s, ops.value) then s.revision + 1 else s.revision;
        TornExactly(s, ops.value, n, revision);
      }
    }
  }

  lemma {:induction false} TornExactly(s: State, ops: seq<Operation>, n: nat, revision: nat)
    requires n <= |ops|
    ensures AppendAll(s.history, Writes(s, ops[..n], revision)) == s.history <==> !ChangesData(s, ops[..n])
  {
    var writes := Writes(s, ops[..n], revision);
    NoChangeNoWrites(s, ops[..n], revision);
    if writes != [] {
      AppendedIsLonger(s.history, writes, writes[0].key);
    }
  }

  predicate ReadFree(call: Call) {
    call.DoTransaction? ==> forall op :: op in call.success + call.failure ==> IsWrite(op)
  }

  lemma {:induction false} WritesComplete(s: State, ops: seq<Operation>)
    requires forall op :: op in ops ==> IsWrite(op)
    ensures Completed(s, ops) == |ops|
  {
    forall i | 0 <= i < |ops| ensures OpFailure(s, ops[i]).None? {
      assert ops[i] in ops;
    }
  }

  /** Transactions without GetRange are always all or nothing, so every run of such calls is clean. */
  lemma {:induction false} ReadFreeIsClean(w: World, calls: seq<Call>)
    requires forall i :: 0 <= i < |calls| ==> ReadFree(calls[i])
    ensures Clean(w, calls)
  {
    hide Run, Validate, CompareAll, ChangesData, Completed;
    if calls != [] {
      var call := calls[|calls| - 1];
      ReadFreeIsClean(w, calls[..|calls| - 1]);
      if call.DoTransaction? {
        WritesComplete(Run(w, calls[..|calls| - 1]).state, call.success);
        WritesComplete(Run(w, calls[..|calls| - 1]).state, call.failure);
      }
    }
  }

  /** The shortest continuation that commits something. */
  function PutOnly(key: Bytes): seq<Call> {
    [DoTransaction([], [Put(key, [], None)], [])]
  }

  lemma {:induction false} OnePut(w: World, key: Bytes)
    ensures Clean(w, PutOnly(key))
    ensures Run(w, PutOnly(key)) == Advance(w, PutOnly(key)[0])
    ensures Run(w, PutOnly(key)).state == Transaction(w.state, [], [Put(key, [], None)], []).0
  {
    hide Transaction, Published;
    ReadFreeIsClean(w, PutOnly(key));
    assert PutOnly(key)[..0] == [];
  }

  // ----- The invariant over runs -----

  lemma {:induction false} SameStoreKeeps(s: State, log: Log, t: State)
    requires Inv(s, log)
    requires t.revision == s.revision && t.compactedRevision == s.compactedRevision
    requires t.history == s.history && t.events == s.events
    ensures Inv(t, log + Published(s, t)) && log + Published(s, t) == log
  {
    hide GoodLog, ChainsOk, Shows;
    assert log + [] == log;
  }

  lemma {:induction false} PublishedOne(s: State, log: Log, t: State, batch: WatchBatch)
    requires t.events == s.events + [batch]
    ensures log + Published(s, t) == log + [batch]
  {}

  lemma {:induction false} TransactionKeeps(
    s: State, log: Log, compares: seq<Compare>, success: seq<Operation>, failure: seq<Operation>)
    requires Inv(s, log) && Guarded(s, DoTransaction(compares, success, failure))
    ensures var t := Transaction(s, compares, success, failure).0; Inv(t, log + Published(s, t))
  {
    var (t, r) := Transaction(s, compares, success, failure);
    AtomicityCondition(s, compares, success, failure);
    hide Inv, ChangesData, Writes, CompareAll, Validate, AllOrNothing;
    SameStoreKeepsIf(s, log, t);
    var ops := Accepted(s, compares, success, failure);
    if r.Success? {
      ExecuteKeepsInvariant(s, log, ops.value, CompareAll(s, compares).value);
      if ChangesData(s, ops.value) {
        PublishedOne(s, log, t, TransactionBatch(s, ops.value));
      }
    }
  }

  lemma {:induction false} SameStoreKeepsIf(s: State, log: Log, t: State)
    requires Inv(s, log)
    ensures t == s ==> Inv(t, log + Published(s, t))
  {
    if t == s {
      SameStoreKeeps(s, log, t);
    }
  }

  lemma {:induction false} DropLeaseKeeps(s: State, log: Log, id: LeaseId)
    requires Inv(s, log)
    ensures var t := DropLease(s, id); s.events <= t.events && Inv(t, log + Published(s, t))
  {
    hide ExpireLeaseKeys, AttachedKeys, ExpiryBatch, GoodLog, ChainsOk, Shows;
    var released := s.(leases := Pop(s.leases, id));
    var t := DropLease(s, id);
    assert Inv(released, log);
    ExpireKeepsInvariant(released, log, id);
    if t.events == s.events {
      assert t == released;
      SameStoreKeeps(s, log, t);
    } else {
      PublishedOne(s, log, t, ExpiryBatch(released, id));
    }
  }

  lemma {:induction false} DropLeasesKeep(s: State, log: Log, ids: seq<LeaseId>)
    requires Inv(s, log)
    ensures var t := DropLeases(s, ids); s.events <= t.events && Inv(t, log + Published(s, t))
  {
    hide Inv, DropLease;
    if ids == [] {
      SameStoreKeepsIf(s, log, s);
    } else {
      var mid := DropLeases(s, ids[..|ids| - 1]);
      var t := DropLeases(s, ids);
      DropLeasesKeep(s, log, ids[..|ids| - 1]);
      DropLeaseKeeps(mid, log + Published(s, mid), ids[|ids| - 1]);
      assert log + Published(s, mid) + Published(mid, t) == log + Published(s, t);
    }
  }

  lemma {:induction false} AdvanceTimeKeeps(s: State, log: Log, seconds: real)
    requires Inv(s, log)
    ensures var t := AdvanceTime(s, seconds).0; Inv(t, log + Published(s, t))
  {
    hide Inv, DropLeases, ExpiredIds;
    var later := s.(clock := s.clock + seconds);
    SameStoreKeeps(s, log, later);
    SameStoreKeepsIf(s, log, s);
    DropLeasesKeep(later, log, ExpiredIds(s.leases, s.leases.order, later.clock));
  }

  lemma {:induction false} CompactKeeps(s: State, log: Log, revision: int)
    requires Inv(s, log)
    ensures var t := Compact(s, revision).0; Inv(t, log + Published(s, t)) && Published(s, t) == []
  {
    CompactKeepsInvariant(s, log, revision);
    var t := Compact(s, revision).0;
    InvEvents(s, log);
    InvEvents(t, log);
    assert log + [] == log;
  }

  lemma {:induction false} StepKeepsInvariant(s: State, log: Log, call: Call)
    requires Inv(s, log) && Guarded(s, call)
    ensures Inv(Step(s, call), log + Published(s, Step(s, call)))
  {
    hide Inv, Transaction, DropLease, DropLeases, Guarded, AdvanceTime, Published, Compact, CompactHistory;
    match call
    case DoTransaction(compares, success, failure) => TransactionKeeps(s, log, compares, success, failure);
    case DoRevoke(id) => DropLeaseKeeps(s, log, id); SameStoreKeepsIf(s, log, s);
    case DoAdvance(seconds) => AdvanceTimeKeeps(s, log, seconds);
    case DoCompact(revision) => CompactKeeps(s, log, revision);
    case _ => SameStoreKeeps(s, log, Step(s, call));
  }

  /** Every state of every clean run satisfies the invariant. */
  lemma {:induction false} RunKeepsInvariant(w: World, calls: seq<Call>)
    requires Inv(w.state, w.log) && Clean(w, calls)
    ensures Inv(Run(w, calls).state, Run(w, calls).log)
  {
    hide Inv, Step, Guarded, Published;
    if calls != [] {
      RunKeepsInvariant(w, calls[..|calls| - 1]);
      var mid := Run(w, calls[..|calls| - 1]);
      StepKeepsInvariant(mid.state, mid.log, calls[|calls| - 1]);
    }
  }

  lemma {:induction false} InitialInvariant()
    ensures Inv(START.state, START.log)
  {}

  /** A run only appends to the log. */
  lemma {:induction false} LogGrows(w: World, calls: seq<Call>)
    ensures w.log <= Run(w, calls).log
  {
    hide Step, Published;
    if calls != [] {
      LogGrows(w, calls[..|calls| - 1]);
    }
  }

  /** Past views never change: what a revision showed, it shows after any further clean run. */
  lemma {:induction false} PastViewsStay(w: World, calls: seq<Call>, r: nat)
    requires Inv(w.state, w.log) && Clean(w, calls)
    requires r <= w.state.revision && w.state.compactedRevision <= r
    requires Run(w, calls).state.compactedRevision <= r
    ensures View(Run(w, calls).state.history, r) == View(w.state.history, r)
  {
    hide *;
    var end := Run(w, calls);
    RunKeepsInvariant(w, calls);
    LogGrows(w, calls);
    InvCounter(w.state, w.log);
    InvCounter(end.state, end.log);
    InvView(w.state, w.log, r);
    InvView(end.state, end.log, r);
    assert end.log == w.log + end.log[|w.log|..];
    AtPrefix(w.log, end.log[|w.log|..], r);
  }

  lemma {:induction false} RunConcat(w: World, a: seq<Call>, b: seq<Call>)
    ensures Run(w, a + b) == Run(Run(w, a), b)
    ensures Clean(w, a + b) <==> Clean(w, a) && Clean(Run(w, a), b)
  {
    hide Step, Published, Guarded, Advance;
    if b == [] {
      assert a + b == a;
    } else {
      assert (a + b)[..|a + b| - 1] == a + b[..|b| - 1];
      RunConcat(w, a, b[..|b| - 1]);
    }
  }
}
