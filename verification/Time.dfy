/** The virtual clock: what advancing it removes, that it may be split, and lease safety over runs. */
module Time {
  import opened Wrappers
  import opened Sorting
  import opened Dicts
  import opened ByteStrings
  import opened Backend
  import opened Store
  import opened Views
  import opened Logs
  import opened Commits
  import opened Runs
  import opened PlainMap
  import opened Leases

  /** The leases whose deadline has come by a time. */
  function DueBy(leases: Dict<LeaseId, LeaseState>, clock: real): set<LeaseId> {
    set id | id in leases.entries && leases.entries[id].deadline <= clock
  }

  lemma {:induction false} ExpiredAreDue(leases: Dict<LeaseId, LeaseState>, clock: real)
    ensures Ids(ExpiredIds(leases, leases.order, clock)) == DueBy(leases, clock)
    ensures NoDup(ExpiredIds(leases, leases.order, clock))
  {
    hide ExpiredIds;
  }

  /** Advancing the clock drops exactly the due leases, with their keys, one revision per lease that holds any. */
  lemma {:induction false} AdvanceExactly(s: State, log: Log, seconds: real)
    requires Inv(s, log) && seconds >= 0.0 && !s.closed
    ensures var t, m, gone := AdvanceTime(s, seconds).0, At(log, |log|), DueBy(s.leases, s.clock + seconds);
            && ShowsNow(t, Surviving(m, gone))
            && t.revision == s.revision + |Holding(m, gone)|
            && TableAfter(s.(clock := s.clock + seconds), t, gone)
  {
    hide Inv, At, DropLeases, ExpiredIds, ValueAt, Surviving, Holding, DueBy, OrderWithout, NoDup;
    var later := s.(clock := s.clock + seconds);
    SameStoreKeeps(s, log, later);
    assert log + [] == log;
    ExpiredAreDue(s.leases, later.clock);
    DropLeasesExactly(later, log, ExpiredIds(s.leases, s.leases.order, later.clock));
    DropLeasesTable(later, ExpiredIds(s.leases, s.leases.order, later.clock));
  }

  lemma {:induction false} WithoutTwice(xs: seq<LeaseId>, a: set<LeaseId>, b: set<LeaseId>)
    ensures OrderWithout(OrderWithout(xs, a), b) == OrderWithout(xs, a + b)
  {
    if xs != [] {
      var init, last := xs[..|xs| - 1], xs[|xs| - 1];
      WithoutTwice(init, a, b);
      var kept := OrderWithout(init, a);
      if last in a {
        assert kept + [] == kept;
        assert OrderWithout(init, a + b) + [] == OrderWithout(init, a + b);
      } else {
        assert (kept + [last])[..|kept|] == kept;
      }
    }
  }

  lemma {:induction false} HoldingSplits(m: Snapshot, a: set<LeaseId>, b: set<LeaseId>)
    requires a !! b
    ensures |Holding(m, a + b)| == |Holding(m, a)| + |Holding(Surviving(m, a), b)|
  {
    hide HoldsKeys, Surviving;
    forall id | id in b ensures HoldsKeys(Surviving(m, a), id) <==> HoldsKeys(m, id) {
      OthersStillHold(m, a, id);
    }
    assert Holding(Surviving(m, a), b) == Holding(m, b);
    assert Holding(m, a + b) == Holding(m, a) + Holding(m, b);
  }

  /** The leases due later are those due by the first stop and those that become due after it. */
  lemma {:induction false} DueSplits(
    leases: Dict<LeaseId, LeaseState>, left: Dict<LeaseId, LeaseState>, first: real, second: real)
    requires first <= second && left.entries == leases.entries - DueBy(leases, first)
    ensures DueBy(leases, first) !! DueBy(left, second)
    ensures DueBy(leases, first) + DueBy(left, second) == DueBy(leases, second)
  {}

  lemma {:induction false} ShownView(s: State, m: Snapshot)
    requires ShowsNow(s, m)
    ensures View(s.history, s.revision) == m
  {
    hide ValueAt;
    forall key ensures Lookup(View(s.history, s.revision), key) == Lookup(m, key) {
      ViewShows(s.history, key, s.revision);
      assert ValueAt(s.history, key, s.revision) == Lookup(m, key);
    }
    SameLookups(View(s.history, s.revision), m);
  }

  /**
   Time may be split: advancing by a and then by b reaches the live view, the lease table in its order,
   the clock and the revision counter that advancing by a + b reaches.
   */
  lemma {:induction false} TimeSplits(s: State, log: Log, a: real, b: real)
    requires Inv(s, log) && a >= 0.0 && b >= 0.0
    ensures var once, twice := AdvanceTime(s, a + b).0, AdvanceTime(AdvanceTime(s, a).0, b).0;
            && View(once.history, once.revision) == View(twice.history, twice.revision)
            && once.leases == twice.leases && once.nextLeaseId == twice.nextLeaseId
            && once.clock == twice.clock
            && once.revision == twice.revision
  {
    if s.closed {
      hide DropLeases;
    } else {
      TimeSplitsWhileOpen(s, log, a, b);
    }
  }

  lemma {:induction false} TimeSplitsWhileOpen(s: State, log: Log, a: real, b: real)
    requires Inv(s, log) && a >= 0.0 && b >= 0.0 && !s.closed
    ensures var once, twice := AdvanceTime(s, a + b).0, AdvanceTime(AdvanceTime(s, a).0, b).0;
            && View(once.history, once.revision) == View(twice.history, twice.revision)
            && once.leases == twice.leases && once.nextLeaseId == twice.nextLeaseId
            && once.clock == twice.clock
            && once.revision == twice.revision
  {
    hide *;
    var mid := AdvanceTime(s, a).0;
    var once, twice := AdvanceTime(s, a + b).0, AdvanceTime(mid, b).0;
    var m := At(log, |log|);
    var first, second := DueBy(s.leases, s.clock + a), DueBy(mid.leases, mid.clock + b);
    AdvanceExactly(s, log, a + b);
    AdvanceExactly(s, log, a);
    AdvanceTimeKeeps(s, log, a);
    TableFacts(s.(clock := s.clock + a), mid, first);
    AdvanceExactly(mid, log + Published(s, mid), b);
    NowIs(mid, log + Published(s, mid), Surviving(m, first));
    TableFacts(mid.(clock := mid.clock + b), twice, second);
    DueSplits(s.leases, mid.leases, s.clock + a, mid.clock + b);
    var all := DueBy(s.leases, s.clock + (a + b));
    assert mid.clock + b == s.clock + (a + b);
    assert all == first + second;
    TableFacts(s.(clock := s.clock + (a + b)), once, all);
    SurvivingTwice(m, first, second);
    HoldingSplits(m, first, second);
    ShownView(once, Surviving(m, all));
    ShownView(twice, Surviving(m, all));
    WithoutTwice(s.leases.order, first, second);
    assert s.leases.entries - first - second == s.leases.entries - all;
  }

  lemma {:induction false} TableFacts(s: State, t: State, gone: set<LeaseId>)
    requires TableAfter(s, t, gone)
    ensures t.leases.order == OrderWithout(s.leases.order, gone) && t.leases.entries == s.leases.entries - gone
    ensures t.nextLeaseId == s.nextLeaseId && t.clock == s.clock && t.closed == s.closed
  {}

  // ----- Lease safety -----

  ghost predicate TableOk(s: State) {
    forall id :: id in s.leases.entries ==>
      var lease := s.leases.entries[id];
      && id < s.nextLeaseId && lease.ttl >= 1
      && s.clock < lease.deadline <= s.clock + lease.ttl as real
  }

  /** No live record names a lease that does not exist. */
  ghost predicate LeasesExist(s: State, m: Snapshot) {
    forall key :: key in m && m[key].leaseId.Some? ==> m[key].leaseId.value in s.leases.entries
  }

  ghost predicate LeasesOk(s: State, log: Log) {
    TableOk(s) && LeasesExist(s, At(log, |log|))
  }

  /** A table from which the due leases are gone is in order again, and the records left name only what is left. */
  lemma {:induction false} DroppedOk(s: State, t: State, m: Snapshot, gone: set<LeaseId>)
    requires LeasesExist(s, m) && TableAfter(s, t, gone)
    requires forall id :: id in s.leases.entries && id !in gone ==>
               var lease := s.leases.entries[id];
               id < s.nextLeaseId && lease.ttl >= 1 && s.clock < lease.deadline <= s.clock + lease.ttl as real
    ensures TableOk(t) && LeasesExist(t, Surviving(m, gone))
  {}

  lemma {:induction false} AdvanceKeepsLeases(s: State, log: Log, seconds: real)
    requires Inv(s, log) && LeasesOk(s, log)
    ensures var t := AdvanceTime(s, seconds).0; LeasesOk(t, log + Published(s, t))
  {
    hide Inv, At, Surviving, Holding, TableAfter, ShowsNow, DropLeases, ExpiredIds;
    if seconds < 0.0 || s.closed {
      NothingNew(s, log);
    } else {
      var later := s.(clock := s.clock + seconds);
      var t, gone := AdvanceTime(s, seconds).0, DueBy(s.leases, later.clock);
      AdvanceExactly(s, log, seconds);
      AdvanceTimeKeeps(s, log, seconds);
      NowIs(t, log + Published(s, t), Surviving(At(log, |log|), gone));
      DroppedOk(later, t, At(log, |log|), gone);
    }
  }

  lemma {:induction false} NothingNew(s: State, log: Log)
    ensures log + Published(s, s) == log
  {}

  lemma {:induction false} RevokeKeepsLeases(s: State, log: Log, id: LeaseId)
    requires Inv(s, log) && LeasesOk(s, log)
    ensures var t := RevokeLease(s, id).0; LeasesOk(t, log + Published(s, t))
  {
    hide Inv, At, Surviving, Holding, ShowsNow, DropLease;
    NothingNew(s, log);
    if !s.closed && id in s.leases.entries {
      assert DropLeases(s, [id]) == DropLease(DropLeases(s, [id][..0]), [id][0]);
      assert DropLeases(s, [id][..0]) == s;
      assert Ids([id]) == {id};
      DropLeasesExactly(s, log, [id]);
      DropLeasesKeep(s, log, [id]);
      DropLeasesTable(s, [id]);
      var t := DropLease(s, id);
      NowIs(t, log + Published(s, t), Surviving(At(log, |log|), {id}));
      DroppedOk(s, t, At(log, |log|), {id});
    }
  }

  lemma {:induction false} AcceptedLeases(s: State, ops: seq<Operation>, op: Operation)
    requires Validate(s, ops).None? && op in ops && op.Put? && op.leaseId.Some?
    ensures op.leaseId.value in s.leases.entries
  {
    var i :| 0 <= i < |ops| && ops[i] == op;
    AcceptedNames(s, ops, i);
  }

  lemma {:induction false} AcceptedNames(s: State, ops: seq<Operation>, i: nat)
    requires Validate(s, ops).None? && i < |ops|
    ensures !LeaseMissing(s, ops[i])
  {
    hide Overlapping, LeaseMissing;
    if i < |ops| - 1 {
      AcceptedNames(s, ops[..|ops| - 1], i);
    }
  }

  lemma {:induction false} ExecuteTable(s: State, ops: seq<Operation>, succeeded: bool)
    ensures var t := Execute(s, ops, succeeded).0;
            t.leases == s.leases && t.nextLeaseId == s.nextLeaseId && t.clock == s.clock && t.closed == s.closed
  {
    hide Writes, AppendAll, OpFailure, OpResponse, Responses, ChangesData, DeliverAll;
  }

  lemma {:induction false} ExecuteKeepsLeases(s: State, log: Log, ops: seq<Operation>, succeeded: bool)
    requires Inv(s, log) && LeasesOk(s, log) && Validate(s, ops).None? && Completed(s, ops) == |ops|
    ensures var t := Execute(s, ops, succeeded).0; LeasesOk(t, log + Published(s, t))
  {
    ExecuteTable(s, ops, succeeded);
    hide Inv, Validate, At, Execute, ValueAt, PutTo, Erases, Published;
    var t := Execute(s, ops, succeeded).0;
    var after := log + Published(s, t);
    ExecutedInvariant(s, log, ops, succeeded);
    forall key | key in At(after, |after|) && At(after, |after|)[key].leaseId.Some?
      ensures At(after, |after|)[key].leaseId.value in t.leases.entries
    {
      InvNow(t, after, key);
      ExecutedView(s, log, ops, succeeded, key);
      AfterLease(s, log, ops, key);
    }
  }

  lemma {:induction false} ExecutedInvariant(s: State, log: Log, ops: seq<Operation>, succeeded: bool)
    requires Inv(s, log) && Validate(s, ops).None? && Completed(s, ops) == |ops|
    ensures var t := Execute(s, ops, succeeded).0; Inv(t, log + Published(s, t))
  {
    hide Inv, Validate, Execute, Completed, ChangesData;
    var t := Execute(s, ops, succeeded).0;
    ExecuteKeepsInvariant(s, log, ops, succeeded);
    NothingNew(s, log);
    if ChangesData(s, ops) {
      PublishedOne(s, log, t, TransactionBatch(s, ops));
    }
  }

  /** A record a transaction leaves names the lease of an accepted put, or is the record before. */
  lemma {:induction false} AfterLease(s: State, log: Log, ops: seq<Operation>, key: Bytes)
    requires LeasesOk(s, log) && Validate(s, ops).None?
    ensures var r := After(At(log, |log|), ops, key, s.revision + 1);
            r.Some? && r.value.leaseId.Some? ==> r.value.leaseId.value in s.leases.entries
  {
    hide Validate, At;
    var m := At(log, |log|);
    if PutTo(ops, key) {
      var op :| op in ops && op.Put? && op.key == key
                && After(m, ops, key, s.revision + 1) == Some(PutRecord(m, op, s.revision + 1));
      if op.leaseId.Some? {
        AcceptedLeases(s, ops, op);
      }
      assert PutRecord(m, op, s.revision + 1).leaseId == op.leaseId;
    } else if key in m {
      assert LeasesExist(s, m);
      assert After(m, ops, key, s.revision + 1) in {None, Some(m[key])};
    }
  }

  lemma {:induction false} TransactionKeepsLeases(
    s: State, log: Log, compares: seq<Compare>, success: seq<Operation>, failure: seq<Operation>)
    requires Inv(s, log) && LeasesOk(s, log) && Guarded(s, DoTransaction(compares, success, failure))
    ensures var t := Transaction(s, compares, success, failure).0; LeasesOk(t, log + Published(s, t))
  {
    AtomicityCondition(s, compares, success, failure);
    hide Inv, LeasesOk, CompareAll, Validate, AllOrNothing, Published, Guarded, OpFailure, Commit, Writes, AppendAll,
      ChangesData;
    NothingNew(s, log);
    var (t, r) := Transaction(s, compares, success, failure);
    if r.Success? {
      ExecuteKeepsLeases(s, log, Accepted(s, compares, success, failure).value, CompareAll(s, compares).value);
    }
  }

  lemma {:induction false} SameLeasesOk(s: State, log: Log, t: State)
    requires LeasesOk(s, log) && t.events == s.events
    requires t.leases == s.leases && t.clock == s.clock && t.nextLeaseId == s.nextLeaseId
    ensures LeasesOk(t, log + Published(s, t))
  {
    hide At;
    assert log + [] == log;
  }

  lemma {:induction false} TableCallsKeepLeases(s: State, log: Log, call: Call)
    requires LeasesOk(s, log) && (call.DoGrant? || call.DoKeepAlive?)
    ensures LeasesOk(Step(s, call), log + Published(s, Step(s, call)))
  {
    hide At;
    assert log + [] == log;
  }

  lemma {:induction false} StepKeepsLeases(s: State, log: Log, call: Call)
    requires Inv(s, log) && LeasesOk(s, log) && Guarded(s, call)
    ensures LeasesOk(Step(s, call), log + Published(s, Step(s, call)))
  {
    hide Inv, LeasesOk, Transaction, RevokeLease, AdvanceTime, Guarded, Published, CompactHistory, NewerBatches,
      GrantLease, KeepAlive, Close, Watch, Next;
    match call
    case DoTransaction(compares, success, failure) => TransactionKeepsLeases(s, log, compares, success, failure);
    case DoGrant(_) => TableCallsKeepLeases(s, log, call);
    case DoKeepAlive(_) => TableCallsKeepLeases(s, log, call);
    case DoRevoke(id) => RevokeKeepsLeases(s, log, id);
    case DoAdvance(seconds) => AdvanceKeepsLeases(s, log, seconds);
    case DoCompact(revision) =>
      CompactKeeps(s, log, revision);
      assert log + [] == log;
      CompactedLeasesOk(s, log, revision);
    case _ =>
      StreamCalls(s, call);
      SameLeasesOk(s, log, Step(s, call));
  }

  lemma {:induction false} StreamCalls(s: State, call: Call)
    requires call.DoWatch? || call.DoNext? || call.DoCancel? || call.DoClose?
    ensures var t := Step(s, call);
            t.events == s.events && t.leases == s.leases && t.clock == s.clock && t.nextLeaseId == s.nextLeaseId
  {}

  lemma {:induction false} CompactedLeasesOk(s: State, log: Log, revision: int)
    requires LeasesOk(s, log)
    ensures LeasesOk(Compact(s, revision).0, log)
  {
    hide At, CompactHistory, NewerBatches;
  }

  /**
   In every state of every clean run each live record's lease exists and each lease is ahead of the clock
   by at most its time to live.
   */
  lemma {:induction false} RunKeepsLeases(w: World, calls: seq<Call>)
    requires Inv(w.state, w.log) && LeasesOk(w.state, w.log) && Clean(w, calls)
    ensures LeasesOk(Run(w, calls).state, Run(w, calls).log)
  {
    hide Inv, LeasesOk, Step, Guarded, Published;
    if calls != [] {
      RunKeepsLeases(w, calls[..|calls| - 1]);
      RunKeepsInvariant(w, calls[..|calls| - 1]);
      var mid := Run(w, calls[..|calls| - 1]);
      StepKeepsLeases(mid.state, mid.log, calls[|calls| - 1]);
    }
  }

  lemma {:induction false} InitialLeases()
    ensures LeasesOk(START.state, START.log)
  {}

  /** So the time to live reported for an existing lease is between 1 and what was granted. */
  lemma {:induction false} ReportedTimeToLive(calls: seq<Call>, id: LeaseId)
    requires Clean(START, calls)
    ensures var s := Run(START, calls).state;
            var r := LeaseTimeToLive(s, id);
            && (r.Success? <==> !s.closed && id in s.leases.entries)
            && (r.Success? ==> 1 <= r.value <= s.leases.entries[id].ttl)
  {
    InitialInvariant();
    InitialLeases();
    RunKeepsLeases(START, calls);
    hide Run, Clean, LeasesExist;
    var s := Run(START, calls).state;
    if id in s.leases.entries {
      CeilingBounds(s.leases.entries[id].deadline - s.clock, s.leases.entries[id].ttl);
    }
  }

  lemma {:induction false} CeilingBounds(x: real, n: int)
    requires 0.0 < x <= n as real
    ensures 1 <= Ceiling(x) <= n
  {}

  // ----- How long a lease lives -----

  lemma {:induction false} LivesUntilDeadline(s: State, log: Log, id: LeaseId, seconds: real)
    requires Inv(s, log) && seconds >= 0.0 && !s.closed && id in s.leases.entries
    ensures id in AdvanceTime(s, seconds).0.leases.entries <==> s.clock + seconds < s.leases.entries[id].deadline
  {
    AdvanceExactly(s, log, seconds);
    hide Inv, AdvanceTime, Surviving, Holding, OrderWithout, ShowsNow;
  }

  lemma {:induction false} WholeCeiling(n: int)
    ensures Ceiling(n as real) == n
  {}

  lemma {:induction false} WholeTimeLeft(s: State, log: Log, id: LeaseId, ttl: int, seconds: real)
    requires Inv(s, log) && seconds >= 0.0 && !s.closed && ttl >= 1
    requires id in s.leases.entries && s.leases.entries[id].deadline == s.clock + ttl as real
    ensures LeaseTimeToLive(s, id) == Success(ttl)
    ensures id in AdvanceTime(s, seconds).0.leases.entries <==> seconds < ttl as real
  {
    hide Inv, AdvanceTime, Ceiling;
    LivesUntilDeadline(s, log, id, seconds);
    WholeCeiling(ttl);
    assert s.leases.entries[id].deadline - s.clock == ttl as real;
  }

  /** A lease just granted has its whole time to live left, and is dropped as soon as that has passed. */
  lemma {:induction false} GrantedLeaseLives(s: State, log: Log, ttl: int, seconds: real)
    requires Inv(s, log) && seconds >= 0.0 && GrantLease(s, ttl).1.Success?
    ensures var t, id := GrantLease(s, ttl).0, GrantLease(s, ttl).1.value;
            && LeaseTimeToLive(t, id) == Success(ttl)
            && (id in AdvanceTime(t, seconds).0.leases.entries <==> seconds < ttl as real)
  {
    hide Inv, AdvanceTime, LeaseTimeToLive, Published;
    var t := GrantLease(s, ttl).0;
    SameStoreKeeps(s, log, t);
    WholeTimeLeft(t, log, s.nextLeaseId, ttl, seconds);
  }

  /** So has a lease just kept alive, however little was left of it. */
  lemma {:induction false} RenewedLeaseLives(s: State, log: Log, id: LeaseId, seconds: real)
    requires Inv(s, log) && TableOk(s) && seconds >= 0.0 && KeepAlive(s, id).1.Success?
    ensures var t, ttl := KeepAlive(s, id).0, KeepAlive(s, id).1.value;
            && LeaseTimeToLive(t, id) == Success(ttl)
            && (id in AdvanceTime(t, seconds).0.leases.entries <==> seconds < ttl as real)
  {
    hide Inv, AdvanceTime, LeaseTimeToLive, Published;
    var t := KeepAlive(s, id).0;
    SameStoreKeeps(s, log, t);
    WholeTimeLeft(t, log, id, s.leases.entries[id].ttl, seconds);
  }

  // ----- Identifiers -----

  lemma {:induction false} StepKeepsIds(s: State, call: Call)
    ensures s.nextLeaseId <= Step(s, call).nextLeaseId
  {
    hide DropLeases, DropLease, Execute, ExpiredIds, CompareAll, Validate, CompactHistory, NewerBatches, DeliverAll;
    match call
    case DoTransaction(compares, success, failure) =>
      var ops := Accepted(s, compares, success, failure);
      if ops.Some? {
        ExecuteTable(s, ops.value, CompareAll(s, compares).value);
      }
    case DoRevoke(id) => DropLeaseTable(s, id);
    case DoAdvance(seconds) =>
      var later := s.(clock := s.clock + seconds);
      DropLeasesTable(later, ExpiredIds(s.leases, s.leases.order, later.clock));
    case _ =>
  }

  lemma {:induction false} RunKeepsIds(w: World, calls: seq<Call>)
    ensures w.state.nextLeaseId <= Run(w, calls).state.nextLeaseId
  {
    hide Step, Published;
    if calls != [] {
      RunKeepsIds(w, calls[..|calls| - 1]);
      StepKeepsIds(Run(w, calls[..|calls| - 1]).state, calls[|calls| - 1]);
    }
  }

  /** No run grants the same lease identifier twice. */
  lemma {:induction false} IdsAreNotReused(w: World, ttl: int, between: seq<Call>, again: int)
    requires GrantLease(w.state, ttl).1.Success?
    requires GrantLease(Run(Advance(w, DoGrant(ttl)), between).state, again).1.Success?
    ensures GrantLease(w.state, ttl).1 != GrantLease(Run(Advance(w, DoGrant(ttl)), between).state, again).1
  {
    hide Run, Published;
    RunKeepsIds(Advance(w, DoGrant(ttl)), between);
  }
}
