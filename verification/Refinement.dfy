/** The whole backend as a plain map with a counter, a lease table and a clock: every clean run is a run of it. */
module Refinement {
  import opened ByteStrings
  import opened Backend
  import opened Store
  import opened Views
  import opened Logs
  import opened Compaction
  import opened Runs
  import opened PlainMap
  import opened Acceptance
  import opened Order
  import opened Leases
  import opened Time

  /** No history, no events, no watchers: what a client can find out by reading now. */
  datatype Plain = Plain(
    records: Snapshot, revision: nat, compacted: nat,
    leases: map<LeaseId, LeaseState>, nextLeaseId: LeaseId, clock: real, closed: bool)

  const EMPTY: Plain := Plain(map[], 0, 0, map[], 1, 0.0, false)

  function Shown(s: State): Plain {
    Plain(View(s.history, s.revision), s.revision, s.compactedRevision,
          s.leases.entries, s.nextLeaseId, s.clock, s.closed)
  }

  // ----- The steps of the plain machine -----

  ghost predicate AllHold(p: Plain, compares: seq<Compare>) {
    forall i :: 0 <= i < |compares| ==> Meets(p.records, compares[i])
  }

  /** The comparisons come to a verdict: all hold, or the first that does not is well-typed. */
  ghost predicate Decided(p: Plain, compares: seq<Compare>) {
    || AllHold(p, compares)
    || exists i :: StopsAt(p.records, compares, i) && WellTyped(compares[i])
  }

  /** The operations name leases of the table, write no key twice as far as validation can tell, and read now. */
  ghost predicate Feasible(p: Plain, ops: seq<Operation>) {
    && (forall op :: op in ops && op.Put? && op.leaseId.Some? ==> op.leaseId.value in p.leases)
    && WritesApart(ops) && NoneMisjudged(ops)
    && (forall op :: op in ops && op.GetRange? ==>
          && op.request.revision.None?
          && (op.request.limit.Some? ==> op.request.limit.value > 0)
          && (p.compacted < p.revision || p.compacted == p.revision == 0))
  }

  ghost function Written(m: Snapshot, ops: seq<Operation>, revision: nat): Snapshot {
    map k | k in m.Keys + (set op | op in ops && op.Put? :: op.key) && After(m, ops, k, revision).Some?
      :: After(m, ops, k, revision).value
  }

  ghost function PlainTransaction(p: Plain, compares: seq<Compare>, success: seq<Operation>, failure: seq<Operation>)
    : Plain
  {
    var ops := if AllHold(p, compares) then success else failure;
    if p.closed || !Decided(p, compares) || !Feasible(p, ops) then p
    else
      p.(records := Written(p.records, ops, p.revision + 1),
         revision := p.revision + if PlainChanges(p.records, ops) then 1 else 0)
  }

  /** Some leases go, their keys with them, and the counter moves once for each that held any. */
  ghost function Drop(p: Plain, ids: set<LeaseId>): Plain {
    p.(records := Surviving(p.records, ids), leases := p.leases - ids,
       revision := p.revision + |Holding(p.records, ids)|)
  }

  ghost function PlainStep(p: Plain, call: Call): Plain {
    if p.closed then p
    else
      match call
      case DoTransaction(compares, success, failure) => PlainTransaction(p, compares, success, failure)
      case DoGrant(ttl) =>
        if ttl <= 0 then p
        else
          p.(leases := p.leases[p.nextLeaseId := LeaseState(ttl, p.clock + ttl as real)],
             nextLeaseId := p.nextLeaseId + 1)
      case DoKeepAlive(id) =>
        if id !in p.leases then p
        else p.(leases := p.leases[id := p.leases[id].(deadline := p.clock + p.leases[id].ttl as real)])
      case DoRevoke(id) => if id !in p.leases then p else Drop(p, {id})
      case DoAdvance(seconds) =>
        if seconds < 0.0 then p
        else
          var clock := p.clock + seconds;
          Drop(p, set id | id in p.leases && p.leases[id].deadline <= clock).(clock := clock)
      case DoCompact(revision) => if p.compacted < revision <= p.revision then p.(compacted := revision) else p
      case DoWatch(_, _, _) => p
      case DoNext(_) => p
      case DoCancel(_) => p
      case DoClose => p.(closed := true)
  }

  ghost function PlainRun(p: Plain, calls: seq<Call>): Plain {
    if calls == [] then p else PlainStep(PlainRun(p, calls[..|calls| - 1]), calls[|calls| - 1])
  }

  // ----- Transactions -----

  lemma {:induction false} WrittenLookup(m: Snapshot, ops: seq<Operation>, revision: nat, key: Bytes)
    ensures Lookup(Written(m, ops, revision), key) == After(m, ops, key, revision)
  {
    hide PutRecord, KeyInRange;
  }

  lemma {:induction false} FeasibleExactly(s: State, ops: seq<Operation>)
    ensures Feasible(Shown(s), ops) <==>
              LeasesKnown(s, ops) && WritesApart(ops) && NoneMisjudged(ops) && ReadsAllowed(s, ops)
  {
    hide WritesApart, NoneMisjudged, View;
  }

  lemma {:induction false} ViewIs(s: State, m: Snapshot)
    requires ShowsNow(s, m)
    ensures View(s.history, s.revision) == m
  {
    hide View, ValueAt;
    forall key ensures Lookup(View(s.history, s.revision), key) == Lookup(m, key) {
      ViewShows(s.history, key, s.revision);
    }
    SameLookups(View(s.history, s.revision), m);
  }

  lemma {:induction false} ViewNow(s: State, log: Log)
    requires Inv(s, log)
    ensures View(s.history, s.revision) == At(log, |log|)
  {
    InvCounter(s, log);
    InvView(s, log, s.revision);
  }

  lemma {:induction false} TransactionTable(
    s: State, compares: seq<Compare>, success: seq<Operation>, failure: seq<Operation>)
    ensures var t := Transaction(s, compares, success, failure).0;
            && t.leases == s.leases && t.nextLeaseId == s.nextLeaseId && t.clock == s.clock
            && t.closed == s.closed && t.compactedRevision == s.compactedRevision
  {
    hide Writes, AppendAll, OpFailure, OpResponse, Responses, ChangesData, DeliverAll, CompareAll, Validate, Completed;
  }

  /** The plain machine can tell whether a transaction will be answered. */
  lemma {:induction false} AnsweredPlainly(
    s: State, log: Log, compares: seq<Compare>, success: seq<Operation>, failure: seq<Operation>)
    requires Inv(s, log) && !s.closed
    ensures var p := Shown(s);
            Transaction(s, compares, success, failure).1.Success?
            <==> Decided(p, compares) && Feasible(p, if AllHold(p, compares) then success else failure)
  {
    hide Inv, At, Transaction, View, Meets, WellTyped, Feasible, LeasesKnown, WritesApart, NoneMisjudged;
    hide ReadsAllowed, StopsAt;
    ViewNow(s, log);
    AnsweredExactly(s, log, compares, success, failure);
    FeasibleExactly(s, success);
    FeasibleExactly(s, failure);
  }

  /** An answered transaction shows the chosen operations carried out; any other changes nothing. */
  lemma {:induction false} OutcomeShown(
    s: State, log: Log, compares: seq<Compare>, success: seq<Operation>, failure: seq<Operation>)
    requires Inv(s, log) && Guarded(s, DoTransaction(compares, success, failure))
    ensures var p := Shown(s);
            var (t, r) := Transaction(s, compares, success, failure);
            var ops := if AllHold(p, compares) then success else failure;
            if r.Failure? then t == s
            else
              && ShowsNow(t, Written(p.records, ops, p.revision + 1))
              && t.revision == p.revision + if PlainChanges(p.records, ops) then 1 else 0
  {
    hide Inv, At, Guarded, Transaction, View, ValueAt, Meets, After, Answers, PlainChanges, Written;
    ViewNow(s, log);
    WholeTransactionRefines(s, log, compares, success, failure);
    var ops := if AllHold(Shown(s), compares) then success else failure;
    var m := View(s.history, s.revision);
    var t, r := Transaction(s, compares, success, failure).0, Transaction(s, compares, success, failure).1;
    assert AllHold(Shown(s), compares) <==> forall i :: 0 <= i < |compares| ==> Meets(At(log, |log|), compares[i]);
    if r.Success? {
      assert t.revision == s.revision + if PlainChanges(m, ops) then 1 else 0;
      forall key ensures ValueAt(t.history, key, t.revision) == Lookup(Written(m, ops, s.revision + 1), key) {
        WrittenLookup(m, ops, s.revision + 1, key);
        assert ValueAt(t.history, key, t.revision) == After(m, ops, key, s.revision + 1);
      }
    }
  }

  lemma {:induction false} TransactionShown(
    s: State, log: Log, compares: seq<Compare>, success: seq<Operation>, failure: seq<Operation>)
    requires Inv(s, log) && Guarded(s, DoTransaction(compares, success, failure)) && !s.closed
    ensures Shown(Transaction(s, compares, success, failure).0)
         == PlainTransaction(Shown(s), compares, success, failure)
  {
    hide Inv, Guarded, Transaction, View, Feasible, Decided, AllHold, PlainChanges, Written, ShowsNow;
    AnsweredPlainly(s, log, compares, success, failure);
    OutcomeShown(s, log, compares, success, failure);
    TransactionTable(s, compares, success, failure);
    var (t, r) := Transaction(s, compares, success, failure);
    if r.Success? {
      var ops := if AllHold(Shown(s), compares) then success else failure;
      ViewIs(t, Written(View(s.history, s.revision), ops, s.revision + 1));
    }
  }

  // ----- The other calls -----

  lemma {:induction false} HoldingOne(m: Snapshot, id: LeaseId)
    ensures |Holding(m, {id})| == if HoldsKeys(m, id) then 1 else 0
  {
    hide HoldsKeys;
    assert Holding(m, {id}) == if HoldsKeys(m, id) then {id} else {};
  }

  lemma {:induction false} RevokeShown(s: State, log: Log, id: LeaseId)
    requires Inv(s, log) && id in s.leases.entries
    ensures Shown(DropLease(s, id)) == Drop(Shown(s), {id})
  {
    hide Inv, At, DropLease, View, ValueAt, HoldsKeys, Holding, Surviving;
    ViewNow(s, log);
    DropLeaseExactly(s, log, id);
    DropLeaseTable(s, id);
    HoldingOne(At(log, |log|), id);
    ViewIs(DropLease(s, id), Surviving(At(log, |log|), {id}));
  }

  lemma {:induction false} AdvanceTimeShown(s: State, log: Log, seconds: real)
    requires Inv(s, log) && seconds >= 0.0 && !s.closed
    ensures var clock := s.clock + seconds;
            Shown(AdvanceTime(s, seconds).0) == Drop(Shown(s), DueBy(s.leases, clock)).(clock := clock)
  {
    hide Inv, At, AdvanceTime, View, ShowsNow, Holding, Surviving, OrderWithout, DueBy;
    ViewNow(s, log);
    AdvanceExactly(s, log, seconds);
    ViewIs(AdvanceTime(s, seconds).0, Surviving(At(log, |log|), DueBy(s.leases, s.clock + seconds)));
  }

  lemma {:induction false} CompactShown(s: State, log: Log, revision: int)
    requires Inv(s, log)
    ensures var t := Compact(s, revision).0; View(t.history, t.revision) == View(s.history, s.revision)
  {
    CompactKeepsInvariant(s, log, revision);
    InvCounter(s, log);
    InvView(s, log, s.revision);
    InvCounter(Compact(s, revision).0, log);
    InvView(Compact(s, revision).0, log, s.revision);
    hide Inv, At, View, CompactHistory, NewerBatches;
  }

  // ----- The refinement -----

  /** One step of the backend shows as one step of the plain machine. */
  lemma {:induction false} StepRefines(s: State, log: Log, call: Call)
    requires Inv(s, log) && Guarded(s, call)
    ensures Shown(Step(s, call)) == PlainStep(Shown(s), call)
  {
    hide Inv, View, Guarded, PlainTransaction, Transaction, DropLease, AdvanceTime, CompactHistory, NewerBatches, Drop;
    hide Filtered;
    if s.closed {
      ClosedStays(s, call);
    } else {
      match call
      case DoTransaction(compares, success, failure) => TransactionShown(s, log, compares, success, failure);
      case DoRevoke(id) => if id in s.leases.entries { RevokeShown(s, log, id); }
      case DoAdvance(seconds) =>
        if seconds >= 0.0 {
          AdvanceTimeShown(s, log, seconds);
        } else {
          BackwardsRefused(s, seconds);
        }
      case DoCompact(revision) => CompactShown(s, log, revision);
      case _ =>
    }
  }

  lemma {:induction false} BackwardsRefused(s: State, seconds: real)
    requires seconds < 0.0
    ensures AdvanceTime(s, seconds).0 == s
  {}

  lemma {:induction false} ClosedStays(s: State, call: Call)
    requires s.closed
    ensures Shown(Step(s, call)) == Shown(s)
  {
    hide View, Validate, Execute, CompareAll, DropLease, DropLeases, CompactHistory, NewerBatches, Filtered;
  }

  /** Every clean run of the backend shows, call by call, as the same run of the plain machine. */
  lemma {:induction false} RunRefines(w: World, calls: seq<Call>)
    requires Inv(w.state, w.log) && Clean(w, calls)
    ensures Shown(Run(w, calls).state) == PlainRun(Shown(w.state), calls)
  {
    hide Inv, Step, Guarded, Published, Shown, PlainStep;
    if calls != [] {
      var init := calls[..|calls| - 1];
      RunRefines(w, init);
      RunKeepsInvariant(w, init);
      StepRefines(Run(w, init).state, Run(w, init).log, calls[|calls| - 1]);
    }
  }

  /** In particular every clean run from the empty backend is a run of the empty plain machine. */
  lemma {:induction false} RunsFromTheStart(calls: seq<Call>)
    requires Clean(START, calls)
    ensures Shown(Run(START, calls).state) == PlainRun(EMPTY, calls)
  {
    InitialInvariant();
    RunRefines(START, calls);
    hide Run, PlainRun, Clean;
    assert View(INITIAL.history, 0) == map[];
  }
}
