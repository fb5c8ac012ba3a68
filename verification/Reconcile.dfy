/** The promise the runtime is built on: read a snapshot, watch from the next revision, and miss nothing. */
module Reconcile {
  import opened Wrappers
  import opened Dicts
  import opened ByteStrings
  import opened Backend
  import opened Ranges
  import opened Store
  import opened Views
  import opened Logs
  import opened Compaction
  import opened Commits
  import opened Runs
  import opened Snapshots
  import opened Streams
  import opened Deliveries

  /** The same watch: later calls move batches through it but do not change what it asked for. */
  ghost predicate Continues(before: State, after: State, w: WatcherId) {
    w in before.streams ==>
      && w in after.streams
      && after.streams[w].start == before.streams[w].start
      && after.streams[w].end == before.streams[w].end
      && after.streams[w].from == before.streams[w].from
      && after.streams[w].registeredAt == before.streams[w].registeredAt
  }

  lemma {:induction false} CommitContinues(s: State, writes: seq<Write>, w: WatcherId)
    ensures Continues(s, Commit(s, writes), w)
  {
    hide AppendAll, FilterBatch, EventOf;
  }

  lemma {:induction false} DropLeaseContinues(s: State, id: LeaseId, w: WatcherId)
    ensures Continues(s, DropLease(s, id), w)
  {
    hide Commit, AttachedKeys, Writes, Without;
    var released := s.(leases := Pop(s.leases, id));
    var keys := AttachedKeys(released.history, released.history.order, released.revision, id);
    CommitContinues(released, Writes(released, Deletes(keys), released.revision + 1), w);
  }

  lemma {:induction false} DropLeasesContinue(s: State, ids: seq<LeaseId>, w: WatcherId)
    ensures Continues(s, DropLeases(s, ids), w)
  {
    hide DropLease;
    if ids != [] {
      DropLeasesContinue(s, ids[..|ids| - 1], w);
      DropLeaseContinues(DropLeases(s, ids[..|ids| - 1]), ids[|ids| - 1], w);
    }
  }

  lemma {:induction false} TransactionContinues(
    s: State, compares: seq<Compare>, success: seq<Operation>, failure: seq<Operation>, w: WatcherId)
    ensures Continues(s, Transaction(s, compares, success, failure).0, w)
  {
    hide Commit, Writes, AppendAll, CompareAll, Validate, ChangesData, OpFailure, OpResponse, Responses;
    var ops := Accepted(s, compares, success, failure);
    if ops.Some? {
      assert ops.value[..|ops.value|] == ops.value;
      CommitContinues(s, Writes(s, ops.value, s.revision + 1), w);
    }
  }

  lemma {:induction false} StepContinues(s: State, log: Log, call: Call, w: WatcherId)
    requires StreamsOk(s, log)
    ensures Continues(s, Step(s, call), w)
  {
    hide Transaction, DropLease, DropLeases, CompactHistory, NewerBatches, StreamOk, Filtered, Pop, ExpiredIds;
    match call
    case DoTransaction(compares, success, failure) => TransactionContinues(s, compares, success, failure, w);
    case DoRevoke(id) => DropLeaseContinues(s, id, w);
    case DoAdvance(seconds) =>
      var later := s.(clock := s.clock + seconds);
      DropLeasesContinue(later, ExpiredIds(s.leases, s.leases.order, later.clock), w);
    case _ =>
  }

  lemma {:induction false} RunContinues(from: World, calls: seq<Call>, w: WatcherId)
    requires Inv(from.state, from.log) && StreamsOk(from.state, from.log) && Clean(from, calls)
    ensures Continues(from.state, Run(from, calls).state, w)
  {
    hide Inv, StreamsOk, Step, Guarded, Published;
    if calls != [] {
      var init := calls[..|calls| - 1];
      RunContinues(from, init, w);
      RunKeepsStreams(from, init);
      var mid := Run(from, init);
      StepContinues(mid.state, mid.log, calls[|calls| - 1], w);
    }
  }

  // ----- Exact streams -----

  /**
   Over every clean run, a watch that is not abandoned and did not ask for a start beyond the next
   revision has handed over, or still holds, exactly the batches of the full log from its start on, cut down
   to its range, in order; once the backend is closed the stop marker follows them and nothing else.
   */
  lemma {:induction false} WatchIsExact(calls: seq<Call>, w: WatcherId)
    requires Clean(START, calls)
    requires var s := Run(START, calls).state;
             && w in s.streams && !s.streams[w].phase.Cancelled?
             && s.streams[w].from <= s.streams[w].registeredAt + 1
    ensures var (s, log) := (Run(START, calls).state, Run(START, calls).log);
            var st := s.streams[w];
            && Delivers(Content(st), log, st.start, st.end, st.from)
            && (!s.closed ==> st.phase.Active? && NoStop(st.queue))
            && (s.closed && st.phase.Active? ==> EndsWithStop(st.queue))
            && (st.phase.Finished? ==> s.closed && Delivers(st.yielded, log, st.start, st.end, st.from))
  {
    InitialInvariant();
    RunKeepsInvariant(START, calls);
    InitialStreams();
    RunKeepsStreams(START, calls);
    hide Run, Filtered, Clean;
    var (s, log) := (Run(START, calls).state, Run(START, calls).log);
    var st := s.streams[w];
    StreamDelivers(s, log, w);
    assert StreamOk(st, log, w in s.watchers, s.closed);
    hide Delivers, Inv;
    if st.phase.Finished? {
      assert st.yielded + [] + Items([]) == st.yielded;
    }
  }

  /** What an abandoned watch had handed over is an initial part of the same batches. */
  lemma {:induction false} AbandonedWatch(calls: seq<Call>, w: WatcherId)
    requires Clean(START, calls)
    requires var s := Run(START, calls).state;
             && w in s.streams && s.streams[w].phase.Cancelled?
             && s.streams[w].from <= s.streams[w].registeredAt + 1
    ensures var (s, log) := (Run(START, calls).state, Run(START, calls).log);
            var st := s.streams[w];
            && w !in s.watchers
            && exists all :: st.yielded <= all && Delivers(all, log, st.start, st.end, st.from)
  {
    InitialInvariant();
    RunKeepsInvariant(START, calls);
    InitialStreams();
    RunKeepsStreams(START, calls);
    hide Run, Filtered, Clean, Delivers, Inv;
    var (s, log) := (Run(START, calls).state, Run(START, calls).log);
    StreamDelivers(s, log, w);
    assert StreamOk(s.streams[w], log, w in s.watchers, s.closed);
  }

  lemma {:induction false} InitialStreams()
    ensures StreamsOk(START.state, START.log)
  {}

  // ----- When the start revision is honoured -----

  function WatchAt(w: World, start: Bytes, end: Option<Bytes>, from: int): World {
    Advance(w, DoWatch(start, end, from))
  }

  ghost predicate HonoursStart(w: World, start: Bytes, end: Option<Bytes>, from: int) {
    forall calls: seq<Call> ::
      var (after, id) := (Run(WatchAt(w, start, end, from), calls), w.state.nextWatcherId);
      Clean(WatchAt(w, start, end, from), calls)
      && id in after.state.streams && !after.state.streams[id].phase.Cancelled? ==>
        Delivers(Content(after.state.streams[id]), after.log, start, end, from)
  }

  lemma {:induction false} WatchAtOk(w: World, start: Bytes, end: Option<Bytes>, from: int)
    requires Inv(w.state, w.log) && StreamsOk(w.state, w.log) && Watchable(w.state, from)
    ensures var (v, id) := (WatchAt(w, start, end, from), w.state.nextWatcherId);
            && v.log == w.log && Inv(v.state, v.log) && StreamsOk(v.state, v.log)
            && id in v.state.streams && id in v.state.watchers && !v.state.closed
            && v.state.revision == w.state.revision && v.state.history == w.state.history
            && v.state.leases == w.state.leases
            && v.state.streams[id].start == start && v.state.streams[id].end == end
            && v.state.streams[id].from == from && v.state.streams[id].registeredAt == w.state.revision
  {
    hide Inv, StreamsOk, Filtered;
    SameStoreKeeps(w.state, w.log, Watch(w.state, start, end, from).0);
    WatchKeepsStreams(w.state, w.log, start, end, from);
  }

  /** The stream of a watch after any clean continuation. */
  lemma {:induction false} WatchedStream(w: World, start: Bytes, end: Option<Bytes>, from: int, calls: seq<Call>)
    requires Inv(w.state, w.log) && StreamsOk(w.state, w.log) && Watchable(w.state, from)
    requires Clean(WatchAt(w, start, end, from), calls)
    ensures var (after, id) := (Run(WatchAt(w, start, end, from), calls), w.state.nextWatcherId);
            && Inv(after.state, after.log) && w.log <= after.log
            && id in after.state.streams
            && (!after.state.streams[id].phase.Cancelled? ==>
                  Content(after.state.streams[id])
                  == Filtered(after.log, start, end,
                              if from <= w.state.revision + 1 then from else w.state.revision + 1))
  {
    hide Inv, StreamsOk, Filtered, WatchAt, Run, Clean, Content;
    var v, id := WatchAt(w, start, end, from), w.state.nextWatcherId;
    WatchAtOk(w, start, end, from);
    RunKeepsInvariant(v, calls);
    RunKeepsStreams(v, calls);
    RunContinues(v, calls, id);
    LogGrows(v, calls);
    if !Run(v, calls).state.streams[id].phase.Cancelled? {
      StreamHolds(Run(v, calls), id);
    }
  }

  lemma {:induction false} StreamHolds(w: World, id: WatcherId)
    requires StreamsOk(w.state, w.log) && id in w.state.streams && !w.state.streams[id].phase.Cancelled?
    ensures Content(w.state.streams[id]) == Due(w.log, w.state.streams[id])
  {
    hide Due, Content;
    assert StreamOk(w.state.streams[id], w.log, id in w.state.watchers, w.state.closed);
  }

  lemma {:induction false} EmptyRangeFilters(log: Log, start: Bytes, end: Option<Bytes>, from: int)
    requires !HoldsOwnStart(start, end)
    ensures Filtered(log, start, end, from) == []
  {
    hide KeyInRange;
    if log != [] {
      EmptyRangeFilters(log[..|log| - 1], start, end, from);
      NoEventInRange(log[|log| - 1].events, start, end);
    }
  }

  lemma {:induction false} NoEventInRange(events: seq<WatchEvent>, start: Bytes, end: Option<Bytes>)
    requires !HoldsOwnStart(start, end)
    ensures FilterEvents(events, start, end) == []
  {
    hide KeyInRange;
    if events != [] {
      NoEventInRange(events[..|events| - 1], start, end);
      NonEmptyHoldsStart(start, end);
    }
  }

  /** A put of the range's own start is the next batch, which a stream with a later start should not see. */
  lemma {:induction false} PutPublishes(v: World, start: Bytes, end: Option<Bytes>)
    requires Inv(v.state, v.log) && !v.state.closed && HoldsOwnStart(start, end)
    ensures Clean(v, PutOnly(start))
    ensures var after := Run(v, PutOnly(start));
            && |after.log| == |v.log| + 1 && v.log <= after.log
            && FilterBatch(after.log[|v.log|], start, end).Some?
            && after.state.watchers == v.state.watchers
  {
    hide Inv, Transaction, Published, Run, Clean, KeyInRange, EventOf, Append, AppendAll, ValueAt;
    var (s, op) := (v.state, Put(start, [], None));
    var w := Write(start, PutVersion(ValueAt(s.history, start, s.revision), op, s.revision + 1));
    OnePut(v, start);
    PutCommits(s, op);
    PublishedOne(s, v.log, Run(v, PutOnly(start)).state, WatchBatch([EventOf(w)], s.revision + 1));
    EventOfWrite(w);
    OneEventInRange(EventOf(w), start, end);
  }

  lemma {:induction false} OneEventInRange(e: WatchEvent, start: Bytes, end: Option<Bytes>)
    requires KeyInRange(e.keyValue.key, start, end)
    ensures FilterEvents([e], start, end) == [e]
  {
    assert [e][..0] == [] && FilterEvents([e][..0], start, end) == [];
  }

  /**
   Publishing does not look at a watcher's start: a watch delivers exactly what its start asks for, in
   every clean continuation, if and only if the start is at most the next revision or its range is empty.
   */
  lemma {:induction false} StartRevisionCondition(w: World, start: Bytes, end: Option<Bytes>, from: int)
    requires Inv(w.state, w.log) && StreamsOk(w.state, w.log) && Watchable(w.state, from)
    ensures HonoursStart(w, start, end, from) <==> from <= w.state.revision + 1 || !HoldsOwnStart(start, end)
  {
    hide Inv, StreamsOk, Filtered, Run, Clean, WatchAt, HoldsOwnStart, Content, Delivers, GoodLog, Watchable;
    var v, id := WatchAt(w, start, end, from), w.state.nextWatcherId;
    if from <= w.state.revision + 1 || !HoldsOwnStart(start, end) {
      forall calls: seq<Call> | Clean(v, calls)
        ensures var after := Run(v, calls);
                id in after.state.streams && !after.state.streams[id].phase.Cancelled? ==>
                  Delivers(Content(after.state.streams[id]), after.log, start, end, from)
      {
        WatchedStream(w, start, end, from, calls);
        InvGoodLog(Run(v, calls).state, Run(v, calls).log);
        FilteredDelivers(Run(v, calls).log, start, end, from);
        if !HoldsOwnStart(start, end) {
          EmptyRangeFilters(Run(v, calls).log, start, end, from);
          EmptyRangeFilters(Run(v, calls).log, start, end, w.state.revision + 1);
        }
      }
    } else {
      WatchAtOk(w, start, end, from);
      PutPublishes(v, start, end);
      var calls := PutOnly(start);
      WatchedStream(w, start, end, from, calls);
      InvCounter(w.state, w.log);
      InvGoodLog(Run(v, calls).state, Run(v, calls).log);
      EarlyBatchSeen(v.log, Run(v, calls).log, start, end, from);
      RunKeepsStreams(v, calls);
      RegisteredIsActive(Run(v, calls), id);
      FilteredDelivers(Run(v, calls).log, start, end, from);
      if Delivers(Content(Run(v, calls).state.streams[id]), Run(v, calls).log, start, end, from) {
        DeliveryIsUnique(Content(Run(v, calls).state.streams[id]), Filtered(Run(v, calls).log, start, end, from),
                         Run(v, calls).log, start, end, from);
      }
    }
  }

  lemma {:induction false} RegisteredIsActive(w: World, id: WatcherId)
    requires StreamsOk(w.state, w.log) && id in w.state.watchers
    ensures id in w.state.streams && w.state.streams[id].phase.Active?
  {
    hide Content, Due;
    assert StreamOk(w.state.streams[id], w.log, true, w.state.closed);
  }

  lemma {:induction false} EarlyBatchSeen(log: Log, after: Log, start: Bytes, end: Option<Bytes>, from: int)
    requires GoodLog(after) && |after| == |log| + 1 && FilterBatch(after[|log|], start, end).Some?
    requires from > |log| + 1
    ensures Filtered(after, start, end, from) == [] && Filtered(after, start, end, |log| + 1) != []
  {
    hide FilterBatch, GoodLog;
    LogRevision(after, |log|);
    LogSplit(after, |after|);
    assert after[..|after|] == after;
    FilteredOld(after, start, end, from);
  }

  // ----- Snapshot, then watch -----

  /**
   A client lists a range at some revision, later (after any clean run that leaves the next revision
   uncompacted) watches from the next revision, and the backend runs on: replaying what the watch has
   handed over or still holds onto the snapshot gives the range as it now is.
   */
  lemma {:induction false} SnapshotThenWatch(
    first: World, between: seq<Call>, later: seq<Call>, start: Bytes, end: Option<Bytes>)
    requires Inv(first.state, first.log) && StreamsOk(first.state, first.log) && Clean(first, between)
    requires Watchable(Run(first, between).state, first.state.revision + 1)
    requires Clean(WatchAt(Run(first, between), start, end, first.state.revision + 1), later)
    ensures CaughtUp(first.state, Run(WatchAt(Run(first, between), start, end, first.state.revision + 1), later).state,
                     Run(first, between).state.nextWatcherId, start, end)
  {
    hide *;
    var w, r := Run(first, between), first.state.revision;
    RunKeepsInvariant(first, between);
    RunKeepsStreams(first, between);
    LogGrows(first, between);
    InvCounter(first.state, first.log);
    InvCounter(w.state, w.log);
    WatchedStream(w, start, end, r + 1, later);
    CatchesUp(first, Run(WatchAt(w, start, end, r + 1), later), w.state.nextWatcherId, start, end);
  }

  /** Replaying what a watch has handed over or still holds onto an earlier snapshot gives the range as it is now. */
  ghost predicate CaughtUp(first: State, now: State, id: WatcherId, start: Bytes, end: Option<Bytes>) {
    && id in now.streams
    && (!now.streams[id].phase.Cancelled? ==>
          Replay(Restrict(View(first.history, first.revision), start, end), Content(now.streams[id]))
          == Restrict(View(now.history, now.revision), start, end))
  }

  lemma {:induction false} CatchesUp(first: World, now: World, id: WatcherId, start: Bytes, end: Option<Bytes>)
    requires Inv(first.state, first.log) && Inv(now.state, now.log) && first.log <= now.log
    requires id in now.state.streams
    requires !now.state.streams[id].phase.Cancelled? ==>
               Content(now.state.streams[id]) == Filtered(now.log, start, end, first.state.revision + 1)
    ensures CaughtUp(first.state, now.state, id, start, end)
  {
    hide Inv, View, Replay, Restrict, Content, Filtered, At;
    var r := first.state.revision;
    InvCounter(first.state, first.log);
    InvCounter(now.state, now.log);
    InvView(first.state, first.log, r);
    InvView(now.state, now.log, now.state.revision);
    InvGoodLog(now.state, now.log);
    assert now.log == first.log + now.log[|first.log|..];
    AtPrefix(first.log, now.log[|first.log|..], r);
    LogCatchUp(now.log, start, end, r);
  }
}
