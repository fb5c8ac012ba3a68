/** What a watch delivers, over every clean run. */
module Streams {
  import opened Wrappers
  import opened Dicts
  import opened ByteStrings
  import opened Backend
  import opened Store
  import opened Views
  import opened Logs
  import opened Commits
  import opened Compaction
  import opened Runs
  import opened Snapshots

  function Items(queue: seq<Option<WatchBatch>>): seq<WatchBatch> {
    if queue == [] then []
    else
      var last := queue[|queue| - 1];
      Items(queue[..|queue| - 1]) + if last.Some? then [last.value] else []
  }

  /** Everything a stream has handed over or still holds, in order. */
  function Content(st: Stream): seq<WatchBatch> {
    st.yielded + st.backlog + Items(st.queue)
  }

  /** Live delivery begins after registration whatever start was asked for. */
  function FirstRevision(st: Stream): int {
    if st.from <= st.registeredAt + 1 then st.from else st.registeredAt + 1
  }

  function Due(log: Log, st: Stream): seq<WatchBatch> {
    Filtered(log, st.start, st.end, FirstRevision(st))
  }

  predicate NoStop(queue: seq<Option<WatchBatch>>) {
    forall i :: 0 <= i < |queue| ==> queue[i].Some?
  }

  predicate EndsWithStop(queue: seq<Option<WatchBatch>>) {
    queue != [] && queue[|queue| - 1].None? && NoStop(queue[..|queue| - 1])
  }

  /**
   A stream that is not abandoned holds exactly what is due, and the stop marker once the backend is closed;
   an abandoned one has handed over an initial part of it.
   */
  ghost predicate StreamOk(st: Stream, log: Log, registered: bool, closed: bool) {
    && st.registeredAt <= |log|
    && (registered ==> st.phase.Active? && NoStop(st.queue) && !closed)
    && (st.phase.Active? && !registered ==> EndsWithStop(st.queue) && closed)
    && (st.phase.Finished? ==> st.backlog == [] && st.queue == [] && closed)
    && (if st.phase.Cancelled? then st.yielded <= Due(log, st) else Content(st) == Due(log, st))
  }

  ghost predicate StreamsOk(s: State, log: Log) {
    && s.watchers <= s.streams.Keys
    && (forall w :: w in s.streams ==> w < s.nextWatcherId)
    && (forall w :: w in s.streams ==> StreamOk(s.streams[w], log, w in s.watchers, s.closed))
  }

  // ----- Publishing -----

  lemma {:induction false} ItemsAppend(queue: seq<Option<WatchBatch>>, item: Option<WatchBatch>)
    ensures Items(queue + [item]) == Items(queue) + (if item.Some? then [item.value] else [])
  {
    assert (queue + [item])[..|queue|] == queue;
  }

  lemma {:induction false} ItemsTail(queue: seq<Option<WatchBatch>>)
    requires queue != []
    ensures Items(queue) == (if queue[0].Some? then [queue[0].value] else []) + Items(queue[1..])
  {
    if |queue| == 1 {
      assert queue[..0] == [] && queue[1..] == [];
    } else {
      ItemsTail(queue[..|queue| - 1]);
      assert queue[..|queue| - 1][1..] == queue[1..][..|queue[1..]| - 1];
    }
  }

  lemma {:induction false} DueGrows(log: Log, batch: WatchBatch, st: Stream)
    requires batch.revision == |log| + 1 && st.registeredAt <= |log|
    ensures var filtered := FilterBatch(batch, st.start, st.end);
            Due(log + [batch], st) == Due(log, st) + (if filtered.Some? then [filtered.value] else [])
  {
    hide FilterBatch;
    assert (log + [batch])[..|log|] == log;
  }

  lemma {:induction false} DeliveredOk(st: Stream, log: Log, batch: WatchBatch)
    requires StreamOk(st, log, true, false) && batch.revision == |log| + 1
    ensures StreamOk(Deliver(st, batch), log + [batch], true, false)
  {
    hide FilterBatch, Filtered, Items;
    DueGrows(log, batch, st);
    var filtered := FilterBatch(batch, st.start, st.end);
    if filtered.Some? {
      ItemsAppend(st.queue, filtered);
      var sent := st.yielded + st.backlog;
      assert sent + (Items(st.queue) + [filtered.value]) == sent + Items(st.queue) + [filtered.value];
    } else {
      assert Due(log, st) + [] == Due(log, st);
    }
  }

  lemma {:induction false} AbandonedOk(st: Stream, log: Log, batch: WatchBatch)
    requires StreamOk(st, log, false, false) && batch.revision == |log| + 1
    ensures StreamOk(st, log + [batch], false, false)
  {
    DueGrows(log, batch, st);
    hide Due, Content, FilterBatch;
  }

  /** One published batch: every registered stream holds what is due again. */
  lemma {:induction false} PublishKeepsStreams(s: State, log: Log, t: State, batch: WatchBatch)
    requires StreamsOk(s, log) && !s.closed && batch.revision == |log| + 1
    requires t.streams == DeliverAll(s.streams, s.watchers, batch) && t.watchers == s.watchers
    requires t.nextWatcherId == s.nextWatcherId && t.closed == s.closed
    ensures StreamsOk(t, log + [batch])
  {
    hide StreamOk, Deliver;
    forall w | w in t.streams ensures StreamOk(t.streams[w], log + [batch], w in t.watchers, t.closed) {
      if w in s.watchers {
        DeliveredOk(s.streams[w], log, batch);
      } else {
        AbandonedOk(s.streams[w], log, batch);
      }
    }
  }

  lemma {:induction false} CommitKeepsStreams(s: State, log: Log, writes: seq<Write>)
    requires StreamsOk(s, log) && !s.closed && |log| == s.revision && writes != []
    ensures StreamsOk(Commit(s, writes), log + [WatchBatch(Events(writes), s.revision + 1)])
  {
    hide AppendAll, EventOf, DeliverAll, StreamsOk;
    PublishKeepsStreams(s, log, Commit(s, writes), WatchBatch(Events(writes), s.revision + 1));
  }

  lemma {:induction false} SameStreamsOk(s: State, log: Log, t: State)
    requires StreamsOk(s, log)
    requires t.streams == s.streams && t.watchers == s.watchers
    requires t.nextWatcherId == s.nextWatcherId && t.closed == s.closed
    ensures StreamsOk(t, log)
  {
    hide StreamOk;
  }

  // ----- The steps -----

  lemma {:induction false} ExecuteKeepsStreams(s: State, log: Log, ops: seq<Operation>, succeeded: bool)
    requires Inv(s, log) && StreamsOk(s, log) && !s.closed
    requires Validate(s, ops).None? && Completed(s, ops) == |ops|
    ensures var t := Execute(s, ops, succeeded).0; StreamsOk(t, log + Published(s, t))
  {
    hide Inv, StreamsOk, ChangesData, Writes, Validate, Commit, Published, OpFailure, OpResponse, Responses, Events;
    InvCounter(s, log);
    ExecuteKeepsInvariant(s, log, ops, succeeded);
    NoChangeNoWrites(s, ops, s.revision + 1);
    var t := Execute(s, ops, succeeded).0;
    if ChangesData(s, ops) {
      assert ops[..|ops|] == ops;
      PublishedOne(s, log, t, TransactionBatch(s, ops));
      CommitKeepsStreams(s, log, Writes(s, ops, s.revision + 1));
    } else {
      NothingPublished(s, log, t);
    }
  }

  lemma {:induction false} TransactionKeepsStreams(
    s: State, log: Log, compares: seq<Compare>, success: seq<Operation>, failure: seq<Operation>)
    requires Inv(s, log) && StreamsOk(s, log) && Guarded(s, DoTransaction(compares, success, failure))
    ensures var t := Transaction(s, compares, success, failure).0; StreamsOk(t, log + Published(s, t))
  {
    AtomicityCondition(s, compares, success, failure);
    hide Inv, StreamsOk, CompareAll, Validate, AllOrNothing, Published, Guarded, OpFailure, Commit, Writes, AppendAll,
      ChangesData;
    var (t, r) := Transaction(s, compares, success, failure);
    NothingPublished(s, log, s);
    if r.Success? {
      ExecuteKeepsStreams(s, log, Accepted(s, compares, success, failure).value, CompareAll(s, compares).value);
    }
  }

  lemma {:induction false} NothingPublished(s: State, log: Log, t: State)
    requires t.events == s.events
    ensures log + Published(s, t) == log
  {}

  lemma {:induction false} DropLeaseKeepsStreams(s: State, log: Log, id: LeaseId)
    requires Inv(s, log) && StreamsOk(s, log) && !s.closed
    ensures var t := DropLease(s, id); !t.closed && StreamsOk(t, log + Published(s, t))
  {
    hide StreamOk, AttachedKeys, GoodLog, ChainsOk, Shows, Writes, Commit, Published, DeliverAll, AppendAll;
    var released := s.(leases := Pop(s.leases, id));
    var t := DropLease(s, id);
    SameStreamsOk(s, log, released);
    var keys := AttachedKeys(released.history, released.history.order, released.revision, id);
    ExpireKeepsInvariant(released, log, id);
    if keys == [] {
      NothingPublished(s, log, t);
    } else {
      var writes := Writes(released, Deletes(keys), released.revision + 1);
      ExpiryWrites(released, log, id);
      CommitKeepsStreams(released, log, writes);
      PublishedOne(s, log, t, ExpiryBatch(released, id));
      CommitClosed(released, writes);
    }
  }

  lemma {:induction false} CommitClosed(s: State, writes: seq<Write>)
    ensures Commit(s, writes).closed == s.closed
  {}

  lemma {:induction false} ExpiryWrites(s: State, log: Log, id: LeaseId)
    requires Inv(s, log)
    ensures var keys := AttachedKeys(s.history, s.history.order, s.revision, id);
            keys != [] ==> Writes(s, Deletes(keys), s.revision + 1) != []
  {
    hide Inv, Writes, ChangesData, Changes, ValueAt;
    var keys := AttachedKeys(s.history, s.history.order, s.revision, id);
    if keys != [] {
      assert Attached(s.history, keys[0], s.revision, id);
      LiveKeyIsDeleted(s, log, keys[0]);
      ChangesMember(s, Deletes(keys), 0);
      NoChangeNoWrites(s, Deletes(keys), s.revision + 1);
    }
  }

  lemma {:induction false} DropLeasesKeepStreams(s: State, log: Log, ids: seq<LeaseId>)
    requires Inv(s, log) && StreamsOk(s, log) && !s.closed
    ensures var t := DropLeases(s, ids); !t.closed && StreamsOk(t, log + Published(s, t))
  {
    hide Inv, StreamsOk, DropLease;
    if ids == [] {
      NothingPublished(s, log, s);
    } else {
      var mid, t := DropLeases(s, ids[..|ids| - 1]), DropLeases(s, ids);
      DropLeasesKeepStreams(s, log, ids[..|ids| - 1]);
      DropLeasesKeep(s, log, ids[..|ids| - 1]);
      DropLeaseKeeps(mid, log + Published(s, mid), ids[|ids| - 1]);
      DropLeaseKeepsStreams(mid, log + Published(s, mid), ids[|ids| - 1]);
      assert log + Published(s, mid) + Published(mid, t) == log + Published(s, t);
    }
  }

  lemma {:induction false} AdvanceTimeKeepsStreams(s: State, log: Log, seconds: real)
    requires Inv(s, log) && StreamsOk(s, log)
    ensures var t := AdvanceTime(s, seconds).0; StreamsOk(t, log + Published(s, t))
  {
    hide Inv, DropLeases, ExpiredIds, StreamsOk;
    var later := s.(clock := s.clock + seconds);
    SameStoreKeeps(s, log, later);
    SameStreamsOk(s, log, later);
    NothingPublished(s, log, s);
    if !s.closed {
      DropLeasesKeepStreams(later, log, ExpiredIds(s.leases, s.leases.order, later.clock));
    }
  }

  /** At registration the backlog is exactly what the full log has to offer, whatever was compacted before. */
  lemma {:induction false} BacklogIsDue(s: State, log: Log, start: Bytes, end: Option<Bytes>, from: int)
    requires Inv(s, log) && (s.compactedRevision != 0 ==> from > s.compactedRevision)
    ensures Filtered(s.events, start, end, from)
         == Filtered(log, start, end, if from <= s.revision + 1 then from else s.revision + 1)
  {
    hide ChainsOk, Shows, GoodLog, Filtered;
    if s.compactedRevision == 0 {
      assert s.events == log;
    } else {
      FilteredFrom(log, start, end, s.compactedRevision, from);
    }
    if from > s.revision + 1 {
      LogSplit(log, |log|);
      assert log[..|log|] == log;
      FilteredOld(log, start, end, from);
      FilteredOld(log, start, end, s.revision + 1);
    }
  }

  /** The backend is open, and nothing from the start on was compacted away. */
  predicate Watchable(s: State, from: int) {
    !s.closed && (s.compactedRevision == 0 || s.compactedRevision < from)
  }

  /** A watch is refused exactly when the backend is closed or a batch from its start on is no longer retained. */
  lemma {:induction false} WatchRefusedExactly(s: State, log: Log, start: Bytes, end: Option<Bytes>, from: int)
    requires Inv(s, log)
    ensures var r := Watch(s, start, end, from).1;
            && (r.Failure? <==>
                  s.closed || exists i :: 0 <= i < |log| && log[i].revision >= from && log[i] !in s.events)
            && (r.Failure? <==> !Watchable(s, from))
            && (r.Failure? ==>
                  r.error == if s.closed then BackendClosed else CompactedRevision(from, s.compactedRevision))
  {
    InvCounter(s, log);
    InvEvents(s, log);
    InvGoodLog(s, log);
    RetainedRevisions(s, log);
    hide Inv, GoodLog, Filtered;
    forall i | s.compactedRevision <= i < |log| ensures log[i] in s.events {
      assert s.events[i - s.compactedRevision] == log[i];
    }
    forall i | 0 <= i < |log| ensures log[i].revision == i + 1 {
      LogRevision(log, i);
    }
    if s.compactedRevision != 0 && from <= s.compactedRevision {
      var i := s.compactedRevision - 1;
      assert log[i].revision >= from && log[i] !in s.events;
    }
  }

  lemma {:induction false} RegisteredOk(
    s: State, log: Log, start: Bytes, end: Option<Bytes>, from: int)
    requires Inv(s, log) && Watchable(s, from)
    ensures var t := Watch(s, start, end, from).0;
            && Watch(s, start, end, from).1 == Success(s.nextWatcherId)
            && s.nextWatcherId in t.streams && s.nextWatcherId in t.watchers
            && StreamOk(t.streams[s.nextWatcherId], log, true, t.closed)
  {
    InvCounter(s, log);
    BacklogIsDue(s, log, start, end, from);
    hide Inv, Filtered;
    FreshOk(Stream(start, end, from, s.revision, Filtered(s.events, start, end, from), [], [], Active), log);
    hide StreamOk, Due;
  }

  lemma {:induction false} FreshOk(st: Stream, log: Log)
    requires st.phase.Active? && st.queue == [] && st.yielded == [] && st.registeredAt <= |log|
    requires st.backlog == Due(log, st)
    ensures StreamOk(st, log, true, false)
  {
    hide Filtered;
    assert [] + st.backlog + [] == st.backlog;
  }

  lemma {:induction false} WatchKeepsStreams(s: State, log: Log, start: Bytes, end: Option<Bytes>, from: int)
    requires Inv(s, log) && StreamsOk(s, log)
    ensures StreamsOk(Watch(s, start, end, from).0, log)
  {
    hide Inv, Filtered, StreamOk;
    if Watchable(s, from) {
      var t := Watch(s, start, end, from).0;
      RegisteredOk(s, log, start, end, from);
      forall w | w in t.streams ensures StreamOk(t.streams[w], log, w in t.watchers, t.closed) {
        if w != s.nextWatcherId {
          assert StreamOk(s.streams[w], log, w in s.watchers, s.closed);
        }
      }
    }
  }

  /** Handing over a batch moves it inside the content; the stop marker ends a stream with nothing left. */
  lemma {:induction false} NextStreamOk(s: State, log: Log, w: WatcherId)
    requires StreamsOk(s, log) && w in s.streams && s.streams[w].phase.Active?
    ensures var t := Next(s, w).0;
            w in t.streams && StreamOk(t.streams[w], log, w in t.watchers, t.closed)
  {
    var st := s.streams[w];
    assert StreamOk(st, log, w in s.watchers, s.closed);
    hide Filtered, Items;
    if st.backlog != [] {
      assert st.backlog == [st.backlog[0]] + st.backlog[1..];
      assert st.yielded + [st.backlog[0]] + st.backlog[1..] == st.yielded + st.backlog;
    } else if st.queue != [] {
      ItemsTail(st.queue);
      if st.queue[0].Some? {
        var rest := Items(st.queue[1..]);
        assert st.yielded + st.backlog + ([st.queue[0].value] + rest)
            == st.yielded + [st.queue[0].value] + st.backlog + rest;
        if !st.queue[|st.queue| - 1].Some? {
          assert st.queue[1..][..|st.queue[1..]| - 1] == st.queue[..|st.queue| - 1][1..];
        }
      } else {
        assert st.queue[1..] == [] && [] + Items(st.queue[1..]) == Items(st.queue[1..]);
      }
    }
  }

  lemma {:induction false} NextKeepsStreams(s: State, log: Log, w: WatcherId)
    requires StreamsOk(s, log)
    ensures StreamsOk(Next(s, w).0, log)
  {
    if w in s.streams && s.streams[w].phase.Active? {
      NextStreamOk(s, log, w);
      hide StreamOk;
      var t := Next(s, w).0;
      forall v | v in t.streams ensures StreamOk(t.streams[v], log, v in t.watchers, t.closed) {
        if v != w {
          assert StreamOk(s.streams[v], log, v in s.watchers, s.closed);
        }
      }
    }
  }

  /** The next batch an open stream holds is the next one due; the stop marker shows only after all of them. */
  lemma {:induction false} HeldIsDue(st: Stream, log: Log, registered: bool, closed: bool)
    requires StreamOk(st, log, registered, closed) && st.phase.Active?
    ensures var due := Due(log, st);
            if st.backlog != [] then |st.yielded| < |due| && due[|st.yielded|] == st.backlog[0]
            else if st.queue == [] then st.yielded == due && registered
            else if st.queue[0].Some? then |st.yielded| < |due| && due[|st.yielded|] == st.queue[0].value
            else st.yielded == due && !registered
  {
    hide Filtered, Items;
    if st.backlog == [] && st.queue != [] {
      ItemsTail(st.queue);
      if st.queue[0].None? {
        assert st.queue[1..] == [];
      }
    }
    NoItems();
    assert st.yielded + [] + [] == st.yielded;
  }

  /**
   Resuming a stream hands over the next batch that is due and nothing else; it waits exactly when all that
   is due was handed over and more may come, and stops otherwise.
   */
  lemma {:induction false} NextAnswers(s: State, log: Log, w: WatcherId)
    requires StreamsOk(s, log) && w in s.streams
    ensures var st, due := s.streams[w], Due(log, s.streams[w]);
            var (t, r) := Next(s, w);
            && t.streams.Keys == s.streams.Keys
            && t.streams[w].yielded == st.yielded + (if r.Yield? then [r.batch] else [])
            && (r.Yield? <==> st.phase.Active? && st.yielded != due)
            && (r.Yield? ==> |st.yielded| < |due| && r.batch == due[|st.yielded|])
            && (r.Blocked? <==> st.phase.Active? && st.yielded == due && w in s.watchers)
            && (forall v :: v in s.streams && v != w ==> t.streams[v] == s.streams[v])
  {
    var st := s.streams[w];
    assert StreamOk(st, log, w in s.watchers, s.closed);
    hide StreamOk, StreamsOk, Due;
    assert st.yielded + [] == st.yielded;
    if st.phase.Active? {
      HeldIsDue(st, log, w in s.watchers, s.closed);
    }
  }

  lemma {:induction false} NoItems()
    ensures Items([]) == []
  {}

  lemma {:induction false} CancelledOk(st: Stream, log: Log, registered: bool, closed: bool)
    requires StreamOk(st, log, registered, closed) && st.phase.Active?
    ensures StreamOk(st.(phase := Cancelled), log, false, closed)
  {
    hide Filtered, Items;
  }

  /** What an abandoned stream had handed over begins what was due, and nothing is handed over afterwards. */
  lemma {:induction false} CancelKeepsStreams(s: State, log: Log, w: WatcherId)
    requires StreamsOk(s, log)
    ensures StreamsOk(Cancel(s, w), log)
  {
    hide StreamOk;
    var t := Cancel(s, w);
    forall v | v in t.streams ensures StreamOk(t.streams[v], log, v in t.watchers, t.closed) {
      assert StreamOk(s.streams[v], log, v in s.watchers, s.closed);
      if v == w && s.streams[w].phase.Active? {
        CancelledOk(s.streams[w], log, w in s.watchers, s.closed);
      }
    }
  }

  lemma {:induction false} StoppedOk(st: Stream, log: Log)
    requires StreamOk(st, log, true, false)
    ensures StreamOk(st.(queue := st.queue + [None]), log, false, true)
  {
    hide Filtered, Items;
    ItemsAppend(st.queue, None);
    assert Items(st.queue) + [] == Items(st.queue);
    assert (st.queue + [None])[..|st.queue|] == st.queue;
  }

  lemma {:induction false} CloseKeepsStreams(s: State, log: Log)
    requires StreamsOk(s, log)
    ensures StreamsOk(Close(s), log)
  {
    if !s.closed {
      var t := Close(s);
      forall w | w in t.streams ensures StreamOk(t.streams[w], log, w in t.watchers, t.closed) {
        hide Due, Content, EndsWithStop, NoStop;
        assert StreamOk(s.streams[w], log, w in s.watchers, s.closed);
        if w in s.watchers {
          StoppedOk(s.streams[w], log);
        }
      }
    }
  }

  lemma {:induction false} StepKeepsStreams(s: State, log: Log, call: Call)
    requires Inv(s, log) && StreamsOk(s, log) && Guarded(s, call)
    ensures StreamsOk(Step(s, call), log + Published(s, Step(s, call)))
  {
    hide Inv, StreamsOk, Transaction, DropLease, Guarded, AdvanceTime, Published, CompactHistory, Close, Cancel, Next,
      Watch, Pop, NewerBatches;
    var t := Step(s, call);
    match call
    case DoTransaction(compares, success, failure) => TransactionKeepsStreams(s, log, compares, success, failure);
    case DoRevoke(id) =>
      NothingPublished(s, log, s);
      if !s.closed { DropLeaseKeepsStreams(s, log, id); }
    case DoAdvance(seconds) => AdvanceTimeKeepsStreams(s, log, seconds);
    case DoCompact(revision) =>
      CompactKeeps(s, log, revision);
      SameStreamsOk(s, log, t);
      assert log + [] == log;
    case DoWatch(start, end, from) =>
      WatchKeepsStreams(s, log, start, end, from);
      StreamCallsKeepEvents(s, call);
      NothingPublished(s, log, t);
    case DoNext(w) =>
      NextKeepsStreams(s, log, w);
      StreamCallsKeepEvents(s, call);
      NothingPublished(s, log, t);
    case DoCancel(w) =>
      CancelKeepsStreams(s, log, w);
      StreamCallsKeepEvents(s, call);
      NothingPublished(s, log, t);
    case DoClose =>
      CloseKeepsStreams(s, log);
      StreamCallsKeepEvents(s, call);
      NothingPublished(s, log, t);
    case _ =>
      SameStreamsOk(s, log, t);
      NothingPublished(s, log, t);
  }

  lemma {:induction false} StreamCallsKeepEvents(s: State, call: Call)
    requires call.DoWatch? || call.DoNext? || call.DoCancel? || call.DoClose?
    ensures Step(s, call).events == s.events
  {}

  lemma {:induction false} RunKeepsStreams(w: World, calls: seq<Call>)
    requires Inv(w.state, w.log) && StreamsOk(w.state, w.log) && Clean(w, calls)
    ensures StreamsOk(Run(w, calls).state, Run(w, calls).log)
  {
    hide Inv, StreamsOk, Step, Guarded, Published;
    if calls != [] {
      RunKeepsStreams(w, calls[..|calls| - 1]);
      RunKeepsInvariant(w, calls[..|calls| - 1]);
      var mid := Run(w, calls[..|calls| - 1]);
      StepKeepsStreams(mid.state, mid.log, calls[|calls| - 1]);
    }
  }
}
