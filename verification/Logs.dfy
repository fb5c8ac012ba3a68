/**
 The full event log, which compaction never shortens, and what it says about the store: the view at a
 revision is the replay of the log up to it.
 */
module Logs {
  import opened Wrappers
  import opened ByteStrings
  import opened Backend
  import opened Store
  import opened Views

  type Log = seq<WatchBatch>

  // ----- Replaying events onto a plain map -----

  function ApplyEvent(m: Snapshot, e: WatchEvent): Snapshot {
    if e.kind.PUT? then m[e.keyValue.key := e.keyValue] else m - {e.keyValue.key}
  }

  function ApplyEvents(m: Snapshot, events: seq<WatchEvent>): Snapshot {
    if events == [] then m
    else ApplyEvent(ApplyEvents(m, events[..|events| - 1]), events[|events| - 1])
  }

  function Replay(m: Snapshot, batches: seq<WatchBatch>): Snapshot {
    if batches == [] then m
    else ApplyEvents(Replay(m, batches[..|batches| - 1]), batches[|batches| - 1].events)
  }

  function At(log: Log, r: nat): Snapshot
    requires r <= |log|
  {
    Replay(map[], log[..r])
  }

  lemma {:induction false} ReplayConcat(m: Snapshot, a: seq<WatchBatch>, b: seq<WatchBatch>)
    ensures Replay(m, a + b) == Replay(Replay(m, a), b)
  {
    if b == [] {
      assert a + b == a;
    } else {
      assert (a + b)[..|a + b| - 1] == a + b[..|b| - 1];
      ReplayConcat(m, a, b[..|b| - 1]);
    }
  }

  lemma {:induction false} AtNext(log: Log, r: nat)
    requires r < |log|
    ensures At(log, r + 1) == ApplyEvents(At(log, r), log[r].events)
  {
    assert log[..r + 1][..r] == log[..r];
  }

  /** What the log already shows is not changed by what is appended to it. */
  lemma {:induction false} AtPrefix(log: Log, more: Log, r: nat)
    requires r <= |log|
    ensures At(log + more, r) == At(log, r)
  {
    assert (log + more)[..r] == log[..r];
  }

  ghost predicate DistinctKeys(events: seq<WatchEvent>) {
    forall i, j :: 0 <= i < j < |events| ==> events[i].keyValue.key != events[j].keyValue.key
  }

  ghost predicate Touches(events: seq<WatchEvent>, key: Bytes) {
    exists e :: e in events && e.keyValue.key == key
  }

  function Outcome(e: WatchEvent): Option<KeyValue> {
    if e.kind.PUT? then Some(e.keyValue) else None
  }

  lemma {:induction false} UntouchedLookup(m: Snapshot, events: seq<WatchEvent>, key: Bytes)
    requires !Touches(events, key)
    ensures Lookup(ApplyEvents(m, events), key) == Lookup(m, key)
  {
    if events != [] {
      var init, last := events[..|events| - 1], events[|events| - 1];
      assert last in events && forall e :: e in init ==> e in events;
      UntouchedLookup(m, init, key);
    }
  }

  lemma {:induction false} TouchedLookup(m: Snapshot, events: seq<WatchEvent>, i: nat)
    requires i < |events| && DistinctKeys(events)
    ensures Lookup(ApplyEvents(m, events), events[i].keyValue.key) == Outcome(events[i])
  {
    var init, last := events[..|events| - 1], events[|events| - 1];
    if i < |init| {
      TouchedLookup(m, init, i);
    }
  }

  // ----- Well-formed logs -----

  /** An event as the store writes it on top of the map `m`: puts count on, deletes hit only what is there. */
  ghost predicate EventOk(m: Snapshot, e: WatchEvent, revision: nat) {
    var kv := e.keyValue;
    && kv.modRevision == revision
    && if e.kind.PUT? then
         && kv.createRevision == (if kv.key in m then m[kv.key].createRevision else revision)
         && kv.version == (if kv.key in m then m[kv.key].version + 1 else 1)
       else
         && kv.key in m
         && kv == KeyValue(kv.key, [], m[kv.key].createRevision, revision, m[kv.key].version, None)
  }

  ghost predicate BatchOk(m: Snapshot, batch: WatchBatch, revision: nat) {
    && batch.revision == revision
    && batch.events != []
    && DistinctKeys(batch.events)
    && (forall e :: e in batch.events ==> EventOk(m, e, revision))
  }

  /** The log has one non-empty batch for each revision from 1 on, each well-formed on top of those before. */
  ghost predicate GoodLog(log: Log) {
    forall i: nat :: i < |log| ==> BatchOk(At(log, i), log[i], i + 1)
  }

  lemma {:induction false} GoodLogExtends(log: Log, batch: WatchBatch)
    requires GoodLog(log) && BatchOk(At(log, |log|), batch, |log| + 1)
    ensures GoodLog(log + [batch])
  {
    forall i: nat | i < |log + [batch]| ensures BatchOk(At(log + [batch], i), (log + [batch])[i], i + 1) {
      AtPrefix(log, [batch], i);
    }
  }

  // ----- The invariant -----

  ghost predicate ChainOk(chain: seq<Version>, revision: nat) {
    && (forall i, j :: 0 <= i < j < |chain| ==> chain[i].revision < chain[j].revision)
    && (forall i :: 0 <= i < |chain| ==> 0 < chain[i].revision <= revision)
  }

  ghost predicate ChainsOk(h: History, revision: nat) {
    forall k :: ChainOk(Chain(h, k), revision)
  }

  /** From the compacted revision on, the history shows at each revision the replay of the log up to it. */
  ghost predicate Shows(h: History, compacted: nat, log: Log) {
    forall k, r: nat :: compacted <= r <= |log| ==> ValueAt(h, k, r) == Lookup(At(log, r), k)
  }

  ghost predicate Inv(s: State, log: Log) {
    && |log| == s.revision
    && s.compactedRevision <= s.revision
    && s.events == log[s.compactedRevision..]
    && GoodLog(log)
    && ChainsOk(s.history, s.revision)
    && Shows(s.history, s.compactedRevision, log)
  }

  lemma {:induction false} InvCounter(s: State, log: Log)
    requires Inv(s, log)
    ensures |log| == s.revision && s.compactedRevision <= s.revision
  {}

  lemma {:induction false} InvGoodLog(s: State, log: Log)
    requires Inv(s, log)
    ensures GoodLog(log)
  {}

  lemma {:induction false} InvShows(s: State, log: Log, key: Bytes, r: nat)
    requires Inv(s, log) && s.compactedRevision <= r <= s.revision
    ensures ValueAt(s.history, key, r) == Lookup(At(log, r), key)
  {}

  lemma {:induction false} InvView(s: State, log: Log, r: nat)
    requires Inv(s, log) && s.compactedRevision <= r <= s.revision
    ensures View(s.history, r) == At(log, r)
  {
    hide ValueAt, At, ChainsOk, GoodLog, View;
    forall k ensures Lookup(View(s.history, r), k) == Lookup(At(log, r), k) {
      ViewShows(s.history, k, r);
      InvShows(s, log, k, r);
    }
    SameLookups(View(s.history, r), At(log, r));
  }

  // ----- Committing writes -----

  ghost predicate DistinctWrites(writes: seq<Write>) {
    forall i, j :: 0 <= i < j < |writes| ==> writes[i].key != writes[j].key
  }

  /** Writes a transaction or an expiry may commit on top of what the store shows now. */
  ghost predicate WritesOk(m: Snapshot, writes: seq<Write>, revision: nat) {
    && DistinctWrites(writes)
    && (forall w :: w in writes ==> w.version.revision == revision && EventOk(m, EventOf(w), revision))
  }

  lemma {:induction false} EventOfWrite(w: Write)
    ensures EventOf(w).keyValue.key == w.key
    ensures EventOf(w).kind.DELETE? <==> w.version.value.None?
  {}

  lemma {:induction false} ChainAfter(h: History, writes: seq<Write>, key: Bytes)
    requires DistinctWrites(writes)
    ensures (forall w :: w in writes ==> w.key != key) ==> Chain(AppendAll(h, writes), key) == Chain(h, key)
    ensures forall w :: w in writes && w.key == key ==> Chain(AppendAll(h, writes), key) == Chain(h, key) + [w.version]
  {
    if writes != [] {
      var init, last := writes[..|writes| - 1], writes[|writes| - 1];
      assert writes == init + [last];
      ChainAfter(h, init, key);
    }
  }

  lemma {:induction false} ChainsAfter(h: History, writes: seq<Write>, revision: nat)
    requires ChainsOk(h, revision) && DistinctWrites(writes)
    requires forall w :: w in writes ==> w.version.revision == revision + 1
    ensures ChainsOk(AppendAll(h, writes), revision + 1)
  {
    hide AppendAll;
    forall k ensures ChainOk(Chain(AppendAll(h, writes), k), revision + 1) {
      ChainAfter(h, writes, k);
      assert ChainOk(Chain(h, k), revision);
      if w :| w in writes && w.key == k {
      }
    }
  }

  /** Above the newest version a chain always reads the same. */
  lemma {:induction false} QuietAbove(chain: seq<Version>, q: nat, r: nat)
    requires ChainOk(chain, q) && q <= r
    ensures LastAt(chain, r) == LastAt(chain, q)
  {}

  lemma {:induction false} WrittenShows(h: History, m: Snapshot, w: Write, key: Bytes, revision: nat)
    requires ValueAt(h, key, revision) == Lookup(m, key) && w.version.revision == revision
    ensures ValueAt(Append(h, w), key, revision) == Lookup(ApplyEvent(m, EventOf(w)), key)
  {
    hide ValueAt, Append;
    ReadAfterAppend(h, w, key, revision);
  }

  lemma {:induction false} CommittedShows(h: History, m: Snapshot, writes: seq<Write>, key: Bytes, revision: nat)
    requires ValueAt(h, key, revision) == Lookup(m, key)
    requires forall w :: w in writes ==> w.version.revision == revision
    ensures ValueAt(AppendAll(h, writes), key, revision) == Lookup(ApplyEvents(m, Events(writes)), key)
  {
    hide ValueAt, Append, ApplyEvent, EventOf;
    if writes != [] {
      var init, last := writes[..|writes| - 1], writes[|writes| - 1];
      CommittedShows(h, m, init, key, revision);
      WrittenShows(AppendAll(h, init), ApplyEvents(m, Events(init)), last, key, revision);
      assert Events(writes)[..|writes| - 1] == Events(init);
    }
  }

  lemma {:induction false} ShowsAfter(s: State, log: Log, writes: seq<Write>)
    requires Inv(s, log)
    requires forall w :: w in writes ==> w.version.revision == s.revision + 1
    ensures Shows(AppendAll(s.history, writes), s.compactedRevision,
                  log + [WatchBatch(Events(writes), s.revision + 1)])
  {
    hide AppendAll, Events, Replay, At, ValueAt, GoodLog, ChainsOk;
    var batch := WatchBatch(Events(writes), s.revision + 1);
    var h := AppendAll(s.history, writes);
    forall k, r: nat | s.compactedRevision <= r <= |log| + 1
      ensures ValueAt(h, k, r) == Lookup(At(log + [batch], r), k)
    {
      if r <= |log| {
        LaterWritesInvisible(s.history, writes, k, r);
        AtPrefix(log, [batch], r);
        InvShows(s, log, k, r);
      } else {
        AtNext(log + [batch], |log|);
        AtPrefix(log, [batch], |log|);
        InvShows(s, log, k, |log|);
        InvQuiet(s, log, k);
        CommittedShows(s.history, At(log, |log|), writes, k, r);
      }
    }
  }

  lemma {:induction false} InvQuiet(s: State, log: Log, key: Bytes)
    requires Inv(s, log)
    ensures ValueAt(s.history, key, s.revision + 1) == ValueAt(s.history, key, s.revision)
  {
    assert ChainOk(Chain(s.history, key), s.revision);
    QuietAbove(Chain(s.history, key), s.revision, s.revision + 1);
  }

  /** Whatever is published with the next revision keeps the invariant. */
  lemma {:induction false} CommitKeepsInvariant(s: State, log: Log, writes: seq<Write>)
    requires Inv(s, log) && writes != [] && WritesOk(At(log, |log|), writes, s.revision + 1)
    ensures var batch := WatchBatch(Events(writes), s.revision + 1);
            && Inv(Commit(s, writes), log + [batch])
            && Commit(s, writes).events == s.events + [batch]
  {
    hide AppendAll, EventOk, Shows, ChainsOk, At;
    var batch := WatchBatch(Events(writes), s.revision + 1);
    ShowsAfter(s, log, writes);
    ChainsAfter(s.history, writes, s.revision);
    assert BatchOk(At(log, |log|), batch, |log| + 1) by {
      forall e | e in batch.events ensures EventOk(At(log, |log|), e, |log| + 1) {
        var i :| 0 <= i < |writes| && batch.events[i] == e;
        assert writes[i] in writes;
      }
      forall i, j | 0 <= i < j < |batch.events|
        ensures batch.events[i].keyValue.key != batch.events[j].keyValue.key
      {
        assert batch.events[i] == EventOf(writes[i]) && batch.events[j] == EventOf(writes[j]);
      }
    }
    GoodLogExtends(log, batch);
    assert (log + [batch])[s.compactedRevision..] == log[s.compactedRevision..] + [batch];
  }
}
