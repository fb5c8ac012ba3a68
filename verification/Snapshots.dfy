/** A snapshot at any readable revision, brought up to date by the events after it, is the current map. */
module Snapshots {
  import opened Wrappers
  import opened ByteStrings
  import opened Backend
  import opened Store
  import opened Views
  import opened Logs
  import opened Compaction

  function Restrict(m: Snapshot, start: Bytes, end: Option<Bytes>): Snapshot {
    map k | k in m && KeyInRange(k, start, end) :: m[k]
  }

  lemma {:induction false} EventsRestrict(m: Snapshot, events: seq<WatchEvent>, start: Bytes, end: Option<Bytes>)
    ensures Restrict(ApplyEvents(m, events), start, end)
         == ApplyEvents(Restrict(m, start, end), FilterEvents(events, start, end))
  {
    hide KeyInRange;
    if events != [] {
      var init, last := events[..|events| - 1], events[|events| - 1];
      EventsRestrict(m, init, start, end);
      var kept := FilterEvents(init, start, end);
      var n := ApplyEvents(m, init);
      if KeyInRange(last.keyValue.key, start, end) {
        assert (kept + [last])[..|kept|] == kept;
        assert Restrict(ApplyEvent(n, last), start, end) == ApplyEvent(Restrict(n, start, end), last);
      } else {
        assert kept + [] == kept;
        assert Restrict(ApplyEvent(n, last), start, end) == Restrict(n, start, end);
      }
    }
  }

  /** Replaying commutes with restricting both the map and the batches to a key range. */
  lemma {:induction false} ReplayRestricts(
    m: Snapshot, batches: seq<WatchBatch>, start: Bytes, end: Option<Bytes>, from: int)
    requires forall b :: b in batches ==> b.revision >= from
    ensures Restrict(Replay(m, batches), start, end)
         == Replay(Restrict(m, start, end), Filtered(batches, start, end, from))
  {
    hide ApplyEvents, FilterEvents, Restrict;
    if batches != [] {
      var init, last := batches[..|batches| - 1], batches[|batches| - 1];
      assert last in batches;
      ReplayRestricts(m, init, start, end, from);
      EventsRestrict(Replay(m, init), last.events, start, end);
      var kept := Filtered(init, start, end, from);
      var filtered := FilterBatch(last, start, end);
      if filtered.Some? {
        assert (kept + [filtered.value])[..|kept|] == kept;
      } else {
        assert kept + [] == kept;
        NoEvents(Replay(Restrict(m, start, end), kept));
      }
    }
  }

  lemma {:induction false} NoEvents(m: Snapshot)
    ensures ApplyEvents(m, []) == m
  {}

  lemma {:induction false} FilteredConcat(
    a: seq<WatchBatch>, b: seq<WatchBatch>, start: Bytes, end: Option<Bytes>, from: int)
    ensures Filtered(a + b, start, end, from) == Filtered(a, start, end, from) + Filtered(b, start, end, from)
  {
    hide FilterBatch;
    if b == [] {
      assert a + b == a;
    } else {
      assert (a + b)[..|a + b| - 1] == a + b[..|b| - 1];
      FilteredConcat(a, b[..|b| - 1], start, end, from);
    }
  }

  lemma {:induction false} FilteredOld(batches: seq<WatchBatch>, start: Bytes, end: Option<Bytes>, from: int)
    requires forall b :: b in batches ==> b.revision < from
    ensures Filtered(batches, start, end, from) == []
  {
    hide FilterBatch;
    if batches != [] {
      assert batches[|batches| - 1] in batches;
      FilteredOld(batches[..|batches| - 1], start, end, from);
    }
  }

  lemma {:induction false} LogSplit(log: Log, r: nat)
    requires GoodLog(log) && r <= |log|
    ensures forall b :: b in log[..r] ==> b.revision <= r
    ensures forall b :: b in log[r..] ==> b.revision > r
    ensures log == log[..r] + log[r..]
  {
    hide GoodLog;
    forall b | b in log[..r] ensures b.revision <= r {
      var i :| 0 <= i < r && log[i] == b;
      LogRevision(log, i);
    }
    forall b | b in log[r..] ensures b.revision > r {
      var i :| r <= i < |log| && log[i] == b;
      LogRevision(log, i);
    }
  }

  /** Only what the log holds after a revision passes a filter from the next one. */
  lemma {:induction false} FilteredFrom(log: Log, start: Bytes, end: Option<Bytes>, r: nat, from: int)
    requires GoodLog(log) && r <= |log| && r < from
    ensures Filtered(log, start, end, from) == Filtered(log[r..], start, end, from)
  {
    hide GoodLog, Filtered;
    LogSplit(log, r);
    FilteredOld(log[..r], start, end, from);
    FilteredConcat(log[..r], log[r..], start, end, from);
    assert [] + Filtered(log[r..], start, end, from) == Filtered(log[r..], start, end, from);
  }

  /** On the log: the view at a revision, brought up to date by the filtered batches after it, is the last view. */
  lemma {:induction false} LogCatchUp(log: Log, start: Bytes, end: Option<Bytes>, r: nat)
    requires GoodLog(log) && r <= |log|
    ensures Replay(Restrict(At(log, r), start, end), Filtered(log, start, end, r + 1))
         == Restrict(At(log, |log|), start, end)
  {
    LogSplit(log, r);
    FilteredFrom(log, start, end, r, r + 1);
    ReplayRestricts(At(log, r), log[r..], start, end, r + 1);
    ReplayConcat(map[], log[..r], log[r..]);
    assert log[..|log|] == log;
  }

  /**
   Snapshot plus watch equals current: replaying the retained batches newer than any readable revision
   onto the view at that revision gives the current view.
   */
  lemma {:induction false} SnapshotPlusEvents(s: State, log: Log, r: nat)
    requires Inv(s, log) && s.compactedRevision <= r <= s.revision
    ensures Replay(View(s.history, r), NewerBatches(s.events, r)) == View(s.history, s.revision)
  {
    hide GoodLog, ChainsOk, Shows, View, NewerBatches;
    RetainedRevisions(s, log);
    NewerThan(s.events, s.compactedRevision, r);
    assert s.events[r - s.compactedRevision..] == log[r..];
    InvView(s, log, r);
    InvView(s, log, s.revision);
    ReplayConcat(map[], log[..r], log[r..]);
    assert log == log[..r] + log[r..] && log[..|log|] == log;
  }

  /** The same inside any key range: snapshot and batches may both be restricted first. */
  lemma {:induction false} RestrictedSnapshotPlusEvents(s: State, log: Log, r: nat, start: Bytes, end: Option<Bytes>)
    requires Inv(s, log) && s.compactedRevision <= r <= s.revision
    ensures Replay(Restrict(View(s.history, r), start, end), Filtered(s.events, start, end, r + 1))
         == Restrict(View(s.history, s.revision), start, end)
  {
    hide GoodLog, ChainsOk, Shows, View, Filtered, Restrict, At;
    InvView(s, log, r);
    InvView(s, log, s.revision);
    FilteredFrom(log, start, end, s.compactedRevision, r + 1);
    LogCatchUp(log, start, end, r);
  }
}
