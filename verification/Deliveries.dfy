/** What a watch hands over, said of the log itself: which revisions, which events, in which order. */
module Deliveries {
  import opened Wrappers
  import opened Sorting
  import opened ByteStrings
  import opened Backend
  import opened Store
  import opened Logs
  import opened Compaction
  import opened Streams

  /** `kept` are the events at `positions`, which are all those in the range, in their order. */
  ghost predicate PicksAt(
    positions: seq<nat>, kept: seq<WatchEvent>, events: seq<WatchEvent>, start: Bytes, end: Option<Bytes>)
  {
    && |positions| == |kept|
    && (forall i, j :: 0 <= i < j < |positions| ==> positions[i] < positions[j])
    && (forall i :: 0 <= i < |positions| ==> positions[i] < |events| && kept[i] == events[positions[i]])
    && (forall k: nat :: k < |events| ==> (k in positions <==> KeyInRange(events[k].keyValue.key, start, end)))
  }

  ghost predicate Picks(kept: seq<WatchEvent>, events: seq<WatchEvent>, start: Bytes, end: Option<Bytes>) {
    exists positions: seq<nat> :: PicksAt(positions, kept, events, start, end)
  }

  ghost predicate Concerns(batch: WatchBatch, start: Bytes, end: Option<Bytes>) {
    exists i :: 0 <= i < |batch.events| && KeyInRange(batch.events[i].keyValue.key, start, end)
  }

  /**
   One batch for each revision from `from` on that concerns the range, in ascending order of revisions, each
   with that revision and with exactly the events of the log that lie in the range, in their order.
   */
  ghost predicate Delivers(content: seq<WatchBatch>, log: Log, start: Bytes, end: Option<Bytes>, from: int) {
    && (forall i, j :: 0 <= i < j < |content| ==> content[i].revision < content[j].revision)
    && (forall i :: 0 <= i < |content| ==> Extracts(content[i], log, start, end, from))
    && (forall k: nat :: k < |log| && from <= k + 1 && Concerns(log[k], start, end) ==>
          exists i :: 0 <= i < |content| && content[i].revision == k + 1)
  }

  /** The batch is what one batch of the log, from `from` on, holds inside the range. */
  ghost predicate Extracts(batch: WatchBatch, log: Log, start: Bytes, end: Option<Bytes>, from: int) {
    && from <= batch.revision && 1 <= batch.revision <= |log|
    && batch.events != []
    && Picks(batch.events, log[batch.revision - 1].events, start, end)
  }

  lemma {:induction false} ExtractsStill(
    batch: WatchBatch, log: Log, last: WatchBatch, start: Bytes, end: Option<Bytes>, from: int)
    requires Extracts(batch, log, start, end, from)
    ensures Extracts(batch, log + [last], start, end, from)
  {
    hide Picks;
    assert (log + [last])[batch.revision - 1] == log[batch.revision - 1];
  }

  lemma {:induction false} PickOneMore(
    positions: seq<nat>, kept: seq<WatchEvent>, init: seq<WatchEvent>, last: WatchEvent,
    start: Bytes, end: Option<Bytes>)
    requires PicksAt(positions, kept, init, start, end)
    ensures if KeyInRange(last.keyValue.key, start, end)
            then PicksAt(positions + [|init|], kept + [last], init + [last], start, end)
            else PicksAt(positions, kept, init + [last], start, end)
  {
    hide KeyInRange;
    var events := init + [last];
    assert forall k :: 0 <= k < |init| ==> events[k] == init[k];
    assert forall i :: 0 <= i < |positions| ==> positions[i] < |init|;
    var more := positions + [|init|];
    forall k: nat ensures k in more <==> k in positions || k == |init| {
      assert more[|positions|] == |init|;
    }
  }

  lemma {:induction false} FilterPicks(events: seq<WatchEvent>, start: Bytes, end: Option<Bytes>)
    returns (positions: seq<nat>)
    ensures PicksAt(positions, FilterEvents(events, start, end), events, start, end)
  {
    hide KeyInRange, PicksAt;
    if events == [] {
      positions := [];
      NothingPicked(start, end);
    } else {
      var init, last := events[..|events| - 1], events[|events| - 1];
      assert events == init + [last];
      positions := FilterPicks(init, start, end);
      PickOneMore(positions, FilterEvents(init, start, end), init, last, start, end);
      var kept := FilterEvents(init, start, end);
      assert kept + [] == kept;
      if KeyInRange(last.keyValue.key, start, end) {
        positions := positions + [|init|];
      }
    }
  }

  lemma {:induction false} NothingPicked(start: Bytes, end: Option<Bytes>)
    ensures PicksAt([], [], [], start, end)
  {}

  lemma {:induction false} PickedConcern(
    positions: seq<nat>, kept: seq<WatchEvent>, batch: WatchBatch, start: Bytes, end: Option<Bytes>)
    requires PicksAt(positions, kept, batch.events, start, end)
    ensures kept != [] <==> Concerns(batch, start, end)
  {
    hide KeyInRange;
    if kept != [] {
      assert positions[0] in positions;
    }
  }

  lemma {:induction false} BatchPicks(batch: WatchBatch, start: Bytes, end: Option<Bytes>)
    ensures var kept := FilterBatch(batch, start, end);
            && (kept.Some? <==> Concerns(batch, start, end))
            && (kept.Some? ==>
                  && kept.value.revision == batch.revision && kept.value.events != []
                  && Picks(kept.value.events, batch.events, start, end))
  {
    var positions := FilterPicks(batch.events, start, end);
    PickedConcern(positions, FilterEvents(batch.events, start, end), batch, start, end);
    hide FilterEvents, KeyInRange, PicksAt, Concerns;
  }

  lemma {:induction false} DeliversQuietly(
    content: seq<WatchBatch>, log: Log, batch: WatchBatch, start: Bytes, end: Option<Bytes>, from: int)
    requires Delivers(content, log, start, end, from)
    requires from <= |log| + 1 ==> !Concerns(batch, start, end)
    ensures Delivers(content, log + [batch], start, end, from)
  {
    hide Concerns, Extracts;
    forall i | 0 <= i < |content| ensures Extracts(content[i], log + [batch], start, end, from) {
      ExtractsStill(content[i], log, batch, start, end, from);
    }
    assert forall k: nat :: k < |log| ==> (log + [batch])[k] == log[k];
  }

  lemma {:induction false} DeliversOneMore(
    content: seq<WatchBatch>, log: Log, batch: WatchBatch, kept: WatchBatch,
    start: Bytes, end: Option<Bytes>, from: int)
    requires Delivers(content, log, start, end, from) && kept.revision == |log| + 1
    requires Extracts(kept, log + [batch], start, end, from)
    ensures Delivers(content + [kept], log + [batch], start, end, from)
  {
    hide Concerns;
    var after := content + [kept];
    forall i | 0 <= i < |after|
      ensures Extracts(after[i], log + [batch], start, end, from)
      ensures i < |content| ==> after[i].revision <= |log|
    {
      if i < |content| {
        ExtractsStill(content[i], log, batch, start, end, from);
      }
    }
    hide Extracts;
    forall k: nat | k < |log + [batch]| && from <= k + 1 && Concerns((log + [batch])[k], start, end)
      ensures exists i :: 0 <= i < |after| && after[i].revision == k + 1
    {
      if k < |log| {
        var i :| 0 <= i < |content| && content[i].revision == k + 1;
        assert after[i].revision == k + 1;
      } else {
        assert after[|content|].revision == k + 1;
      }
    }
  }

  lemma {:induction false} DeliversMore(
    content: seq<WatchBatch>, log: Log, batch: WatchBatch, start: Bytes, end: Option<Bytes>, from: int)
    requires Delivers(content, log, start, end, from) && batch.revision == |log| + 1
    ensures var kept := FilterBatch(batch, start, end);
            Delivers(content + (if batch.revision >= from && kept.Some? then [kept.value] else []),
                     log + [batch], start, end, from)
  {
    hide FilterBatch, Picks, Concerns, Delivers;
    BatchPicks(batch, start, end);
    var kept := FilterBatch(batch, start, end);
    if batch.revision >= from && kept.Some? {
      assert (log + [batch])[kept.value.revision - 1] == batch;
      DeliversOneMore(content, log, batch, kept.value, start, end, from);
    } else {
      DeliversQuietly(content, log, batch, start, end, from);
      assert content + [] == content;
    }
  }

  lemma {:induction false} FilteredDelivers(log: Log, start: Bytes, end: Option<Bytes>, from: int)
    requires GoodLog(log)
    ensures Delivers(Filtered(log, start, end, from), log, start, end, from)
  {
    hide FilterBatch, Concerns, Picks, BatchOk, At, Delivers;
    if log == [] {
      NothingDelivered(start, end, from);
    } else {
      var init, last := log[..|log| - 1], log[|log| - 1];
      LogRevision(log, |init|);
      PrefixGood(log);
      FilteredDelivers(init, start, end, from);
      DeliversMore(Filtered(init, start, end, from), init, last, start, end, from);
      assert log == init + [last];
    }
  }

  lemma {:induction false} NothingDelivered(start: Bytes, end: Option<Bytes>, from: int)
    ensures Delivers([], [], start, end, from)
  {}

  lemma {:induction false} PrefixGood(log: Log)
    requires GoodLog(log) && log != []
    ensures GoodLog(log[..|log| - 1])
  {
    var init, last := log[..|log| - 1], log[|log| - 1];
    hide BatchOk, At;
    forall i: nat | i < |init| ensures BatchOk(At(init, i), init[i], i + 1) {
      assert log == init + [last];
      AtPrefix(init, [last], i);
      assert BatchOk(At(log, i), log[i], i + 1);
    }
  }

  // ----- There is only one delivery -----

  predicate Below(i: nat, j: nat) {
    i < j
  }

  lemma {:induction false} NumbersAscendOnce(a: seq<nat>, b: seq<nat>)
    requires Ascending(Below, a) && Ascending(Below, b) && forall k :: k in a <==> k in b
    ensures a == b
  {
    AscendingUnique(Below, a, b);
  }

  lemma {:induction false} PicksUnique(
    a: seq<WatchEvent>, b: seq<WatchEvent>, events: seq<WatchEvent>, start: Bytes, end: Option<Bytes>)
    requires Picks(a, events, start, end) && Picks(b, events, start, end)
    ensures a == b
  {
    hide KeyInRange;
    var p: seq<nat> :| PicksAt(p, a, events, start, end);
    var q: seq<nat> :| PicksAt(q, b, events, start, end);
    forall k ensures k in p <==> k in q {
      assert k in p ==> k < |events|;
      assert k in q ==> k < |events|;
    }
    NumbersAscendOnce(p, q);
  }

  ghost function Revisions(content: seq<WatchBatch>): seq<nat> {
    seq(|content|, i requires 0 <= i < |content| => content[i].revision)
  }

  lemma {:induction false} DeliveredRevisions(
    content: seq<WatchBatch>, log: Log, start: Bytes, end: Option<Bytes>, from: int, r: nat)
    requires Delivers(content, log, start, end, from)
    ensures r in Revisions(content) <==> 1 <= r <= |log| && from <= r && Concerns(log[r - 1], start, end)
  {
    hide Concerns, PicksAt;
    if r in Revisions(content) {
      var i :| 0 <= i < |content| && Revisions(content)[i] == r;
      var positions: seq<nat> :| PicksAt(positions, content[i].events, log[r - 1].events, start, end);
      PickedConcern(positions, content[i].events, log[r - 1], start, end);
    }
    if 1 <= r <= |log| && from <= r && Concerns(log[r - 1], start, end) {
      var k: nat := r - 1;
      assert Concerns(log[k], start, end);
      var i :| 0 <= i < |content| && content[i].revision == k + 1;
      assert Revisions(content)[i] == r;
    }
  }

  /** What is delivered is thereby determined: only one sequence of batches delivers a range from a revision on. */
  lemma {:induction false} DeliveryIsUnique(
    a: seq<WatchBatch>, b: seq<WatchBatch>, log: Log, start: Bytes, end: Option<Bytes>, from: int)
    requires Delivers(a, log, start, end, from) && Delivers(b, log, start, end, from)
    ensures a == b
  {
    hide Picks, Concerns;
    forall r ensures r in Revisions(a) <==> r in Revisions(b) {
      DeliveredRevisions(a, log, start, end, from, r);
      DeliveredRevisions(b, log, start, end, from, r);
    }
    NumbersAscendOnce(Revisions(a), Revisions(b));
    assert |a| == |Revisions(a)| == |Revisions(b)| == |b|;
    forall i | 0 <= i < |a| ensures a[i] == b[i] {
      assert Revisions(a)[i] == Revisions(b)[i];
      PicksUnique(a[i].events, b[i].events, log[a[i].revision - 1].events, start, end);
    }
  }

  // ----- Streams -----

  /**
   In every state of a clean run, what a stream has handed over or still holds is delivered from the log;
   an abandoned stream has handed over the first batches of such a delivery.
   */
  lemma {:induction false} StreamDelivers(s: State, log: Log, w: WatcherId)
    requires Inv(s, log) && StreamsOk(s, log) && w in s.streams
    ensures var st := s.streams[w];
            if st.phase.Cancelled?
            then exists all :: st.yielded <= all && Delivers(all, log, st.start, st.end, FirstRevision(st))
            else Delivers(Content(st), log, st.start, st.end, FirstRevision(st))
  {
    var st := s.streams[w];
    InvGoodLog(s, log);
    FilteredDelivers(log, st.start, st.end, FirstRevision(st));
    assert StreamOk(st, log, w in s.watchers, s.closed);
    hide Inv, GoodLog, Filtered, Delivers, Content;
  }
}
