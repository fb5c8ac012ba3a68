/** How a client starts: list a range page by page, watch from the next revision, and keep up. */
module Bootstrap {
  import opened Wrappers
  import opened Sorting
  import opened ByteStrings
  import opened Backend
  import opened Store
  import opened Views
  import opened Logs
  import opened Commits
  import opened Runs
  import opened Snapshots
  import opened Streams
  import opened Reconcile
  import opened Pagination

  /** The map a client builds from the records it was given. */
  function Gathered(values: seq<KeyValue>): Snapshot {
    if values == [] then map[]
    else
      var last := values[|values| - 1];
      Gathered(values[..|values| - 1])[last.key := last]
  }

  lemma {:induction false} GatheredHolds(values: seq<KeyValue>)
    requires NoDup(KeysOf(values))
    ensures forall kv :: kv in values ==> Lookup(Gathered(values), kv.key) == Some(kv)
    ensures forall k :: k in Gathered(values) ==> Gathered(values)[k].key == k && Gathered(values)[k] in values
  {
    if values != [] {
      var init, last := values[..|values| - 1], values[|values| - 1];
      assert KeysOf(init) == KeysOf(values)[..|init|];
      GatheredHolds(init);
      forall kv | kv in init ensures kv.key != last.key {
        var i :| 0 <= i < |init| && init[i] == kv;
        assert KeysOf(values)[i] != KeysOf(values)[|init|];
      }
      assert forall kv :: kv in values <==> kv in init || kv == last;
    }
  }

  lemma {:induction false} GatheredEnumeration(values: seq<KeyValue>, m: Snapshot, start: Bytes, end: Option<Bytes>)
    requires Enumerates(values, m, start, end)
    ensures Gathered(values) == Restrict(m, start, end)
  {
    ListedKeysDistinct(values, m, start, end);
    GatheredHolds(values);
    hide KeyInRange, KeyLess, KeysOf, Gathered, NoDup;
  }

  /**
   The records paged out of a range while other calls run, with what a watch from the next revision has
   handed over or still holds replayed on top, are the range as it is after any further clean run.
   */
  lemma {:induction false} PagesThenWatch(
    w: World, turns: seq<Turn>, limit: int, later: seq<Call>, start: Bytes, end: Option<Bytes>)
    requires Inv(w.state, w.log) && StreamsOk(w.state, w.log) && !w.state.closed && limit > 0
    requires Undisturbed(w, turns, w.state.revision)
    requires |turns| + 1 >= |Listing(w.state.history, start, end, w.state.revision)|
    requires Watchable(Run(w, Meanwhile(turns)).state, w.state.revision + 1)
    requires Clean(WatchAt(Run(w, Meanwhile(turns)), start, end, w.state.revision + 1), later)
    ensures var paged := Run(w, Meanwhile(turns));
            var now := Run(WatchAt(paged, start, end, w.state.revision + 1), later).state;
            var id := paged.state.nextWatcherId;
            && id in now.streams
            && (!now.streams[id].phase.Cancelled? ==>
                  Replay(Gathered(Pages(w, turns, start, end, limit)), Content(now.streams[id]))
                  == Restrict(View(now.history, now.revision), start, end))
  {
    hide *;
    var r := w.state.revision;
    var full := Listing(w.state.history, start, end, r);
    MeanwhileIsClean(w, turns, r);
    SnapshotThenWatch(w, Meanwhile(turns), later, start, end);
    ListingEnumerates(w.state.history, start, end, r);
    PaginationIsExact(w, turns, start, end, limit, full);
    GatheredEnumeration(full, View(w.state.history, r), start, end);
    CaughtUpMeans(w.state, Run(WatchAt(Run(w, Meanwhile(turns)), start, end, r + 1), later).state,
                  Run(w, Meanwhile(turns)).state.nextWatcherId, start, end);
  }

  lemma {:induction false} CaughtUpMeans(first: State, now: State, id: WatcherId, start: Bytes, end: Option<Bytes>)
    requires CaughtUp(first, now, id, start, end)
    ensures id in now.streams
    ensures !now.streams[id].phase.Cancelled? ==>
              Replay(Restrict(View(first.history, first.revision), start, end), Content(now.streams[id]))
              == Restrict(View(now.history, now.revision), start, end)
  {}
}
