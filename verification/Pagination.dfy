/** Following `next_key` at the first page's revision returns the range once, whatever else runs meanwhile. */
module Pagination {
  import opened Wrappers
  import opened Sorting
  import opened ByteStrings
  import opened Backend
  import opened Ranges
  import opened Store
  import opened Views
  import opened Logs
  import opened Runs

  lemma {:induction false} RestIsLater(
    values: seq<KeyValue>, m: Snapshot, start: Bytes, end: Option<Bytes>, n: nat, kv: KeyValue)
    requires Enumerates(values, m, start, end) && 0 < n < |values| && kv in values[n..]
    ensures KeyInRange(kv.key, values[n - 1].key + [0], end) && Lookup(m, kv.key) == Some(kv)
  {
    hide Lookup;
    ManyNeedEnd(values, m, start, end);
    var i :| 0 <= i < |values[n..]| && values[n..][i] == kv;
    assert values[n + i] == kv && kv in values;
    assert KeyLess(KeysOf(values)[n - 1], KeysOf(values)[n + i]);
    SuccessorIsNext(values[n - 1].key, kv.key);
  }

  lemma {:induction false} LaterIsInRest(
    values: seq<KeyValue>, m: Snapshot, start: Bytes, end: Option<Bytes>, n: nat, k: Bytes)
    requires Enumerates(values, m, start, end) && 0 < n < |values|
    requires k in m && KeyInRange(k, values[n - 1].key + [0], end)
    ensures m[k].key == k && m[k] in values[n..]
  {
    hide Lookup;
    var last := values[n - 1].key;
    ManyNeedEnd(values, m, start, end);
    SuccessorIsNext(last, k);
    assert values[n - 1] in values;
    AtMostLess(start, last, k);
    var j :| 0 <= j < |values| && values[j] == m[k];
    if j < n {
      NotBefore(values, j, n - 1, k);
    }
    assert values[n..][j - n] == m[k];
  }

  /** What a full page leaves is exactly the range from its next key on. */
  lemma {:induction false} RestOfRange(values: seq<KeyValue>, m: Snapshot, start: Bytes, end: Option<Bytes>, n: nat)
    requires Enumerates(values, m, start, end) && 0 < n < |values|
    ensures Enumerates(values[n..], m, values[n - 1].key + [0], end)
  {
    var rest := values[n..];
    hide KeyInRange, Lookup, KeyLess;
    forall i, j | 0 <= i < j < |rest| ensures KeyLess(KeysOf(rest)[i], KeysOf(rest)[j]) {
      assert KeyLess(KeysOf(values)[n + i], KeysOf(values)[n + j]);
    }
    forall kv | kv in rest ensures KeyInRange(kv.key, values[n - 1].key + [0], end) && Lookup(m, kv.key) == Some(kv) {
      RestIsLater(values, m, start, end, n, kv);
    }
    forall k | k in m && KeyInRange(k, values[n - 1].key + [0], end) ensures m[k].key == k && m[k] in rest {
      LaterIsInRest(values, m, start, end, n, k);
    }
  }

  lemma {:induction false} NotBefore(values: seq<KeyValue>, j: nat, i: nat, k: Bytes)
    requires j <= i < |values| && Ascending(KeyLess, KeysOf(values))
    requires Less(values[i].key, k)
    ensures values[j].key != k
  {
    LessAsymmetric(values[i].key, k);
    if j < i {
      assert KeyLess(KeysOf(values)[j], KeysOf(values)[i]);
    }
  }

  /** Only a range with an end, or without bound, can hold more than one key. */
  lemma {:induction false} ManyNeedEnd(values: seq<KeyValue>, m: Snapshot, start: Bytes, end: Option<Bytes>)
    requires Enumerates(values, m, start, end) && |values| > 1
    ensures end.Some?
  {
    if end.None? {
      assert values[0] in values && values[1] in values;
      assert KeyLess(KeysOf(values)[0], KeysOf(values)[1]);
      LessIrreflexive(start);
    }
  }

  // ----- Paging through a run -----

  /** Between two pages other calls run; then the client asks for at most `limit` more. */
  datatype Turn = Turn(calls: seq<Call>, limit: int)

  function Continue(w: World, turns: seq<Turn>, start: Bytes, end: Option<Bytes>, r: nat): seq<KeyValue>
    decreases |turns|
  {
    if turns == [] then []
    else
      var v := Run(w, turns[0].calls);
      var page := Range(v.state, RangeRequest(start, end, Some(r), Some(turns[0].limit)));
      if page.Failure? then []
      else if page.value.nextKey.Some? then
        page.value.values + Continue(v, turns[1..], page.value.nextKey.value, end, r)
      else page.value.values
  }

  /**
   Every transaction meanwhile is all or nothing, every limit positive, compaction stays below `r` and the
   backend is open whenever a page is taken.
   */
  ghost predicate Undisturbed(w: World, turns: seq<Turn>, r: nat)
    decreases |turns|
  {
    turns != [] ==>
      var v := Run(w, turns[0].calls);
      && turns[0].limit > 0
      && Clean(w, turns[0].calls)
      && !v.state.closed
      && (v.state.compactedRevision == 0 || v.state.compactedRevision < r)
      && Undisturbed(v, turns[1..], r)
  }

  lemma {:induction false} PageAtRevision(
    w: World, start: Bytes, end: Option<Bytes>, r: nat, limit: int, full: seq<KeyValue>)
    requires Inv(w.state, w.log) && r <= w.state.revision && limit > 0 && !w.state.closed
    requires w.state.compactedRevision == 0 || w.state.compactedRevision < r
    requires Enumerates(full, At(w.log, r), start, end)
    ensures Range(w.state, RangeRequest(start, end, Some(r), Some(limit)))
         == Success(Page(full, r, Some(limit)))
  {
    InvView(w.state, w.log, r);
    hide Inv, At, Enumerates, Listing, View, Page;
    ListingEnumerates(w.state.history, start, end, r);
    EnumerationUnique(Listing(w.state.history, start, end, r), full, At(w.log, r), start, end);
  }

  lemma {:induction false} RunFacts(w: World, calls: seq<Call>, r: nat)
    requires Inv(w.state, w.log) && Clean(w, calls) && r <= w.state.revision
    ensures var v := Run(w, calls);
            Inv(v.state, v.log) && r <= v.state.revision && |w.log| == w.state.revision && |v.log| == v.state.revision
            && At(v.log, r) == At(w.log, r)
  {
    hide *;
    var v := Run(w, calls);
    RunKeepsInvariant(w, calls);
    LogGrows(w, calls);
    InvGoodLog(w.state, w.log);
    InvCounter(w.state, w.log);
    InvGoodLog(v.state, v.log);
    InvCounter(v.state, v.log);
    assert v.log == w.log + v.log[|w.log|..];
    AtPrefix(w.log, v.log[|w.log|..], r);
  }

  lemma {:induction false} PageThenRest(full: seq<KeyValue>, n: nat, rest: seq<KeyValue>)
    requires n <= |full| && rest <= full[n..]
    ensures full[..n] + rest <= full
    ensures rest == full[n..] ==> full[..n] + rest == full
  {
    assert full == full[..n] + full[n..];
  }

  /** Pages taken in turn are a prefix of the range at `r`, and all of it after as many turns as it has keys. */
  lemma {:induction false} ContinuesExactly(
    w: World, turns: seq<Turn>, start: Bytes, end: Option<Bytes>, r: nat, full: seq<KeyValue>)
    requires Inv(w.state, w.log) && r <= |w.log| && r <= w.state.revision && Undisturbed(w, turns, r)
    requires Enumerates(full, At(w.log, r), start, end)
    ensures Continue(w, turns, start, end, r) <= full
    ensures |turns| >= |full| ==> Continue(w, turns, start, end, r) == full
    decreases |turns|
  {
    hide Inv, At, Enumerates, Clean, Run, Range;
    if turns != [] {
      var v, limit := Run(w, turns[0].calls), turns[0].limit;
      RunFacts(w, turns[0].calls, r);
      PageAtRevision(v, start, end, r, limit, full);
      if |full| > limit {
        RestOfRange(full, At(v.log, r), start, end, limit);
        ContinuesExactly(v, turns[1..], full[limit - 1].key + [0], end, r, full[limit..]);
        PageThenRest(full, limit, Continue(v, turns[1..], full[limit - 1].key + [0], end, r));
      }
    }
  }

  /** What a client collects: a first page that names no revision, then one page a turn at that page's revision. */
  function Pages(w: World, turns: seq<Turn>, start: Bytes, end: Option<Bytes>, limit: int): seq<KeyValue> {
    var first := Range(w.state, RangeRequest(start, end, None, Some(limit)));
    if first.Failure? then []
    else if first.value.nextKey.Some? then
      first.value.values + Continue(w, turns, first.value.nextKey.value, end, first.value.revision)
    else first.value.values
  }

  /**
   Paging from any first page returns every record of the range live at its revision, once, in ascending
   key order, within as many further pages as there are records.
   */
  lemma {:induction false} PaginationIsExact(
    w: World, turns: seq<Turn>, start: Bytes, end: Option<Bytes>, limit: int, full: seq<KeyValue>)
    requires Inv(w.state, w.log) && limit > 0 && !w.state.closed
    requires Undisturbed(w, turns, w.state.revision)
    requires Enumerates(full, View(w.state.history, w.state.revision), start, end)
    ensures var first := Range(w.state, RangeRequest(start, end, None, Some(limit)));
            && first.Success? && first.value.revision == w.state.revision
            && first.value.more == first.value.nextKey.Some?
    ensures Pages(w, turns, start, end, limit) <= full
    ensures |turns| + 1 >= |full| ==> Pages(w, turns, start, end, limit) == full
  {
    InvCounter(w.state, w.log);
    InvView(w.state, w.log, w.state.revision);
    FirstPage(w, start, end, limit, full);
    hide Inv, At, Enumerates, Range, Undisturbed, Continue, View;
    var r := w.state.revision;
    if |full| > limit {
      RestOfRange(full, At(w.log, r), start, end, limit);
      ContinuesExactly(w, turns, full[limit - 1].key + [0], end, r, full[limit..]);
      PageThenRest(full, limit, Continue(w, turns, full[limit - 1].key + [0], end, r));
    }
  }

  lemma {:induction false} FirstPage(w: World, start: Bytes, end: Option<Bytes>, limit: int, full: seq<KeyValue>)
    requires limit > 0 && !w.state.closed
    requires Enumerates(full, View(w.state.history, w.state.revision), start, end)
    ensures Range(w.state, RangeRequest(start, end, None, Some(limit)))
         == Success(Page(full, w.state.revision, Some(limit)))
  {
    hide View, Enumerates, Listing, Page;
    var r := w.state.revision;
    ListingEnumerates(w.state.history, start, end, r);
    EnumerationUnique(Listing(w.state.history, start, end, r), full, View(w.state.history, r), start, end);
  }

  /** All that runs between the pages. */
  function Meanwhile(turns: seq<Turn>): seq<Call> {
    if turns == [] then [] else turns[0].calls + Meanwhile(turns[1..])
  }

  lemma {:induction false} MeanwhileIsClean(w: World, turns: seq<Turn>, r: nat)
    requires Undisturbed(w, turns, r)
    ensures Clean(w, Meanwhile(turns))
    decreases |turns|
  {
    hide Clean, Run;
    if turns == [] {
      ReadFreeIsClean(w, []);
    } else {
      MeanwhileIsClean(Run(w, turns[0].calls), turns[1..], r);
      RunConcat(w, turns[0].calls, Meanwhile(turns[1..]));
    }
  }
}
