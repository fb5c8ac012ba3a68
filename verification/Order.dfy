/** The order in which a transaction lists its operations does not matter. */
module Order {
  import opened Wrappers
  import opened Sorting
  import opened ByteStrings
  import opened Backend
  import opened Store
  import opened Views
  import opened Logs
  import opened Commits
  import opened PlainMap
  import opened Acceptance

  // ----- Acceptance -----

  /**
   A transaction is answered exactly when the backend is open, the first comparison that does not hold, if
   any, is well-typed, and the chosen branch names existing leases, writes no key twice, has no two writes
   misjudged and reads without raising.
   */
  lemma {:induction false} AnsweredExactly(
    s: State, log: Log, compares: seq<Compare>, success: seq<Operation>, failure: seq<Operation>)
    requires Inv(s, log)
    ensures var m := At(log, |log|);
            var all := forall i :: 0 <= i < |compares| ==> Meets(m, compares[i]);
            var ops := if all then success else failure;
            Transaction(s, compares, success, failure).1.Success? <==>
              && !s.closed
              && (all || exists i :: StopsAt(m, compares, i) && WellTyped(compares[i]))
              && LeasesKnown(s, ops) && WritesApart(ops) && NoneMisjudged(ops) && ReadsAllowed(s, ops)
  {
    CompareReadsMap(s, log, compares);
    InvCounter(s, log);
    AcceptedExactly(s, success);
    AcceptedExactly(s, failure);
    ReadsAllowedExactly(s, success);
    ReadsAllowedExactly(s, failure);
    hide Inv, At, Meets, Validate, WritesApart, NoneMisjudged, ReadsAllowed, LeasesKnown, Completed;
    hide Commit, Writes, ChangesData, CompareAll, WellTyped, AppendAll, Responses;
    FirstStop(s, log, compares);
  }

  /**
   What a failed transaction raises: that the backend is closed; that the first comparison that does not hold
   is ill-typed; the complaint of validation; or that of the first read that raises.
   */
  lemma {:induction false} RefusedWith(
    s: State, log: Log, compares: seq<Compare>, success: seq<Operation>, failure: seq<Operation>)
    requires Inv(s, log) && Transaction(s, compares, success, failure).1.Failure?
    ensures var m, error := At(log, |log|), Transaction(s, compares, success, failure).1.error;
            var all := forall i :: 0 <= i < |compares| ==> Meets(m, compares[i]);
            var ops := if all then success else failure;
            if s.closed then error == BackendClosed
            else if exists i :: StopsAt(m, compares, i) && !WellTyped(compares[i]) then error == BackendError
            else if Validate(s, ops).Some? then error == Validate(s, ops).value
            else
              exists n :: 0 <= n < |ops| && ops[n].GetRange? && ReadsAllowed(s, ops[..n])
                          && error == ReadComplaint(s, ops[n].request)
  {
    CompareReadsMap(s, log, compares);
    InvCounter(s, log);
    hide Inv, At, Meets, Validate, WellTyped, ReadsAllowed;
    hide Commit, Writes, ChangesData, CompareAll, AppendAll, Responses;
    FirstStop(s, log, compares);
    if !s.closed && CompareAll(s, compares).Success? {
      var ops := if CompareAll(s, compares).value then success else failure;
      if Validate(s, ops).None? {
        var n := Completed(s, ops);
        FirstBadRead(s, ops);
      }
    }
  }

  /** Inside a transaction a read may name no revision, needs a positive limit, and is refused when all is compacted. */
  function ReadComplaint(s: State, request: RangeRequest): Error {
    if request.revision.Some? then BackendError
    else if request.limit.Some? && request.limit.value <= 0 then ValueError
    else CompactedRevision(s.revision, s.compactedRevision)
  }

  lemma {:induction false} FirstBadRead(s: State, ops: seq<Operation>)
    requires s.compactedRevision <= s.revision && Completed(s, ops) < |ops|
    ensures var n := Completed(s, ops);
            && ops[n].GetRange? && ReadsAllowed(s, ops[..n])
            && OpFailure(s, ops[n]) == Some(ReadComplaint(s, ops[n].request))
  {
    var n := Completed(s, ops);
    CompletedPrefix(s, ops);
    ReadsAllowedExactly(s, ops[..n]);
  }

  lemma {:induction false} CompletedPrefix(s: State, ops: seq<Operation>)
    ensures Completed(s, ops[..Completed(s, ops)]) == Completed(s, ops)
  {
    var n := Completed(s, ops);
    forall i | 0 <= i < n ensures OpFailure(s, ops[..n][i]).None? {
      assert ops[..n][i] == ops[i];
    }
  }

  /** Only one comparison is the first that does not hold. */
  lemma {:induction false} FirstStop(s: State, log: Log, compares: seq<Compare>)
    ensures var m := At(log, |log|);
            forall i, j :: StopsAt(m, compares, i) && StopsAt(m, compares, j) ==> i == j
  {
    hide Meets, At;
  }

  lemma {:induction false} Occurs<T>(xs: seq<T>, x: T)
    ensures multiset(xs)[x] > 0 <==> x in xs
    ensures multiset(xs)[x] > 1 <==> exists i, j :: 0 <= i < j < |xs| && xs[i] == x && xs[j] == x
  {
    if xs != [] {
      var init, last := xs[..|xs| - 1], xs[|xs| - 1];
      assert xs == init + [last];
      Occurs(init, x);
      if multiset(xs)[x] > 1 {
        if last == x {
          assert x in init;
          var i :| 0 <= i < |init| && init[i] == x;
          assert xs[i] == x && xs[|xs| - 1] == x;
        } else {
          var i, j :| 0 <= i < j < |init| && init[i] == x && init[j] == x;
          assert xs[i] == x && xs[j] == x;
        }
      }
      if i, j :| 0 <= i < j < |xs| && xs[i] == x && xs[j] == x {
        assert init[i] == x;
        if j < |init| {
          assert init[j] == x;
        }
      }
    }
  }

  lemma {:induction false} ApartAnyOrder(a: seq<Operation>, b: seq<Operation>)
    requires multiset(a) == multiset(b) && ReportedApart(a)
    ensures ReportedApart(b)
  {
    hide Overlapping;
    forall i, j | 0 <= i < j < |b| ensures !Overlapping(b[j], b[i]) {
      Occurs(b, b[i]);
      Occurs(b, b[j]);
      Occurs(a, b[i]);
      Occurs(a, b[j]);
      if b[i] == b[j] {
        assert multiset(b)[b[i]] > 1;
        var p, q :| 0 <= p < q < |a| && a[p] == b[i] && a[q] == b[i];
      } else {
        var p :| 0 <= p < |a| && a[p] == b[i];
        var q :| 0 <= q < |a| && a[q] == b[j];
        OverlappingSymmetric(b[i], b[j]);
      }
    }
  }

  /** Acceptance does not depend on the order. */
  lemma {:induction false} AcceptedAnyOrder(s: State, a: seq<Operation>, b: seq<Operation>)
    requires multiset(a) == multiset(b)
    ensures Validate(s, a).None? <==> Validate(s, b).None?
  {
    hide LeaseMissing, ReportedApart;
    ValidatedExactly(s, a);
    ValidatedExactly(s, b);
    SameMembers(a, b);
    if ReportedApart(a) { ApartAnyOrder(a, b); }
    if ReportedApart(b) { ApartAnyOrder(b, a); }
  }

  // ----- Events -----

  function EventsOf(s: State, ops: seq<Operation>, revision: nat): seq<WatchEvent> {
    Events(Writes(s, ops, revision))
  }

  lemma {:induction false} EventsJoin(x: seq<Write>, y: seq<Write>)
    ensures Events(x + y) == Events(x) + Events(y)
    ensures Events([]) == []
  {}

  lemma {:induction false} EventsConcat(s: State, a: seq<Operation>, b: seq<Operation>, revision: nat)
    ensures EventsOf(s, a + b, revision) == EventsOf(s, a, revision) + EventsOf(s, b, revision)
  {
    hide OpWrites, Events;
    if b == [] {
      assert a + b == a;
      EventsJoin([], []);
      assert EventsOf(s, a, revision) + [] == EventsOf(s, a, revision);
    } else {
      var init, last := b[..|b| - 1], b[|b| - 1];
      assert (a + b)[..|a + b| - 1] == a + init;
      EventsConcat(s, a, init, revision);
      EventsJoin(Writes(s, a + init, revision), OpWrites(s, last, revision));
      EventsJoin(Writes(s, init, revision), OpWrites(s, last, revision));
    }
  }

  lemma {:induction false} TakeOut<T>(a: seq<T>, b: seq<T>) returns (pre: seq<T>, post: seq<T>)
    requires multiset(a) == multiset(b) && a != []
    ensures b == pre + [a[|a| - 1]] + post
    ensures multiset(a[..|a| - 1]) == multiset(pre + post)
  {
    var init, last := a[..|a| - 1], a[|a| - 1];
    SameMembers(a, b);
    assert last in a;
    var i :| 0 <= i < |b| && b[i] == last;
    pre, post := b[..i], b[i + 1..];
    assert b == pre + [last] + post && a == init + [last];
    assert multiset(pre + [last] + post) == multiset(pre) + multiset{last} + multiset(post);
    assert multiset(init + [last]) == multiset(init) + multiset{last};
    Cancel(multiset(init), multiset(pre) + multiset(post), last);
  }

  lemma {:induction false} Cancel<T>(p: multiset<T>, q: multiset<T>, x: T)
    requires p + multiset{x} == q + multiset{x}
    ensures p == q
  {
    assert p == p + multiset{x} - multiset{x};
    assert q == q + multiset{x} - multiset{x};
  }

  /** The same operations in another order publish the same events in another order. */
  lemma {:induction false} EventsAnyOrder(s: State, a: seq<Operation>, b: seq<Operation>, revision: nat)
    requires multiset(a) == multiset(b)
    ensures multiset(EventsOf(s, a, revision)) == multiset(EventsOf(s, b, revision))
    decreases |a|
  {
    if a == [] {
      assert b == [] by { assert |multiset(b)| == 0; }
    } else {
      hide EventsOf;
      var init, last := a[..|a| - 1], a[|a| - 1];
      assert a == init + [last];
      var pre, post := TakeOut(a, b);
      EventsAnyOrder(s, init, pre + post, revision);
      EventsConcat(s, init, [last], revision);
      EventsConcat(s, pre + [last], post, revision);
      EventsConcat(s, pre, [last], revision);
      EventsConcat(s, pre, post, revision);
    }
  }

  // ----- The whole transaction -----

  lemma {:induction false} AfterAnyOrder(m: Snapshot, a: seq<Operation>, b: seq<Operation>, key: Bytes, revision: nat)
    requires multiset(a) == multiset(b) && DisjointOps(a)
    ensures After(m, a, key, revision) == After(m, b, key, revision)
  {
    hide PutRecord;
    SameMembers(a, b);
    if PutTo(a, key) {
      var op :| op in a && op.Put? && op.key == key && After(m, a, key, revision) == Some(PutRecord(m, op, revision));
      var other :| other in b && other.Put? && other.key == key
                   && After(m, b, key, revision) == Some(PutRecord(m, other, revision));
      var i :| 0 <= i < |a| && a[i] == op;
      var j :| 0 <= j < |a| && a[j] == other;
      LessAppend(key);
      assert OpTouches(a[i], key) && OpTouches(a[j], key);
    }
  }

  lemma {:induction false} HistoryBefore(s: State, ops: seq<Operation>, succeeded: bool, key: Bytes, r: int)
    requires Completed(s, ops) == |ops| && r <= s.revision
    ensures ValueAt(Execute(s, ops, succeeded).0.history, key, r) == ValueAt(s.history, key, r)
  {
    hide Writes, ValueAt, AppendAll, Completed, ChangesData, OpResponse, Responses;
    assert ops[..|ops|] == ops;
    WritesCarryRevision(s, ops, s.revision + 1);
    LaterWritesInvisible(s.history, Writes(s, ops, s.revision + 1), key, r);
  }

  lemma {:induction false} ReadsAllowedAnyOrder(s: State, a: seq<Operation>, b: seq<Operation>)
    requires multiset(a) == multiset(b) && ReadsAllowed(s, a)
    ensures ReadsAllowed(s, b)
  {
    SameMembers(a, b);
  }

  lemma {:induction false} SameChanges(s: State, a: seq<Operation>, b: seq<Operation>)
    requires multiset(a) == multiset(b)
    ensures ChangesData(s, a) == ChangesData(s, b)
  {
    hide Changes;
    SameMembers(a, b);
  }

  lemma {:induction false} SameViews(
    s: State, log: Log, a: seq<Operation>, b: seq<Operation>, succeeded: bool, key: Bytes, r: int)
    requires Inv(s, log) && multiset(a) == multiset(b)
    requires Validate(s, a).None? && Validate(s, b).None? && Completed(s, a) == |a| && Completed(s, b) == |b|
    ensures var (t, u) := (Execute(s, a, succeeded).0, Execute(s, b, succeeded).0);
            t.revision == u.revision && (r <= t.revision ==> ValueAt(t.history, key, r) == ValueAt(u.history, key, r))
  {
    hide Inv, Validate, Completed, ChangesData, Writes, ValueAt, AppendAll, At, DisjointOps, OpResponse, OpFailure,
      After, Events;
    InvCounter(s, log);
    SameChanges(s, a, b);
    var t := Execute(s, a, succeeded).0;
    if r <= s.revision {
      HistoryBefore(s, a, succeeded, key, r);
      HistoryBefore(s, b, succeeded, key, r);
    } else if r <= t.revision {
      AcceptedIsDisjoint(s, a);
      ExecutedView(s, log, a, succeeded, key);
      ExecutedView(s, log, b, succeeded, key);
      AfterAnyOrder(At(log, |log|), a, b, key, s.revision + 1);
    }
  }

  lemma {:induction false} SameResponses(s: State, a: seq<Operation>, b: seq<Operation>, succeeded: bool)
    requires multiset(a) == multiset(b) && Completed(s, a) == |a| && Completed(s, b) == |b|
    ensures var (x, y) := (Execute(s, a, succeeded).1, Execute(s, b, succeeded).1);
            && x.Success? && y.Success?
            && |x.value.responses| == |a| && |y.value.responses| == |b|
            && (forall i, j :: 0 <= i < |a| && 0 <= j < |b| && a[i] == b[j] ==>
                  x.value.responses[i] == y.value.responses[j])
  {
    hide ChangesData, Writes, AppendAll, OpResponse, OpFailure, Commit;
    SameChanges(s, a, b);
  }

  lemma {:induction false} SameEvents(s: State, log: Log, a: seq<Operation>, b: seq<Operation>, succeeded: bool)
    requires Inv(s, log) && multiset(a) == multiset(b)
    requires Validate(s, a).None? && Validate(s, b).None? && Completed(s, a) == |a| && Completed(s, b) == |b|
    ensures var (t, u) := (Execute(s, a, succeeded).0, Execute(s, b, succeeded).0);
            && |t.events| == |u.events|
            && (t.events != [] ==>
                  && multiset(t.events[|t.events| - 1].events) == multiset(u.events[|u.events| - 1].events)
                  && t.events[..|t.events| - 1] == u.events[..|u.events| - 1])
  {
    hide Inv, Validate, Completed, ChangesData, Writes, Events, Execute;
    SameChanges(s, a, b);
    ExecuteKeepsInvariant(s, log, a, succeeded);
    ExecuteKeepsInvariant(s, log, b, succeeded);
    EventsAnyOrder(s, a, b, s.revision + 1);
  }

  /**
   Listing the operations of a transaction in another order is accepted alike, moves the counter alike,
   shows the same record for every key at every revision, answers every operation alike, and publishes
   the same events.
   */
  lemma {:induction false} TransactionAnyOrder(
    s: State, log: Log, a: seq<Operation>, b: seq<Operation>, succeeded: bool)
    requires Inv(s, log) && multiset(a) == multiset(b)
    requires Validate(s, a).None? && ReadsAllowed(s, a)
    ensures Validate(s, b).None?
    ensures var (t, x) := Execute(s, a, succeeded);
            var (u, y) := Execute(s, b, succeeded);
            && t.revision == u.revision
            && (forall key, r: int :: r <= t.revision ==> ValueAt(t.history, key, r) == ValueAt(u.history, key, r))
            && x.Success? && y.Success?
            && |x.value.responses| == |a| && |y.value.responses| == |b|
            && (forall i, j :: 0 <= i < |a| && 0 <= j < |b| && a[i] == b[j] ==>
                  x.value.responses[i] == y.value.responses[j])
            && |t.events| == |u.events|
            && (t.events != [] ==>
                  && multiset(t.events[|t.events| - 1].events) == multiset(u.events[|u.events| - 1].events)
                  && t.events[..|t.events| - 1] == u.events[..|u.events| - 1])
  {
    hide *;
    AcceptedAnyOrder(s, a, b);
    InvCounter(s, log);
    ReadsAllowedAnyOrder(s, a, b);
    ReadsAllowedExactly(s, a);
    ReadsAllowedExactly(s, b);
    SameEvents(s, log, a, b, succeeded);
    SameResponses(s, a, b, succeeded);
    SameViews(s, log, a, b, succeeded, [], 0);
    var (t, x) := Execute(s, a, succeeded);
    var (u, y) := Execute(s, b, succeeded);
    forall key, r: int | r <= t.revision ensures ValueAt(t.history, key, r) == ValueAt(u.history, key, r) {
      SameViews(s, log, a, b, succeeded, key, r);
    }
  }
}
