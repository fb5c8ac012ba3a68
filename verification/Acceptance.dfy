/** Which transactions validation accepts, in terms of the keys their operations may write. */
module Acceptance {
  import opened Wrappers
  import opened ByteStrings
  import opened Backend
  import opened Ranges
  import opened Store
  import opened Commits

  // ----- What validation reports -----

  ghost predicate ReportedApart(ops: seq<Operation>) {
    forall i, j :: 0 <= i < j < |ops| ==> !Overlapping(ops[j], ops[i])
  }

  ghost predicate LeasesKnown(s: State, ops: seq<Operation>) {
    forall op :: op in ops ==> !LeaseMissing(s, op)
  }

  lemma {:induction false} ValidatedExactly(s: State, ops: seq<Operation>)
    ensures Validate(s, ops).None? <==> LeasesKnown(s, ops) && ReportedApart(ops)
  {
    hide Overlapping, LeaseMissing;
    if ops != [] {
      var init, last := ops[..|ops| - 1], ops[|ops| - 1];
      ValidatedExactly(s, init);
      assert forall op :: op in ops <==> op in init || op == last;
      if ReportedApart(ops) {
        forall other | other in init ensures !Overlapping(last, other) {
          var i :| 0 <= i < |init| && init[i] == other;
          assert ops[i] == other;
        }
      }
      if Validate(s, ops).None? {
        AcceptedPairs(s, ops);
      }
    }
  }

  lemma {:induction false} OverlappingSymmetric(a: Operation, b: Operation)
    ensures Overlapping(a, b) == Overlapping(b, a)
  {
    if IsWrite(a) && IsWrite(b) {
      OverlapSymmetric(WriteStart(a), WriteEnd(a), WriteStart(b), WriteEnd(b));
    }
  }

  // ----- What operations may write -----

  predicate MayWrite(op: Operation, key: Bytes) {
    match op
    case Put(k, _, _) => key == k
    case DeleteRange(start, end) => KeyInRange(key, start, end)
    case GetRange(_) => false
  }

  ghost predicate ShareWrite(a: Operation, b: Operation) {
    exists key: Bytes :: MayWrite(a, key) && MayWrite(b, key)
  }

  /** A put is the deletion range of its own key as far as the overlap test can see. */
  function SpanEnd(op: Operation): Option<Bytes>
    requires IsWrite(op)
  {
    if op.Put? then None else op.end
  }

  predicate WritesNothing(op: Operation) {
    op.DeleteRange? && !HoldsOwnStart(op.start, op.end)
  }

  /** A put, or a delete, of the empty key alone: its effective end is the unbounded marker. */
  predicate SoleEmpty(op: Operation) {
    IsWrite(op) && WriteStart(op) == [] && SpanEnd(op).None?
  }

  /** An empty deletion range that starts inside the range of another write and ends after its start. */
  predicate Strays(empty: Operation, other: Operation)
    requires IsWrite(empty) && IsWrite(other)
  {
    && InSpan(WriteStart(empty), WriteStart(other), EffectiveEnd(WriteStart(other), SpanEnd(other)))
    && Less(WriteStart(other), EffectiveEnd(WriteStart(empty), SpanEnd(empty)))
  }

  /** The writes that are reported to overlap although no key can be written by both. */
  predicate Misjudged(a: Operation, b: Operation) {
    IsWrite(a) && IsWrite(b) &&
    if WritesNothing(a) then Strays(a, b)
    else if WritesNothing(b) then Strays(b, a)
    else (SoleEmpty(a) && WriteStart(b) != []) || (SoleEmpty(b) && WriteStart(a) != [])
  }

  lemma {:induction false} MayWriteInRange(op: Operation, key: Bytes)
    requires IsWrite(op)
    ensures MayWrite(op, key) <==> KeyInRange(key, WriteStart(op), SpanEnd(op))
  {}

  lemma {:induction false} OverlappingOnSpans(a: Operation, b: Operation)
    requires IsWrite(a) && IsWrite(b)
    ensures Overlapping(a, b) == RangesOverlap(WriteStart(a), SpanEnd(a), WriteStart(b), SpanEnd(b))
    ensures ShareWrite(a, b) <==> ShareKey(WriteStart(a), SpanEnd(a), WriteStart(b), SpanEnd(b))
  {
    hide KeyInRange, MayWrite;
    forall key: Bytes
      ensures MayWrite(a, key) <==> KeyInRange(key, WriteStart(a), SpanEnd(a))
      ensures MayWrite(b, key) <==> KeyInRange(key, WriteStart(b), SpanEnd(b))
    {
      MayWriteInRange(a, key);
      MayWriteInRange(b, key);
    }
  }

  lemma {:induction false} EmptyRangeVerdict(a: Operation, b: Operation)
    requires IsWrite(a) && IsWrite(b) && WritesNothing(a)
    ensures !ShareWrite(a, b) && (Overlapping(a, b) <==> Strays(a, b))
  {
    OverlappingOnSpans(a, b);
    hide RangesOverlap, InSpan, Less, Overlapping, MayWrite;
    EmptyRangeOverlaps(a.start, a.end.value, WriteStart(b), SpanEnd(b));
  }

  /** Two writes are reported to overlap exactly when some key may be written by both, or they are misjudged. */
  lemma {:induction false} OverlapVerdict(a: Operation, b: Operation)
    requires IsWrite(a) && IsWrite(b)
    ensures Overlapping(a, b) <==> ShareWrite(a, b) || Misjudged(a, b)
    ensures (Overlapping(a, b) <==> ShareWrite(a, b)) <==> !Misjudged(a, b)
  {
    hide InSpan, Less, Overlapping, MayWrite, RangesOverlap, HoldsOwnStart, Strays;
    if WritesNothing(a) {
      EmptyRangeVerdict(a, b);
    } else if WritesNothing(b) {
      EmptyRangeVerdict(b, a);
      OverlappingSymmetric(a, b);
    } else {
      NonEmptyVerdict(a, b);
    }
  }

  lemma {:induction false} NonEmptyVerdict(a: Operation, b: Operation)
    requires IsWrite(a) && IsWrite(b) && !WritesNothing(a) && !WritesNothing(b)
    ensures (Overlapping(a, b) <==> ShareWrite(a, b)) <==>
              (SoleEmpty(a) ==> WriteStart(b) == []) && (SoleEmpty(b) ==> WriteStart(a) == [])
    ensures ShareWrite(a, b) ==> Overlapping(a, b)
  {
    OverlappingOnSpans(a, b);
    OverlapExactness(WriteStart(a), SpanEnd(a), WriteStart(b), SpanEnd(b));
    if key: Bytes :| KeyInRange(key, WriteStart(a), SpanEnd(a)) && KeyInRange(key, WriteStart(b), SpanEnd(b)) {
      SharedKeyOverlaps(key, WriteStart(a), SpanEnd(a), WriteStart(b), SpanEnd(b));
    }
  }

  // ----- Whole transactions -----

  /** No key may be written by two of the operations. */
  ghost predicate WritesApart(ops: seq<Operation>) {
    forall i, j :: 0 <= i < j < |ops| ==> !ShareWrite(ops[j], ops[i])
  }

  predicate NoneMisjudged(ops: seq<Operation>) {
    forall i, j :: 0 <= i < j < |ops| ==> !Misjudged(ops[j], ops[i])
  }

  lemma {:induction false} PairVerdict(a: Operation, b: Operation)
    ensures Overlapping(a, b) <==> ShareWrite(a, b) || Misjudged(a, b)
  {
    if IsWrite(a) && IsWrite(b) {
      OverlapVerdict(a, b);
    }
  }

  /**
   A transaction is accepted exactly when every named lease exists, no key may be written twice and no two
   writes are misjudged: the overlap test errs on the last ground only, and only towards refusing.
   */
  lemma {:induction false} AcceptedExactly(s: State, ops: seq<Operation>)
    ensures Validate(s, ops).None? <==> LeasesKnown(s, ops) && WritesApart(ops) && NoneMisjudged(ops)
  {
    ValidatedExactly(s, ops);
    hide Overlapping, ShareWrite, Misjudged, Validate, LeasesKnown;
    forall i, j | 0 <= i < j < |ops|
      ensures Overlapping(ops[j], ops[i]) <==> ShareWrite(ops[j], ops[i]) || Misjudged(ops[j], ops[i])
    {
      PairVerdict(ops[j], ops[i]);
    }
  }

  /** The first operation that may not follow those before it decides which complaint a refused transaction draws. */
  lemma {:induction false} RefusedFor(s: State, ops: seq<Operation>) returns (i: nat)
    requires Validate(s, ops).Some?
    ensures i < |ops| && LeasesKnown(s, ops[..i]) && WritesApart(ops[..i]) && NoneMisjudged(ops[..i])
    ensures if ops[i].Put? && ops[i].leaseId.Some? && ops[i].leaseId.value !in s.leases.entries
            then Validate(s, ops) == Some(LeaseNotFound(ops[i].leaseId.value))
            else
              && Validate(s, ops) == Some(BackendError)
              && exists j :: 0 <= j < i && (ShareWrite(ops[i], ops[j]) || Misjudged(ops[i], ops[j]))
  {
    hide Overlapping, ShareWrite, Misjudged, LeasesKnown, WritesApart, NoneMisjudged;
    var earlier, op := ops[..|ops| - 1], ops[|ops| - 1];
    if Validate(s, earlier).Some? {
      i := RefusedFor(s, earlier);
      assert earlier[..i] == ops[..i];
    } else {
      i := |ops| - 1;
      AcceptedExactly(s, earlier);
      if !LeaseMissing(s, op) {
        var other :| other in earlier && Overlapping(op, other);
        var j :| 0 <= j < |earlier| && earlier[j] == other;
        PairVerdict(op, other);
        assert ops[j] == other;
      }
    }
  }

  const EMPTY_KEY_PUT: seq<Operation> := [Put([], [1], None), Put([97], [1], None)]

  /** Putting the empty key beside any other key is refused, although the two writes share no key. */
  lemma {:induction false} EmptyKeyPutIsRefused()
    ensures Validate(INITIAL, EMPTY_KEY_PUT) == Some(BackendError)
    ensures LeasesKnown(INITIAL, EMPTY_KEY_PUT) && WritesApart(EMPTY_KEY_PUT) && !NoneMisjudged(EMPTY_KEY_PUT)
  {
    var ops := EMPTY_KEY_PUT;
    assert ops[..1] == [ops[0]] && [ops[0]][..0] == [];
    assert Validate(INITIAL, [ops[0]]).None?;
    assert ops[0] in ops[..1] && Overlapping(ops[1], ops[0]);
    assert Misjudged(ops[1], ops[0]);
  }
}
