/** What the overlap test between two write ranges decides. */
module Ranges {
  import opened Wrappers
  import opened ByteStrings
  import opened Backend

  ghost predicate ShareKey(ls: Bytes, le: Option<Bytes>, rs: Bytes, re: Option<Bytes>) {
    exists key: Bytes :: KeyInRange(key, ls, le) && KeyInRange(key, rs, re)
  }

  predicate HoldsOwnStart(start: Bytes, end: Option<Bytes>) {
    KeyInRange(start, start, end)
  }

  /** Without an end of its own, only the range of the empty key has the unbounded marker as effective end. */
  predicate LooksUnbounded(start: Bytes, end: Option<Bytes>) {
    start == [] && end.None?
  }

  /** A range holds some key exactly when it holds its own start. */
  lemma {:induction false} NonEmptyHoldsStart(start: Bytes, end: Option<Bytes>)
    ensures (exists key: Bytes :: KeyInRange(key, start, end)) <==> HoldsOwnStart(start, end)
  {
    if key: Bytes :| KeyInRange(key, start, end) {
      if end.Some? && end.value != UNBOUNDED && start != key {
        LessTransitive(start, key, end.value);
      }
    }
  }

  lemma {:induction false} InEffectiveSpan(key: Bytes, start: Bytes, end: Option<Bytes>)
    ensures KeyInRange(key, start, end) ==> InSpan(key, start, EffectiveEnd(start, end))
    ensures InSpan(key, start, EffectiveEnd(start, end)) && !LooksUnbounded(start, end) ==> KeyInRange(key, start, end)
  {
    SuccessorIsImmediate(start, key);
    LessAsymmetric(start, key);
    if end.None? && start != [] {
      assert |start + [0]| > 1;
    }
  }

  lemma {:induction false} OverlapSymmetric(ls: Bytes, le: Option<Bytes>, rs: Bytes, re: Option<Bytes>)
    ensures RangesOverlap(ls, le, rs, re) == RangesOverlap(rs, re, ls, le)
  {}

  lemma {:induction false} AtMostLess(a: Bytes, b: Bytes, c: Bytes)
    requires AtMost(a, b) && Less(b, c)
    ensures Less(a, c)
  {
    if a != b {
      LessTransitive(a, b, c);
    }
  }

  /** The test never misses a shared key. */
  lemma {:induction false} SharedKeyOverlaps(key: Bytes, ls: Bytes, le: Option<Bytes>, rs: Bytes, re: Option<Bytes>)
    requires KeyInRange(key, ls, le) && KeyInRange(key, rs, re)
    ensures RangesOverlap(ls, le, rs, re)
  {
    InEffectiveSpan(key, ls, le);
    InEffectiveSpan(key, rs, re);
    var l, r := EffectiveEnd(ls, le), EffectiveEnd(rs, re);
    if l != UNBOUNDED { AtMostLess(rs, key, l); }
    if r != UNBOUNDED { AtMostLess(ls, key, r); }
  }

  lemma {:induction false} ReportedShare(ls: Bytes, le: Option<Bytes>, rs: Bytes, re: Option<Bytes>)
    requires HoldsOwnStart(ls, le) && HoldsOwnStart(rs, re)
    requires !LooksUnbounded(ls, le) && !LooksUnbounded(rs, re)
    requires RangesOverlap(ls, le, rs, re)
    ensures ShareKey(ls, le, rs, re)
  {
    LessTotal(ls, rs);
    var key := if Less(ls, rs) then rs else ls;
    InEffectiveSpan(ls, ls, le);
    InEffectiveSpan(rs, rs, re);
    InEffectiveSpan(key, ls, le);
    InEffectiveSpan(key, rs, re);
    assert KeyInRange(key, ls, le) && KeyInRange(key, rs, re);
  }

  /**
   Between non-empty ranges the test is exact, unless one of them is the single empty key, whose end the
   test takes for the unbounded marker: then it is exact only if the other range holds the empty key too.
   */
  lemma {:induction false} OverlapExactness(ls: Bytes, le: Option<Bytes>, rs: Bytes, re: Option<Bytes>)
    requires HoldsOwnStart(ls, le) && HoldsOwnStart(rs, re)
    ensures (RangesOverlap(ls, le, rs, re) <==> ShareKey(ls, le, rs, re))
            <==> (LooksUnbounded(ls, le) ==> rs == []) && (LooksUnbounded(rs, re) ==> ls == [])
  {
    if ShareKey(ls, le, rs, re) {
      var key: Bytes :| KeyInRange(key, ls, le) && KeyInRange(key, rs, re);
      SharedKeyOverlaps(key, ls, le, rs, re);
      if LooksUnbounded(ls, le) || LooksUnbounded(rs, re) {
        assert key == [];
      }
    } else if LooksUnbounded(ls, le) || LooksUnbounded(rs, re) {
      assert ls == [] && rs == [] ==> KeyInRange([], ls, le) && KeyInRange([], rs, re);
      InEffectiveSpan(ls, ls, le);
      InEffectiveSpan(rs, rs, re);
    } else if RangesOverlap(ls, le, rs, re) {
      ReportedShare(ls, le, rs, re);
    }
  }

  /** An empty range shares no key, yet is reported to overlap a range that reaches across it. */
  lemma {:induction false} EmptyRangeOverlaps(ls: Bytes, le: Bytes, rs: Bytes, re: Option<Bytes>)
    requires !HoldsOwnStart(ls, Some(le))
    ensures !ShareKey(ls, Some(le), rs, re)
    ensures RangesOverlap(ls, Some(le), rs, re) <==> InSpan(ls, rs, EffectiveEnd(rs, re)) && Less(rs, le)
  {
    NonEmptyHoldsStart(ls, Some(le));
    AtMostIsNotGreater(le, ls);
    LessTotal(rs, ls);
    if Less(rs, le) && le != ls {
      LessTransitive(rs, le, ls);
    }
  }

  /** Deleting the empty key is refused beside a write to an unrelated key. */
  lemma {:induction false} SingleEmptyKeyIsRefused()
    ensures RangesOverlap([], None, [97], None) && !ShareKey([], None, [97], None)
  {}

  /** The range of all keys under a prefix. */
  method PrefixRange(prefix: Bytes, revision: Option<int>, limit: Option<int>) returns (r: RangeRequest)
    ensures forall key: Bytes :: KeyInRange(key, r.start, r.end) <==> prefix <= key
    ensures r.revision == revision && r.limit == limit
  {
    var end := PrefixRangeEnd(prefix);
    forall key: Bytes ensures InSpan(key, prefix, end) <==> prefix <= key {
      PrefixSpanExact(prefix, key);
    }
    return RangeRequest(prefix, Some(end), revision, limit);
  }
}
