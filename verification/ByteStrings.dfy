/** Byte strings under the ordering Python gives `bytes`: lexicographic, a proper prefix comes first. */
module ByteStrings {

  type Byte = b: int | 0 <= b < 256

  type Bytes = seq<Byte>

  /** Lexicographic order; stated on integers so that code points can use it too. */
  predicate Less(a: seq<int>, b: seq<int>) {
    b != [] && (a == [] || a[0] < b[0] || (a[0] == b[0] && Less(a[1..], b[1..])))
  }

  predicate AtMost(a: seq<int>, b: seq<int>) {
    a == b || Less(a, b)
  }

  lemma {:induction false} LessIrreflexive(a: seq<int>)
    ensures !Less(a, a)
  {
    if a != [] {
      LessIrreflexive(a[1..]);
    }
  }

  lemma {:induction false} LessTransitive(a: seq<int>, b: seq<int>, c: seq<int>)
    requires Less(a, b) && Less(b, c)
    ensures Less(a, c)
  {
    if a != [] && a[0] == b[0] == c[0] {
      LessTransitive(a[1..], b[1..], c[1..]);
    }
  }

  lemma {:induction false} LessTotal(a: seq<int>, b: seq<int>)
    ensures Less(a, b) || a == b || Less(b, a)
  {
    if a != [] && b != [] && a[0] == b[0] {
      LessTotal(a[1..], b[1..]);
      assert a == [a[0]] + a[1..] && b == [b[0]] + b[1..];
    }
  }

  lemma {:induction false} LessAsymmetric(a: seq<int>, b: seq<int>)
    ensures Less(a, b) ==> !AtMost(b, a)
  {
    LessIrreflexive(a);
    if Less(a, b) && Less(b, a) {
      LessTransitive(a, b, a);
    }
  }

  /** `AtMost` is the negation of the reversed `Less`, as `>=` is of `<` in Python. */
  lemma {:induction false} AtMostIsNotGreater(a: seq<int>, b: seq<int>)
    ensures AtMost(a, b) <==> !Less(b, a)
  {
    LessTotal(a, b);
    LessAsymmetric(a, b);
    LessAsymmetric(b, a);
  }

  /** No byte string lies strictly between `k` and `k + b"\0"`. */
  lemma {:induction false} SuccessorIsImmediate(k: Bytes, x: Bytes)
    ensures Less(x, k + [0]) <==> AtMost(x, k)
  {
    if k == [] {
      assert (k + [0])[0] == 0;
    } else if x != [] {
      assert (k + [0])[0] == k[0] && (k + [0])[1..] == k[1..] + [0];
      if x[0] == k[0] {
        SuccessorIsImmediate(k[1..], x[1..]);
        assert x == [x[0]] + x[1..] && k == [k[0]] + k[1..];
      }
    }
  }

  lemma {:induction false} SuccessorIsNext(k: Bytes, x: Bytes)
    ensures AtMost(k + [0], x) <==> Less(k, x)
  {
    SuccessorIsImmediate(k, x);
    AtMostIsNotGreater(k + [0], x);
    AtMostIsNotGreater(x, k);
  }

  // ----- The exclusive end of a prefix -----

  const UNBOUNDED: Bytes := [0]

  predicate AllMax(s: Bytes) {
    forall i :: 0 <= i < |s| ==> s[i] == 0xFF
  }

  /** `[start, end)`, where the end `b"\0"` means no upper bound. */
  predicate InSpan(key: Bytes, start: Bytes, end: Bytes) {
    AtMost(start, key) && (end == UNBOUNDED || Less(key, end))
  }

  /** Below an incremented prefix are exactly the strings at or below some extension of the prefix. */
  lemma {:induction false} IncrementedPrefix(stem: Bytes, last: Byte, key: Bytes)
    requires last < 0xFF
    ensures AtMost(stem + [last], key) && Less(key, stem + [last + 1]) <==> stem + [last] <= key
  {
    var p, q := stem + [last], stem + [last + 1];
    if stem == [] {
      if key != [] {
        assert p[0] == last && q[0] == last + 1 && p[1..] == [] && q[1..] == [];
        assert key == [key[0]] + key[1..] && key[..1] == [key[0]];
        assert Less([], key[1..]) <==> key[1..] != [];
      }
    } else if key != [] {
      assert p == [stem[0]] + (stem[1..] + [last]) && q == [stem[0]] + (stem[1..] + [last + 1]);
      assert key == [key[0]] + key[1..];
      if key[0] == stem[0] {
        IncrementedPrefix(stem[1..], last, key[1..]);
        assert p <= key <==> p[1..] <= key[1..] by { PrefixTail(p, key); }
      }
    }
  }

  lemma {:induction false} PrefixTail(p: Bytes, key: Bytes)
    requires p != [] && key != [] && p[0] == key[0]
    ensures p <= key <==> p[1..] <= key[1..]
  {
    assert p == [p[0]] + p[1..] && key == [key[0]] + key[1..];
    if p[1..] <= key[1..] {
      assert key[1..][..|p[1..]|] == p[1..];
      assert key[..|p|] == [key[0]] + key[1..][..|p[1..]|];
    }
  }

  /** A string starts with `stem` followed by 0xFF bytes exactly when it reaches that far and starts with `stem`. */
  lemma {:induction false} MaxTail(stem: Bytes, tail: Bytes, key: Bytes)
    requires AllMax(tail)
    ensures stem + tail <= key <==> AtMost(stem + tail, key) && stem <= key
  {
    var p := stem + tail;
    if p == [] {
      assert stem == [];
      LessTotal([], key);
    } else if key == [] {
    } else if stem == [] {
      assert p == tail;
      assert key == [key[0]] + key[1..] && p == [p[0]] + p[1..];
      if key[0] == 0xFF {
        MaxTail([], p[1..], key[1..]);
        assert [] + p[1..] == p[1..];
        PrefixTail(p, key);
      }
    } else {
      assert p[0] == stem[0] && p[1..] == stem[1..] + tail;
      assert key == [key[0]] + key[1..] && p == [p[0]] + p[1..];
      if key[0] == stem[0] {
        MaxTail(stem[1..], tail, key[1..]);
        PrefixTail(p, key);
        PrefixTail(stem, key);
      }
    }
  }

  /** Dropping trailing 0xFF bytes does not change which strings stay below the incremented prefix. */
  lemma {:induction false} PrefixSpan(stem: Bytes, last: Byte, tail: Bytes, key: Bytes)
    requires last < 0xFF && AllMax(tail)
    ensures AtMost(stem + [last] + tail, key) && Less(key, stem + [last + 1])
            <==> stem + [last] + tail <= key
  {
    MaxTail(stem + [last], tail, key);
    IncrementedPrefix(stem, last, key);
    PrefixAtMost(stem + [last], tail);
    var short, long := stem + [last], stem + [last] + tail;
    if AtMost(long, key) && short != long && short != key {
      if long != key {
        LessTransitive(short, long, key);
      }
    }
  }

  lemma {:induction false} PrefixAtMost(p: Bytes, tail: Bytes)
    ensures AtMost(p, p + tail)
  {
    if p == [] {
      assert p + tail == tail;
    } else {
      assert (p + tail)[0] == p[0] && (p + tail)[1..] == p[1..] + tail;
      PrefixAtMost(p[1..], tail);
      assert p == [p[0]] + p[1..];
    }
  }

  /** The smallest exclusive bound of a prefix: grow the last byte that can grow, and drop what follows it. */
  function PrefixEnd(prefix: Bytes): Bytes {
    if prefix == [] then UNBOUNDED
    else
      var init, last := prefix[..|prefix| - 1], prefix[|prefix| - 1];
      if last < 0xFF then init + [last + 1] else PrefixEnd(init)
  }

  lemma {:induction false} PrefixEndBelow(p: Bytes, tail: Bytes, key: Bytes)
    requires AllMax(tail)
    ensures InSpan(key, p + tail, PrefixEnd(p)) <==> p + tail <= key
  {
    if p == [] {
      MaxTail([], tail, key);
    } else {
      var init, last := p[..|p| - 1], p[|p| - 1];
      assert p == init + [last];
      if last < 0xFF {
        PrefixSpan(init, last, tail, key);
        assert PrefixEnd(p) != UNBOUNDED by {
          assert PrefixEnd(p)[|init|] == last + 1;
        }
      } else {
        PrefixEndBelow(init, [last] + tail, key);
        assert p + tail == init + ([last] + tail);
      }
    }
  }

  /** A key lies in the span of a prefix exactly when it starts with the prefix, for every prefix. */
  lemma {:induction false} PrefixSpanExact(prefix: Bytes, key: Bytes)
    ensures InSpan(key, prefix, PrefixEnd(prefix)) <==> prefix <= key
  {
    PrefixEndBelow(prefix, [], key);
    assert prefix + [] == prefix;
  }

  /** The bound is the unbounded marker only where there is no bound. */
  lemma {:induction false} PrefixEndUnbounded(prefix: Bytes)
    ensures PrefixEnd(prefix) == UNBOUNDED <==> AllMax(prefix)
  {
    if prefix != [] {
      var init, last := prefix[..|prefix| - 1], prefix[|prefix| - 1];
      if last < 0xFF {
        assert PrefixEnd(prefix)[|init|] == last + 1;
        assert prefix[|prefix| - 1] != 0xFF;
      } else {
        PrefixEndUnbounded(init);
        assert AllMax(prefix) <==> AllMax(init) by {
          assert prefix == init + [last];
        }
      }
    }
  }

  /** The backward scan that increments a copy of the prefix in place. */
  method PrefixRangeEnd(prefix: Bytes) returns (end: Bytes)
    ensures end == PrefixEnd(prefix)
  {
    if prefix == [] {
      return UNBOUNDED;
    }
    var candidate := new Byte[|prefix|](i requires 0 <= i < |prefix| => prefix[i]);
    var index := |prefix| - 1;
    assert prefix[..|prefix|] == prefix;
    while index >= 0
      invariant -1 <= index < |prefix|
      invariant candidate[..] == prefix
      invariant PrefixEnd(prefix) == PrefixEnd(prefix[..index + 1])
    {
      assert prefix[..index + 1][..index] == prefix[..index];
      if candidate[index] < 0xFF {
        candidate[index] := candidate[index] + 1;
        assert candidate[..index + 1] == prefix[..index] + [prefix[index] + 1];
        return candidate[..index + 1];
      }
      index := index - 1;
    }
    return UNBOUNDED;
  }
}
