/** Compaction drops old versions without changing any read from the compaction point on, and composes. */
module Compaction {
  import opened ByteStrings
  import opened Backend
  import opened Store
  import opened Views
  import opened Logs

  // ----- One chain -----

  ghost predicate SplitsAt(chain: seq<Version>, c: int, p: nat) {
    && p <= |chain| && NotNewer(chain, c) == chain[..p] && Newer(chain, c) == chain[p..]
    && (forall i :: 0 <= i < p ==> chain[i].revision <= c)
    && (forall i :: p <= i < |chain| ==> chain[i].revision > c)
  }

  lemma {:induction false} AllNotNewer(chain: seq<Version>, c: int)
    requires forall i :: 0 <= i < |chain| ==> chain[i].revision <= c
    ensures NotNewer(chain, c) == chain && Newer(chain, c) == []
  {
    if chain != [] {
      AllNotNewer(chain[..|chain| - 1], c);
    }
  }

  lemma {:induction false} PrefixOk(chain: seq<Version>, q: nat)
    requires ChainOk(chain, q) && chain != []
    ensures ChainOk(chain[..|chain| - 1], q)
    ensures forall i :: 0 <= i < |chain| ==> chain[i].revision <= chain[|chain| - 1].revision
  {}

  lemma {:induction false} SuffixOk(chain: seq<Version>, q: nat, k: nat)
    requires ChainOk(chain, q) && k <= |chain|
    ensures ChainOk(chain[k..], q)
  {}

  lemma {:induction false} SplitGrows(chain: seq<Version>, c: int, p: nat)
    requires chain != [] && SplitsAt(chain[..|chain| - 1], c, p) && chain[|chain| - 1].revision > c
    ensures SplitsAt(chain, c, p)
  {
    var init, last := chain[..|chain| - 1], chain[|chain| - 1];
    assert NotNewer(chain, c) == NotNewer(init, c) + [];
    assert Newer(chain, c) == init[p..] + [last];
  }

  /** An ascending chain splits at a revision; compaction keeps the suffix from the last version not newer. */
  lemma {:induction false} ChainSplits(chain: seq<Version>, q: nat, c: int)
    requires ChainOk(chain, q)
    ensures SplitsAt(chain, c, |NotNewer(chain, c)|)
  {
    if chain != [] {
      PrefixOk(chain, q);
      hide ChainOk;
      if chain[|chain| - 1].revision <= c {
        AllNotNewer(chain, c);
      } else {
        hide SplitsAt;
        ChainSplits(chain[..|chain| - 1], q, c);
        SplitGrows(chain, c, |NotNewer(chain[..|chain| - 1], c)|);
      }
    }
  }

  function KeptFrom(chain: seq<Version>, c: int): nat {
    if NotNewer(chain, c) == [] then 0 else |NotNewer(chain, c)| - 1
  }

  lemma {:induction false} CompactIsSuffix(chain: seq<Version>, q: nat, c: int)
    requires ChainOk(chain, q)
    ensures KeptFrom(chain, c) <= |chain| && CompactChain(chain, c) == chain[KeptFrom(chain, c)..]
    ensures ChainOk(CompactChain(chain, c), q)
  {
    ChainSplits(chain, q, c);
    var p := |NotNewer(chain, c)|;
    if p > 0 {
      assert chain[p - 1..] == [chain[p - 1]] + chain[p..];
    } else {
      assert chain[0..] == chain;
      assert [] + chain[0..] == chain;
    }
  }

  lemma {:induction false} SuffixReads(chain: seq<Version>, k: nat, r: int)
    requires k < |chain| && chain[k].revision <= r
    ensures LastAt(chain[k..], r) == LastAt(chain, r)
  {
    if chain[|chain| - 1].revision > r {
      SuffixReads(chain[..|chain| - 1], k, r);
      assert chain[k..][..|chain[k..]| - 1] == chain[..|chain| - 1][k..];
    }
  }

  /** From the compaction point on every read finds the same version, deletions included. */
  lemma {:induction false} CompactReads(chain: seq<Version>, q: nat, c: int, r: int)
    requires ChainOk(chain, q) && c <= r
    ensures LastAt(CompactChain(chain, c), r) == LastAt(chain, r)
  {
    CompactIsSuffix(chain, q, c);
    ChainSplits(chain, q, c);
    if NotNewer(chain, c) == [] {
      assert chain[0..] == chain;
    } else {
      SuffixReads(chain, KeptFrom(chain, c), r);
    }
  }

  /** At most one version remains at or below the compaction point. */
  lemma {:induction false} OneBaseline(chain: seq<Version>, q: nat, c: int, i: nat, j: nat)
    requires ChainOk(chain, q) && i < |CompactChain(chain, c)| && j < |CompactChain(chain, c)|
    requires CompactChain(chain, c)[i].revision <= c && CompactChain(chain, c)[j].revision <= c
    ensures i == j
  {
    CompactIsSuffix(chain, q, c);
    ChainSplits(chain, q, c);
  }

  lemma {:induction false} CutsAreOrdered(chain: seq<Version>, a: int, b: int, pa: nat, pb: nat)
    requires a <= b && Cut(chain, a, pa) && Cut(chain, b, pb)
    ensures pa <= pb
  {
    if 0 < pa {
      assert chain[pa - 1].revision <= a;
    }
  }

  /** Only the split point decides, so compacting again further up forgets the first compaction. */
  lemma {:induction false} SplitIsUnique(chain: seq<Version>, q: nat, c: int, p: nat)
    requires ChainOk(chain, q) && Cut(chain, c, p)
    ensures |NotNewer(chain, c)| == p
  {
    ChainSplits(chain, q, c);
    var n := |NotNewer(chain, c)|;
    CutsAreOrdered(chain, c, c, n, p);
    CutsAreOrdered(chain, c, c, p, n);
  }

  /** `p` versions are not newer than `c`, and they come first. */
  ghost predicate Cut(chain: seq<Version>, c: int, p: nat) {
    && p <= |chain|
    && (forall i :: 0 <= i < p ==> chain[i].revision <= c)
    && (forall i :: p <= i < |chain| ==> chain[i].revision > c)
  }

  lemma {:induction false} ChainCut(chain: seq<Version>, q: nat, c: int)
    requires ChainOk(chain, q)
    ensures |NotNewer(chain, c)| <= |chain| && Cut(chain, c, |NotNewer(chain, c)|)
  {
    ChainSplits(chain, q, c);
  }

  /** What compaction keeps, stated on the cut. */
  lemma {:induction false} KeptSuffix(chain: seq<Version>, q: nat, c: int, p: nat)
    requires ChainOk(chain, q) && Cut(chain, c, p)
    ensures CompactChain(chain, c) == chain[if p == 0 then 0 else p - 1..]
  {
    CompactIsSuffix(chain, q, c);
    SplitIsUnique(chain, q, c, p);
  }

  lemma {:induction false} SuffixCut(chain: seq<Version>, c: int, p: nat, k: nat)
    requires Cut(chain, c, p) && k <= p
    ensures Cut(chain[k..], c, p - k)
  {}

  lemma {:induction false} CompactTwice(chain: seq<Version>, q: nat, a: int, b: int)
    requires ChainOk(chain, q) && a <= b
    ensures CompactChain(CompactChain(chain, a), b) == CompactChain(chain, b)
  {
    hide *;
    ChainCut(chain, q, a);
    ChainCut(chain, q, b);
    var pa, pb := |NotNewer(chain, a)|, |NotNewer(chain, b)|;
    var k := if pa == 0 then 0 else pa - 1;
    CutsAreOrdered(chain, a, b, pa, pb);
    KeptSuffix(chain, q, a, pa);
    KeptSuffix(chain, q, b, pb);
    SuffixOk(chain, q, k);
    SuffixCut(chain, b, pb, k);
    KeptSuffix(chain[k..], q, b, pb - k);
  }

  // ----- The whole store -----

  lemma {:induction false} CompactedChain(h: History, key: Bytes, c: int)
    ensures Chain(CompactHistory(h, c), key) == CompactChain(Chain(h, key), c)
  {}

  lemma {:induction false} CompactedReads(h: History, q: nat, key: Bytes, c: int, r: int)
    requires ChainsOk(h, q) && c <= r
    ensures ValueAt(CompactHistory(h, c), key, r) == ValueAt(h, key, r)
  {
    hide CompactChain, ChainOk;
    assert ChainOk(Chain(h, key), q);
    CompactedChain(h, key, c);
    CompactReads(Chain(h, key), q, c, r);
  }

  /** Retained batches carry exactly the revisions after the compacted one, without a gap. */
  lemma {:induction false} RetainedRevisions(s: State, log: Log)
    requires Inv(s, log)
    ensures |s.events| == s.revision - s.compactedRevision
    ensures forall i :: 0 <= i < |s.events| ==> s.events[i].revision == s.compactedRevision + i + 1
  {
    hide At, BatchOk;
    forall i | 0 <= i < |s.events| ensures s.events[i].revision == s.compactedRevision + i + 1 {
      LogRevision(log, s.compactedRevision + i);
    }
  }

  lemma {:induction false} LogRevision(log: Log, i: nat)
    requires GoodLog(log) && i < |log|
    ensures log[i].revision == i + 1
  {
    assert BatchOk(At(log, i), log[i], i + 1);
  }

  lemma {:induction false} NoneNewer(batches: seq<WatchBatch>, c: nat)
    requires forall i :: 0 <= i < |batches| ==> batches[i].revision <= c
    ensures NewerBatches(batches, c) == []
  {
    if batches != [] {
      NoneNewer(batches[..|batches| - 1], c);
    }
  }

  lemma {:induction false} NewerThan(batches: seq<WatchBatch>, from: nat, c: nat)
    requires forall i :: 0 <= i < |batches| ==> batches[i].revision == from + i + 1
    requires from <= c <= from + |batches|
    ensures NewerBatches(batches, c) == batches[c - from..]
  {
    if c < from + |batches| {
      NewerThan(batches[..|batches| - 1], from, c);
    } else {
      NoneNewer(batches, c);
    }
  }

  lemma {:induction false} CompactedChainsOk(h: History, q: nat, c: int)
    requires ChainsOk(h, q)
    ensures ChainsOk(CompactHistory(h, c), q)
  {
    hide CompactChain, ChainOk;
    forall k ensures ChainOk(Chain(CompactHistory(h, c), k), q) {
      assert ChainOk(Chain(h, k), q);
      CompactedChain(h, k, c);
      CompactIsSuffix(Chain(h, k), q, c);
    }
  }

  lemma {:induction false} CompactedShows(s: State, log: Log, c: nat)
    requires Inv(s, log) && s.compactedRevision <= c
    ensures Shows(CompactHistory(s.history, c), c, log)
  {
    hide CompactChain, ChainOk, At, ValueAt, GoodLog;
    forall k, r: nat | c <= r <= |log|
      ensures ValueAt(CompactHistory(s.history, c), k, r) == Lookup(At(log, r), k)
    {
      CompactedReads(s.history, s.revision, k, c, r);
      InvShows(s, log, k, r);
    }
  }

  /** Compaction keeps the invariant, and with it every view from its bound on. */
  lemma {:induction false} CompactKeepsInvariant(s: State, log: Log, c: int)
    requires Inv(s, log)
    ensures Inv(Compact(s, c).0, log)
  {
    hide ChainsOk, Shows, GoodLog, NewerBatches, CompactHistory;
    if !s.closed && s.compactedRevision < c <= s.revision {
      RetainedRevisions(s, log);
      NewerThan(s.events, s.compactedRevision, c);
      assert s.events[c - s.compactedRevision..] == log[c..];
      CompactedChainsOk(s.history, s.revision, c);
      CompactedShows(s, log, c);
    }
  }

  /** Compacting to `a` and then to `b` is compacting to `b`, on the whole state. */
  lemma {:induction false} CompactionComposes(s: State, log: Log, a: int, b: int)
    requires Inv(s, log) && a <= b <= s.revision
    ensures Compact(Compact(s, a).0, b).0 == Compact(s, b).0
  {
    var once, twice := Compact(s, b).0, Compact(Compact(s, a).0, b).0;
    if !s.closed && s.compactedRevision < a {
      CompactKeepsInvariant(s, log, a);
      CompactKeepsInvariant(s, log, b);
      CompactKeepsInvariant(Compact(s, a).0, log, b);
      hide Inv, CompactChain;
      if a < b {
        CompactHistoryTwice(s.history, s.revision, a, b);
        InvEvents(once, log);
        InvEvents(twice, log);
        assert once == twice;
      }
    }
  }

  lemma {:induction false} InvEvents(s: State, log: Log)
    requires Inv(s, log)
    ensures s.compactedRevision <= |log| && s.events == log[s.compactedRevision..]
  {}

  lemma {:induction false} CompactHistoryTwice(h: History, q: nat, a: int, b: int)
    requires ChainsOk(h, q) && a <= b
    ensures CompactHistory(CompactHistory(h, a), b) == CompactHistory(h, b)
  {
    hide CompactChain, ChainOk;
    var once, twice := CompactHistory(h, b), CompactHistory(CompactHistory(h, a), b);
    forall k | k in h.entries ensures twice.entries[k] == once.entries[k] {
      assert ChainOk(Chain(h, k), q);
      CompactTwice(Chain(h, k), q, a, b);
    }
  }
}
