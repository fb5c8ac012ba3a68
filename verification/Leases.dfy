/** Leases: what revoking and expiring remove, and what every run keeps about them. */
module Leases {
  import opened Wrappers
  import opened Sorting
  import opened Dicts
  import opened ByteStrings
  import opened Backend
  import opened Store
  import opened Views
  import opened Logs
  import opened Commits
  import opened Runs
  import opened PlainMap

  predicate HeldBy(m: Snapshot, key: Bytes, id: LeaseId) {
    key in m && m[key].leaseId == Some(id)
  }

  /** The map without the keys of some leases. */
  function Surviving(m: Snapshot, ids: set<LeaseId>): Snapshot {
    map k | k in m && !(m[k].leaseId.Some? && m[k].leaseId.value in ids) :: m[k]
  }

  ghost predicate HoldsKeys(m: Snapshot, id: LeaseId) {
    exists key :: HeldBy(m, key, id)
  }

  ghost function Holding(m: Snapshot, ids: set<LeaseId>): set<LeaseId> {
    set id | id in ids && HoldsKeys(m, id)
  }

  // ----- One lease -----

  lemma {:induction false} AttachedAreHeld(s: State, log: Log, id: LeaseId)
    requires Inv(s, log)
    ensures var keys := AttachedKeys(s.history, s.history.order, s.revision, id);
            forall k :: k in keys <==> HeldBy(At(log, |log|), k, id)
  {
    hide Inv, At, ValueAt;
    var keys := AttachedKeys(s.history, s.history.order, s.revision, id);
    forall k ensures k in keys <==> HeldBy(At(log, |log|), k, id) {
      InvNow(s, log, k);
      ViewShows(s.history, k, s.revision);
    }
  }

  /** `some` lists members of `all` in the order in which `all` does. */
  ghost predicate InOrder<T(!new)>(some: seq<T>, all: seq<T>) {
    forall i, j, p, q :: (
      && 0 <= i < j < |some| && 0 <= p < |all| && 0 <= q < |all|
      && some[i] == all[p] && some[j] == all[q]) ==> p < q
  }

  lemma {:induction false} KeptInOrder<T(!new)>(first: T, some: seq<T>, all: seq<T>)
    requires NoDup([first] + all) && InOrder(some, all) && forall x :: x in some ==> x in all
    ensures InOrder([first] + some, [first] + all) && InOrder(some, [first] + all)
  {
    var more, whole := [first] + some, [first] + all;
    assert forall p :: 0 < p < |whole| ==> whole[p] == all[p - 1] && whole[p] != whole[0];
    forall i | 0 <= i < |some| ensures some[i] != first {
      assert some[i] in all;
      var k :| 0 <= k < |all| && all[k] == some[i];
      assert whole[k + 1] == some[i];
    }
    forall i, j, p, q | 0 <= i < j < |more| && 0 <= p < |whole| && 0 <= q < |whole|
                        && more[i] == whole[p] && more[j] == whole[q]
      ensures p < q
    {
      assert more[j] == some[j - 1] && q > 0;
      if i > 0 {
        assert more[i] == some[i - 1] && p > 0;
      }
    }
    forall i, j, p, q | 0 <= i < j < |some| && 0 <= p < |whole| && 0 <= q < |whole|
                        && some[i] == whole[p] && some[j] == whole[q]
      ensures p < q
    {
      assert p > 0 && q > 0;
    }
  }

  /** Attached keys are deleted in the order the history iterates them. */
  lemma {:induction false} AttachedInOrder(h: History, keys: seq<Bytes>, r: int, id: LeaseId)
    requires NoDup(keys)
    ensures InOrder(AttachedKeys(h, keys, r, id), keys)
  {
    hide ValueAt, Attached, InOrder;
    if keys == [] {
      NothingInOrder<Bytes>([]);
    } else {
      assert keys == [keys[0]] + keys[1..];
      AttachedInOrder(h, keys[1..], r, id);
      KeptInOrder(keys[0], AttachedKeys(h, keys[1..], r, id), keys[1..]);
    }
  }

  lemma {:induction false} NothingInOrder<T(!new)>(all: seq<T>)
    ensures InOrder([], all)
  {}

  /** Due leases are dropped in the order of the lease table. */
  lemma {:induction false} ExpiredInOrder(leases: Dict<LeaseId, LeaseState>, ids: seq<LeaseId>, clock: real)
    requires NoDup(ids)
    ensures InOrder(ExpiredIds(leases, ids, clock), ids)
  {
    hide InOrder;
    if ids == [] {
      NothingInOrder<LeaseId>([]);
    } else {
      assert ids == [ids[0]] + ids[1..];
      ExpiredInOrder(leases, ids[1..], clock);
      KeptInOrder(ids[0], ExpiredIds(leases, ids[1..], clock), ids[1..]);
    }
  }

  lemma {:induction false} DeletesErase(m: Snapshot, keys: seq<Bytes>, key: Bytes, revision: nat)
    ensures After(m, Deletes(keys), key, revision) == if key in keys then None else Lookup(m, key)
  {
    var ops := Deletes(keys);
    if key in keys {
      var i :| 0 <= i < |keys| && keys[i] == key;
      assert ops[i] in ops && KeyInRange(key, keys[i], None);
    }
  }

  lemma {:induction false} OneBatchOfDeletes(s: State, log: Log, keys: seq<Bytes>)
    requires Inv(s, log) && NoDup(keys) && forall k :: k in keys ==> k in At(log, |log|)
    ensures var events := TransactionBatch(s, Deletes(keys)).events;
            && (forall e :: e in events ==> e.kind.DELETE? && e.keyValue.key in keys)
            && (forall k :: k in keys ==> exists e :: e in events && e.keyValue.key == k)
  {
    hide Inv, At, Writes, EventOf, OpWrites;
    var ops := Deletes(keys);
    var writes := Writes(s, ops, s.revision + 1);
    var events := TransactionBatch(s, ops).events;
    forall e | e in events ensures e.kind.DELETE? && e.keyValue.key in keys {
      var i :| 0 <= i < |events| && events[i] == e;
      assert writes[i] in writes;
      WrittenKey(s, log, ops, writes[i]);
      EventOfWrite(writes[i]);
    }
    forall k | k in keys ensures exists e :: e in events && e.keyValue.key == k {
      var i :| 0 <= i < |keys| && keys[i] == k;
      assert ops[i] in ops && KeyInRange(k, keys[i], None);
      var w := DeleteIsWritten(s, log, ops, ops[i], k);
      var j :| 0 <= j < |writes| && writes[j] == w;
      EventOfWrite(w);
      assert events[j] == EventOf(w) && events[j] in events;
    }
  }

  /**
   Dropping a lease removes exactly the keys whose current record names it, in one revision and one batch
   of deletes; none if there are no such keys. Keys since put under another lease are spared.
   */
  lemma {:induction false} DropLeaseExactly(s: State, log: Log, id: LeaseId)
    requires Inv(s, log)
    ensures var t, m := DropLease(s, id), At(log, |log|);
            && (forall key :: ValueAt(t.history, key, t.revision) == Lookup(Surviving(m, {id}), key))
            && t.revision == s.revision + (if HoldsKeys(m, id) then 1 else 0)
            && (!HoldsKeys(m, id) ==> t.events == s.events)
            && (HoldsKeys(m, id) ==>
                  && |t.events| == |s.events| + 1
                  && var events := t.events[|s.events|].events;
                     && (forall e :: e in events ==> e.kind.DELETE? && HeldBy(m, e.keyValue.key, id))
                     && (forall k :: HeldBy(m, k, id) ==> exists e :: e in events && e.keyValue.key == k))
  {
    var released := s.(leases := Pop(s.leases, id));
    SameStoreKeeps(s, log, released);
    assert log + [] == log;
    hide Inv, At, Writes, ValueAt, AttachedKeys, Published, AppendAll, Events, HeldBy, Without;
    var m := At(log, |log|);
    var keys := AttachedKeys(released.history, released.history.order, released.revision, id);
    AttachedAreHeld(released, log, id);
    ExpireKeepsInvariant(released, log, id);
    ExpiryView(released, log, id);
    HeldKeysOf(m, keys, id);
    if keys != [] {
      OneBatchOfDeletes(released, log, keys);
    }
  }

  lemma {:induction false} HeldKeysOf(m: Snapshot, keys: seq<Bytes>, id: LeaseId)
    requires forall k :: k in keys <==> HeldBy(m, k, id)
    ensures keys != [] <==> HoldsKeys(m, id)
    ensures forall k :: k in keys ==> k in m
    ensures forall key :: Lookup(Surviving(m, {id}), key) == if key in keys then None else Lookup(m, key)
  {
    if keys != [] {
      assert keys[0] in keys;
    }
  }

  lemma {:induction false} ExpiryView(s: State, log: Log, id: LeaseId)
    requires Inv(s, log)
    ensures var keys := AttachedKeys(s.history, s.history.order, s.revision, id);
            var t := ExpireLeaseKeys(s, id);
            && t.revision == s.revision + (if keys == [] then 0 else 1)
            && (forall key :: ValueAt(t.history, key, t.revision)
                           == if key in keys then None else Lookup(At(log, |log|), key))
  {
    hide Inv, At, Writes, ValueAt, AppendAll, Events, After, ApplyEvents, DisjointOps;
    var keys := AttachedKeys(s.history, s.history.order, s.revision, id);
    var t := ExpireLeaseKeys(s, id);
    ExpireKeepsInvariant(s, log, id);
    InvCounter(s, log);
    DeletesAreDisjoint(keys);
    forall key ensures ValueAt(t.history, key, t.revision)
                    == if key in keys then None else Lookup(At(log, |log|), key)
    {
      if keys == [] {
        InvNow(s, log, key);
      } else {
        var batch := ExpiryBatch(s, id);
        InvNow(t, log + [batch], key);
        AtNext(log + [batch], |log|);
        AtPrefix(log, [batch], |log|);
        BatchEffect(s, log, Deletes(keys), key);
        DeletesErase(At(log, |log|), keys, key, s.revision + 1);
      }
    }
  }

  // ----- Several leases -----

  ghost predicate ShowsNow(s: State, m: Snapshot) {
    forall key :: ValueAt(s.history, key, s.revision) == Lookup(m, key)
  }

  lemma {:induction false} NowIs(s: State, log: Log, m: Snapshot)
    requires Inv(s, log) && ShowsNow(s, m)
    ensures At(log, |log|) == m
  {
    hide Inv, At, ValueAt;
    forall key ensures Lookup(At(log, |log|), key) == Lookup(m, key) {
      InvNow(s, log, key);
      assert ValueAt(s.history, key, s.revision) == Lookup(m, key);
    }
    SameLookups(At(log, |log|), m);
  }

  lemma {:induction false} SurvivingTwice(m: Snapshot, a: set<LeaseId>, b: set<LeaseId>)
    ensures Surviving(Surviving(m, a), b) == Surviving(m, a + b)
  {}

  /** Dropping some leases does not touch the keys of the others. */
  lemma {:induction false} OthersStillHold(m: Snapshot, ids: set<LeaseId>, id: LeaseId)
    requires id !in ids
    ensures HoldsKeys(Surviving(m, ids), id) <==> HoldsKeys(m, id)
  {
    if key :| HeldBy(m, key, id) {
      assert HeldBy(Surviving(m, ids), key, id);
    }
    if key :| HeldBy(Surviving(m, ids), key, id) {
      assert HeldBy(m, key, id);
    }
  }

  function Ids(ids: seq<LeaseId>): set<LeaseId> {
    set id | id in ids
  }

  lemma {:induction false} LastId(ids: seq<LeaseId>)
    requires NoDup(ids) && ids != []
    ensures var init, last := ids[..|ids| - 1], ids[|ids| - 1];
            NoDup(init) && last !in Ids(init) && Ids(ids) == Ids(init) + {last}
  {
    assert ids == ids[..|ids| - 1] + [ids[|ids| - 1]];
  }

  lemma {:induction false} HoldingOneMore(m: Snapshot, before: set<LeaseId>, last: LeaseId)
    requires last !in before
    ensures |Holding(m, before + {last})| == |Holding(m, before)| + (if HoldsKeys(m, last) then 1 else 0)
  {
    hide HoldsKeys;
    assert Holding(m, before + {last}) == Holding(m, before) + (if HoldsKeys(m, last) then {last} else {});
  }

  /** Dropping leases in turn removes the keys of all of them and uses one revision for each that holds any. */
  lemma {:induction false} DropLeasesExactly(s: State, log: Log, ids: seq<LeaseId>)
    requires Inv(s, log) && NoDup(ids)
    ensures var t, m := DropLeases(s, ids), At(log, |log|);
            && ShowsNow(t, Surviving(m, Ids(ids)))
            && t.revision == s.revision + |Holding(m, Ids(ids))|
  {
    hide Inv, At, DropLease, ValueAt, Surviving, HoldsKeys, Holding, Ids, NoDup;
    var m := At(log, |log|);
    if ids == [] {
      NoneDropped(s, log);
    } else {
      var init, last := ids[..|ids| - 1], ids[|ids| - 1];
      var mid := DropLeases(s, init);
      var midLog := log + Published(s, mid);
      LastId(ids);
      DropLeasesExactly(s, log, init);
      DropLeasesKeep(s, log, init);
      NowIs(mid, midLog, Surviving(m, Ids(init)));
      DropLeaseExactly(mid, midLog, last);
      SurvivingTwice(m, Ids(init), {last});
      OthersStillHold(m, Ids(init), last);
      HoldingOneMore(m, Ids(init), last);
    }
  }

  lemma {:induction false} NoneDropped(s: State, log: Log)
    requires Inv(s, log)
    ensures ShowsNow(s, Surviving(At(log, |log|), Ids([]))) && Holding(At(log, |log|), Ids([])) == {}
  {
    hide Inv, At, ValueAt;
    var m := At(log, |log|);
    assert Surviving(m, Ids([])) == m;
    forall key ensures ValueAt(s.history, key, s.revision) == Lookup(m, key) {
      InvNow(s, log, key);
    }
  }

  // ----- The lease table -----

  /** Names drop out of the table's order one by one. */
  function OrderWithout(xs: seq<LeaseId>, ids: set<LeaseId>): seq<LeaseId> {
    if xs == [] then []
    else OrderWithout(xs[..|xs| - 1], ids) + if xs[|xs| - 1] in ids then [] else [xs[|xs| - 1]]
  }

  lemma {:induction false} WithoutOneMore(xs: seq<LeaseId>, ids: set<LeaseId>, id: LeaseId)
    ensures Without(OrderWithout(xs, ids), id) == OrderWithout(xs, ids + {id})
  {
    if xs != [] {
      var init, last := xs[..|xs| - 1], xs[|xs| - 1];
      WithoutOneMore(init, ids, id);
      var kept := OrderWithout(init, ids);
      if last !in ids {
        assert (kept + [last])[..|kept|] == kept;
      } else {
        assert kept + [] == kept;
      }
      if last in ids + {id} {
        assert OrderWithout(init, ids + {id}) + [] == OrderWithout(init, ids + {id});
      }
    }
  }

  lemma {:induction false} WithoutNone(xs: seq<LeaseId>)
    ensures OrderWithout(xs, {}) == xs
  {
    if xs != [] {
      WithoutNone(xs[..|xs| - 1]);
    }
  }

  /** Everything about the lease table and the clock that dropping leases decides. */
  ghost predicate TableAfter(s: State, t: State, gone: set<LeaseId>) {
    && t.leases.order == OrderWithout(s.leases.order, gone)
    && t.leases.entries == s.leases.entries - gone
    && t.nextLeaseId == s.nextLeaseId && t.clock == s.clock && t.closed == s.closed
    && t.compactedRevision == s.compactedRevision && t.watchers == s.watchers
  }

  lemma {:induction false} DropLeaseTable(s: State, id: LeaseId)
    ensures var t := DropLease(s, id);
            && t.leases == Pop(s.leases, id)
            && t.nextLeaseId == s.nextLeaseId && t.clock == s.clock && t.closed == s.closed
            && t.compactedRevision == s.compactedRevision && t.watchers == s.watchers
  {
    hide Writes, AppendAll, AttachedKeys, Without, DeliverAll;
  }

  lemma {:induction false} DropLeasesTable(s: State, ids: seq<LeaseId>)
    ensures TableAfter(s, DropLeases(s, ids), Ids(ids))
  {
    hide DropLease, OrderWithout;
    if ids == [] {
      WithoutNone(s.leases.order);
      assert Ids(ids) == {};
    } else {
      var init, last := ids[..|ids| - 1], ids[|ids| - 1];
      DropLeasesTable(s, init);
      DropLeaseTable(DropLeases(s, init), last);
      WithoutOneMore(s.leases.order, Ids(init), last);
      assert ids == init + [last];
      assert Ids(ids) == Ids(init) + {last};
    }
  }
}
