/** The plain map a history shows at a revision, and what listings of a range return of it. */
module Views {
  import opened Wrappers
  import opened Sorting
  import opened ByteStrings
  import opened Backend
  import opened Store

  type Snapshot = map<Bytes, KeyValue>

  function Lookup(m: Snapshot, key: Bytes): Option<KeyValue> {
    if key in m then Some(m[key]) else None
  }

  function View(h: History, r: int): Snapshot {
    map k | k in h.entries && ValueAt(h, k, r).Some? :: ValueAt(h, k, r).value
  }

  lemma {:induction false} ViewShows(h: History, key: Bytes, r: int)
    ensures Lookup(View(h, r), key) == ValueAt(h, key, r)
    ensures ValueAt(h, key, r).Some? ==> ValueAt(h, key, r).value.key == key && key in h.order
  {}

  lemma {:induction false} SameLookups(m: Snapshot, n: Snapshot)
    requires forall k :: Lookup(m, k) == Lookup(n, k)
    ensures m == n
  {
    forall k ensures k in m <==> k in n {
      assert Lookup(m, k) == Lookup(n, k);
    }
    forall k | k in m ensures m[k] == n[k] {
      assert Lookup(m, k) == Lookup(n, k);
    }
  }

  // ----- Reading after appending -----

  /** A version appended to a key's chain is what every read at or above its revision finds; other reads stay. */
  lemma {:induction false} ReadAfterAppend(h: History, w: Write, key: Bytes, r: int)
    ensures ValueAt(Append(h, w), key, r)
         == if key == w.key && w.version.revision <= r then LiveValue(key, Some(w.version)) else ValueAt(h, key, r)
  {
    var chain := Chain(h, w.key) + [w.version];
    assert chain[..|chain| - 1] == Chain(h, w.key);
  }

  /** Writes of a later revision never show in an earlier read: a transaction does not see its own writes. */
  lemma {:induction false} LaterWritesInvisible(h: History, writes: seq<Write>, key: Bytes, r: int)
    requires forall w :: w in writes ==> w.version.revision > r
    ensures ValueAt(AppendAll(h, writes), key, r) == ValueAt(h, key, r)
  {
    if writes != [] {
      var init, last := writes[..|writes| - 1], writes[|writes| - 1];
      LaterWritesInvisible(h, init, key, r);
      ReadAfterAppend(AppendAll(h, init), last, key, r);
    }
  }

  /** Writes to other keys do not change what a key reads as. */
  lemma {:induction false} OtherKeysUntouched(h: History, writes: seq<Write>, key: Bytes, r: int)
    requires forall w :: w in writes ==> w.key != key
    ensures ValueAt(AppendAll(h, writes), key, r) == ValueAt(h, key, r)
  {
    if writes != [] {
      OtherKeysUntouched(h, writes[..|writes| - 1], key, r);
      ReadAfterAppend(AppendAll(h, writes[..|writes| - 1]), writes[|writes| - 1], key, r);
    }
  }

  lemma {:induction false} AppendAllConcat(h: History, a: seq<Write>, b: seq<Write>)
    ensures AppendAll(h, a + b) == AppendAll(AppendAll(h, a), b)
  {
    if b == [] {
      assert a + b == a;
    } else {
      assert (a + b)[..|a + b| - 1] == a + b[..|b| - 1];
      AppendAllConcat(h, a, b[..|b| - 1]);
    }
  }

  // ----- The writes of a sequence of operations -----

  lemma {:induction false} WritesCarryRevision(s: State, ops: seq<Operation>, revision: nat)
    ensures forall w :: w in Writes(s, ops, revision) ==> w.version.revision == revision
  {
    if ops != [] {
      WritesCarryRevision(s, ops[..|ops| - 1], revision);
    }
  }

  lemma {:induction false} NoChangeNoWrites(s: State, ops: seq<Operation>, revision: nat)
    ensures !ChangesData(s, ops) <==> Writes(s, ops, revision) == []
  {
    if ops != [] {
      var init, op := ops[..|ops| - 1], ops[|ops| - 1];
      NoChangeNoWrites(s, init, revision);
      assert forall o :: o in ops <==> o in init || o == op;
      assert OpWrites(s, op, revision) == [] <==> !Changes(s, op);
      assert ChangesData(s, ops) <==> ChangesData(s, init) || Changes(s, op);
    }
  }

  // ----- Listings -----

  lemma {:induction false} KeyOrder()
    ensures StrictTotal(KeyLess)
  {
    forall x: Bytes ensures !KeyLess(x, x) { LessIrreflexive(x); }
    forall x: Bytes, y: Bytes, z: Bytes | KeyLess(x, y) && KeyLess(y, z) ensures KeyLess(x, z) {
      LessTransitive(x, y, z);
    }
    forall x: Bytes, y: Bytes ensures KeyLess(x, y) || x == y || KeyLess(y, x) { LessTotal(x, y); }
  }

  /** `values` enumerates, in ascending key order, exactly what the map holds inside the range. */
  ghost predicate Enumerates(values: seq<KeyValue>, m: Snapshot, start: Bytes, end: Option<Bytes>) {
    && Ascending(KeyLess, KeysOf(values))
    && (forall kv :: kv in values ==> KeyInRange(kv.key, start, end) && Lookup(m, kv.key) == Some(kv))
    && (forall k :: k in m && KeyInRange(k, start, end) ==> m[k].key == k && m[k] in values)
  }

  /** What a listing over `keys` must contain. */
  ghost predicate Collected(
    values: seq<KeyValue>, h: History, keys: seq<Bytes>, start: Bytes, end: Option<Bytes>, r: int)
  {
    && (forall kv :: kv in values ==>
          kv.key in keys && KeyInRange(kv.key, start, end) && ValueAt(h, kv.key, r) == Some(kv))
    && (forall k :: k in keys && KeyInRange(k, start, end) && ValueAt(h, k, r).Some? ==>
          ValueAt(h, k, r).value in values)
  }

  lemma {:induction false} CollectCollects(h: History, keys: seq<Bytes>, start: Bytes, end: Option<Bytes>, r: int)
    ensures Collected(Collect(h, keys, start, end, r), h, keys, start, end, r)
  {
    if keys != [] {
      CollectCollects(h, keys[1..], start, end, r);
      ViewShows(h, keys[0], r);
      assert forall k :: k in keys <==> k == keys[0] || k in keys[1..];
    }
  }

  lemma {:induction false} ConsAscends(first: KeyValue, rest: seq<KeyValue>)
    requires Ascending(KeyLess, KeysOf(rest))
    requires forall kv :: kv in rest ==> KeyLess(first.key, kv.key)
    ensures Ascending(KeyLess, KeysOf([first] + rest))
  {
    var all := KeysOf([first] + rest);
    forall i, j | 0 <= i < j < |all| ensures KeyLess(all[i], all[j]) {
      assert rest[j - 1] in rest;
      if i > 0 {
        assert KeyLess(KeysOf(rest)[i - 1], KeysOf(rest)[j - 1]);
      }
    }
  }

  lemma {:induction false} CollectAscends(h: History, keys: seq<Bytes>, start: Bytes, end: Option<Bytes>, r: int)
    requires Ascending(KeyLess, keys)
    ensures Ascending(KeyLess, KeysOf(Collect(h, keys, start, end, r)))
  {
    if keys != [] {
      CollectAscends(h, keys[1..], start, end, r);
      var rest := Collect(h, keys[1..], start, end, r);
      var value := ValueAt(h, keys[0], r);
      if KeyInRange(keys[0], start, end) && value.Some? {
        forall kv | kv in rest ensures KeyLess(keys[0], kv.key) {
          CollectCollects(h, keys[1..], start, end, r);
          assert kv.key in keys[1..];
        }
        ConsAscends(value.value, rest);
      } else {
        assert [] + rest == rest;
      }
    }
  }

  lemma {:induction false} ListingEnumerates(h: History, start: Bytes, end: Option<Bytes>, r: int)
    ensures Enumerates(Listing(h, start, end, r), View(h, r), start, end)
  {
    KeyOrder();
    SortedAscends(KeyLess, h.order);
    CollectAscends(h, Sorted(KeyLess, h.order), start, end, r);
    CollectCollects(h, Sorted(KeyLess, h.order), start, end, r);
    forall k ensures Lookup(View(h, r), k) == ValueAt(h, k, r) && (ValueAt(h, k, r).Some? ==> k in h.order) {
      ViewShows(h, k, r);
    }
    var m := View(h, r);
    forall k | k in m ensures ValueAt(h, k, r) == Some(m[k]) {
      assert Lookup(m, k) == ValueAt(h, k, r);
    }
  }

  lemma {:induction false} EnumerationKeys(values: seq<KeyValue>, m: Snapshot, start: Bytes, end: Option<Bytes>)
    requires Enumerates(values, m, start, end)
    ensures forall k :: k in KeysOf(values) <==> k in m && KeyInRange(k, start, end)
  {
    forall k ensures k in KeysOf(values) <==> k in m && KeyInRange(k, start, end) {
      if k in KeysOf(values) {
        var i :| 0 <= i < |values| && KeysOf(values)[i] == k;
        assert values[i] in values;
      }
      if k in m && KeyInRange(k, start, end) {
        var i :| 0 <= i < |values| && values[i] == m[k];
        assert KeysOf(values)[i] == k;
      }
    }
  }

  /** A range of a map has one enumeration, so equal maps give equal listings. */
  lemma {:induction false} EnumerationUnique(
    a: seq<KeyValue>, b: seq<KeyValue>, m: Snapshot, start: Bytes, end: Option<Bytes>)
    requires Enumerates(a, m, start, end) && Enumerates(b, m, start, end)
    ensures a == b
  {
    KeyOrder();
    EnumerationKeys(a, m, start, end);
    EnumerationKeys(b, m, start, end);
    AscendingUnique(KeyLess, KeysOf(a), KeysOf(b));
    assert |a| == |KeysOf(a)| == |b|;
    forall i | 0 <= i < |a| ensures a[i] == b[i] {
      assert KeysOf(a)[i] == KeysOf(b)[i];
      assert a[i] in a && b[i] in b;
    }
  }

  /** The page shows the first records of the range in key order, at most `limit`, and where the next ones begin. */
  ghost predicate PageOf(page: RangeResult, m: Snapshot, start: Bytes, end: Option<Bytes>, limit: Option<int>) {
    exists full :: Enumerates(full, m, start, end)
      && page.values <= full
      && |page.values| == (if limit.Some? && limit.value < |full| then limit.value else |full|)
      && (page.more <==> |page.values| < |full|)
      && page.nextKey == if page.more && page.values != [] then Some(page.values[|page.values| - 1].key + [0]) else None
  }

  lemma {:induction false} PageShows(h: History, start: Bytes, end: Option<Bytes>, r: int, limit: Option<int>)
    requires limit.Some? ==> limit.value > 0
    ensures PageOf(Page(Listing(h, start, end, r), r, limit), View(h, r), start, end, limit)
  {
    ListingEnumerates(h, start, end, r);
    hide Enumerates, Listing, View;
  }

  lemma {:induction false} SameView(h: History, g: History, r: int, q: int)
    requires forall k :: ValueAt(h, k, r) == ValueAt(g, k, q)
    ensures View(h, r) == View(g, q)
  {
    forall k ensures Lookup(View(h, r), k) == Lookup(View(g, q), k) {
      ViewShows(h, k, r);
      ViewShows(g, k, q);
    }
    SameLookups(View(h, r), View(g, q));
  }

  lemma {:induction false} SameListing(h: History, g: History, start: Bytes, end: Option<Bytes>, r: int, q: int)
    requires forall k :: ValueAt(h, k, r) == ValueAt(g, k, q)
    ensures Listing(h, start, end, r) == Listing(g, start, end, q)
  {
    SameView(h, g, r, q);
    ListingEnumerates(h, start, end, r);
    ListingEnumerates(g, start, end, q);
    EnumerationUnique(Listing(h, start, end, r), Listing(g, start, end, q), View(h, r), start, end);
  }
}
