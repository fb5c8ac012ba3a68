/** What `sorted` promises on distinct elements under a strict total order. */
module Sorting {

  ghost predicate StrictTotal<T(!new)>(less: (T, T) -> bool) {
    && (forall x :: !less(x, x))
    && (forall x, y, z :: less(x, y) && less(y, z) ==> less(x, z))
    && (forall x, y :: less(x, y) || x == y || less(y, x))
  }

  ghost predicate Ascending<T>(less: (T, T) -> bool, xs: seq<T>) {
    forall i, j :: 0 <= i < j < |xs| ==> less(xs[i], xs[j])
  }

  ghost predicate NoDup<T>(xs: seq<T>) {
    forall i, j :: 0 <= i < j < |xs| ==> xs[i] != xs[j]
  }

  lemma {:induction false} OccursTwice<T>(xs: seq<T>, i: nat, j: nat)
    requires i < j < |xs| && xs[i] == xs[j]
    ensures multiset(xs)[xs[i]] >= 2
  {
    assert xs == xs[..j] + [xs[j]] + xs[j + 1..];
    assert xs[i] in multiset(xs[..j]) by { assert xs[..j][i] == xs[i]; }
  }

  function Insert<T>(less: (T, T) -> bool, x: T, xs: seq<T>): (r: seq<T>)
    ensures multiset(r) == multiset(xs) + multiset{x}
  {
    if xs == [] then [x]
    else if less(x, xs[0]) then [x] + xs
    else
      assert xs == [xs[0]] + xs[1..];
      [xs[0]] + Insert(less, x, xs[1..])
  }

  function Sorted<T>(less: (T, T) -> bool, xs: seq<T>): (r: seq<T>)
    ensures multiset(r) == multiset(xs)
  {
    if xs == [] then []
    else
      assert xs == [xs[0]] + xs[1..];
      Insert(less, xs[0], Sorted(less, xs[1..]))
  }

  lemma {:induction false} SameMembers<T>(xs: seq<T>, ys: seq<T>)
    requires multiset(xs) == multiset(ys)
    ensures forall x :: x in xs <==> x in ys
  {
    forall x ensures x in xs <==> x in ys {
      assert x in xs <==> x in multiset(xs);
      assert x in ys <==> x in multiset(ys);
    }
  }

  lemma {:induction false} InsertAscends<T(!new)>(less: (T, T) -> bool, x: T, xs: seq<T>)
    requires StrictTotal(less) && Ascending(less, xs) && x !in xs
    ensures Ascending(less, Insert(less, x, xs))
  {
    if xs != [] && !less(x, xs[0]) {
      InsertAscends(less, x, xs[1..]);
      var rest := Insert(less, x, xs[1..]);
      forall j | 0 <= j < |rest| ensures less(xs[0], rest[j]) {
        assert rest[j] in multiset(rest);
        if rest[j] != x {
          assert rest[j] in multiset(xs[1..]);
        }
      }
    }
  }

  lemma {:induction false} SortedAscends<T(!new)>(less: (T, T) -> bool, xs: seq<T>)
    requires StrictTotal(less) && NoDup(xs)
    ensures Ascending(less, Sorted(less, xs))
    ensures forall x :: x in Sorted(less, xs) <==> x in xs
  {
    SameMembers(Sorted(less, xs), xs);
    if xs != [] {
      SortedAscends(less, xs[1..]);
      InsertAscends(less, xs[0], Sorted(less, xs[1..]));
    }
  }

  /** A set has only one ascending enumeration. */
  lemma {:induction false} AscendingUnique<T(!new)>(less: (T, T) -> bool, xs: seq<T>, ys: seq<T>)
    requires StrictTotal(less) && Ascending(less, xs) && Ascending(less, ys)
    requires forall x :: x in xs <==> x in ys
    ensures xs == ys
  {
    assert xs != [] ==> xs[0] in ys;
    assert ys != [] ==> ys[0] in xs;
    if xs != [] {
      assert xs[0] == ys[0];
      forall x ensures x in xs[1..] <==> x in ys[1..] {
        assert x in xs[1..] ==> x in xs && x != xs[0];
        assert x in ys[1..] ==> x in ys && x != ys[0];
        assert x in xs && x != xs[0] ==> x in xs[1..];
        assert x in ys && x != ys[0] ==> x in ys[1..];
      }
      AscendingUnique(less, xs[1..], ys[1..]);
    }
  }

  // ----- Sorting by a key -----

  ghost function Keys<A, B>(key: A -> B, xs: seq<A>): seq<B> {
    seq(|xs|, i requires 0 <= i < |xs| => key(xs[i]))
  }

  lemma {:induction false} KeysCons<A, B>(key: A -> B, x: A, xs: seq<A>)
    ensures Keys(key, [x] + xs) == [key(x)] + Keys(key, xs)
  {}

  lemma {:induction false} InsertCons<T>(less: (T, T) -> bool, x: T, y: T, ys: seq<T>)
    ensures Insert(less, x, [y] + ys) == if less(x, y) then [x] + ([y] + ys) else [y] + Insert(less, x, ys)
  {
    assert ([y] + ys)[1..] == ys;
  }

  lemma {:induction false} InsertByKey<A(!new), B>(
    key: A -> B, less: (A, A) -> bool, below: (B, B) -> bool, x: A, xs: seq<A>)
    requires forall a, b :: less(a, b) == below(key(a), key(b))
    ensures Keys(key, Insert(less, x, xs)) == Insert(below, key(x), Keys(key, xs))
  {
    if xs != [] {
      var y, ys := xs[0], xs[1..];
      assert xs == [y] + ys;
      hide Insert, Keys;
      InsertByKey(key, less, below, x, ys);
      InsertCons(less, x, y, ys);
      InsertCons(below, key(x), key(y), Keys(key, ys));
      KeysCons(key, y, ys);
      KeysCons(key, x, xs);
      KeysCons(key, y, Insert(less, x, ys));
    }
  }

  /** The keys of a list sorted by key are the sorted keys. */
  lemma {:induction false} SortByKey<A(!new), B>(key: A -> B, less: (A, A) -> bool, below: (B, B) -> bool, xs: seq<A>)
    requires forall a, b :: less(a, b) == below(key(a), key(b))
    ensures Keys(key, Sorted(less, xs)) == Sorted(below, Keys(key, xs))
  {
    hide Insert;
    if xs != [] {
      SortByKey(key, less, below, xs[1..]);
      assert Keys(key, xs)[1..] == Keys(key, xs[1..]);
      InsertByKey(key, less, below, xs[0], Sorted(less, xs[1..]));
    }
  }

  lemma {:induction false} AscendingByKey<A(!new), B>(
    key: A -> B, less: (A, A) -> bool, below: (B, B) -> bool, xs: seq<A>)
    requires forall a, b :: less(a, b) == below(key(a), key(b))
    requires Ascending(below, Keys(key, xs))
    ensures Ascending(less, xs)
  {
    forall i, j | 0 <= i < j < |xs| ensures less(xs[i], xs[j]) {
      assert below(Keys(key, xs)[i], Keys(key, xs)[j]);
    }
  }
}
