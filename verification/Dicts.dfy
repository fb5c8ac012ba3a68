/** Python dictionaries: a finite map that is iterated in insertion order. */
module Dicts {
  import opened Sorting

  datatype RawDict<K(!new), V> = RawDict(order: seq<K>, entries: map<K, V>)

  ghost predicate WellFormed<K(!new), V>(d: RawDict<K, V>) {
    && NoDup(d.order)
    && (forall k :: k in d.order <==> k in d.entries)
  }

  type Dict<!K(!new), V> = d: RawDict<K, V> | WellFormed(d) witness RawDict([], map[])

  /** Assigning to a key keeps its position; a new key goes last. */
  function Set<K(==,!new), V>(d: Dict<K, V>, k: K, v: V): Dict<K, V> {
    RawDict(if k in d.entries then d.order else d.order + [k], d.entries[k := v])
  }

  function Without<K(==,!new)>(xs: seq<K>, k: K): (r: seq<K>)
    ensures forall x :: x in r <==> x in xs && x != k
    ensures NoDup(xs) ==> NoDup(r)
  {
    if xs == [] then []
    else if xs[|xs| - 1] == k then
      assert xs == xs[..|xs| - 1] + [k];
      Without(xs[..|xs| - 1], k)
    else
      var init := xs[..|xs| - 1];
      assert xs == init + [xs[|xs| - 1]];
      assert NoDup(xs) ==> NoDup(init) && xs[|xs| - 1] !in init;
      var kept := Without(init, k);
      assert NoDup(kept) && xs[|xs| - 1] !in kept ==> NoDup(kept + [xs[|xs| - 1]]);
      kept + [xs[|xs| - 1]]
  }

  function Pop<K(==,!new), V>(d: Dict<K, V>, k: K): Dict<K, V> {
    RawDict(Without(d.order, k), d.entries - {k})
  }

  function Get<K(==,!new), V>(d: Dict<K, V>, k: K, default: V): V {
    if k in d.entries then d.entries[k] else default
  }
}
