/** Insertion-ordered dictionaries: Python's `dict`, Java's `LinkedHashMap`. */
module Dicts {
  import opened Basics

  /** Keys in the order they first came. */
  type Dict<K, V> = seq<(K, V)>

  ghost predicate DistinctKeys<K, V>(m: Dict<K, V>) { forall i, j | 0 <= i < j < |m| :: m[i].0 != m[j].0 }

  /** The first entry with the key keeps its place and takes the value. */
  function Put<K(==), V>(m: Dict<K, V>, key: K, value: V): Dict<K, V> {
    if m == [] then [(key, value)]
    else if m[0].0 == key then [(key, value)] + m[1..]
    else [m[0]] + Put(m[1..], key, value)
  }

  function Lookup<K(==), V>(m: Dict<K, V>, key: K): Option<V> {
    if m == [] then None else if m[0].0 == key then Some(m[0].1) else Lookup(m[1..], key)
  }

  /** The dictionary without its order. */
  function AsMap<K(==), V>(m: Dict<K, V>): map<K, V> {
    if m == [] then map[] else AsMap(m[..|m| - 1])[m[|m| - 1].0 := m[|m| - 1].1]
  }

  /** `update`: every entry of the second put into the first, in order. */
  function Update<K(==), V>(m: Dict<K, V>, more: Dict<K, V>): Dict<K, V>
    decreases more
  {
    if more == [] then m else Update(Put(m, more[0].0, more[0].1), more[1..])
  }

  lemma {:induction false} PutNew<K, V>(m: Dict<K, V>, key: K, value: V)
    requires forall i | 0 <= i < |m| :: m[i].0 != key
    ensures Put(m, key, value) == m + [(key, value)]
  {
    if m != [] {
      PutNew(m[1..], key, value);
      assert m == [m[0]] + m[1..];
    }
  }

  /** A dictionary is its first entries with the last one put. */
  lemma PutLast<K, V>(m: Dict<K, V>)
    requires m != [] && DistinctKeys(m)
    ensures var n := |m| - 1; DistinctKeys(m[..n]) && Put(m[..n], m[n].0, m[n].1) == m
  {
    var n := |m| - 1;
    PutNew(m[..n], m[n].0, m[n].1);
    assert m == m[..n] + [(m[n].0, m[n].1)];
  }

  lemma {:induction false} LookupPut<K, V>(m: Dict<K, V>, key: K, value: V, k: K)
    ensures Lookup(Put(m, key, value), k) == if k == key then Some(value) else Lookup(m, k)
  {
    if m != [] && m[0].0 != key { LookupPut(m[1..], key, value, k); }
  }

  lemma {:induction false} PutKeys<K, V>(m: Dict<K, V>, key: K, value: V)
    ensures |Put(m, key, value)| >= |m|
    ensures forall p | p in Put(m, key, value) :: p.0 == key || exists i | 0 <= i < |m| :: m[i].0 == p.0
  {
    if m != [] && m[0].0 != key {
      PutKeys(m[1..], key, value);
      assert m == [m[0]] + m[1..];
    }
  }

  lemma {:induction false} PutEntries<K, V>(m: Dict<K, V>, key: K, value: V)
    ensures forall p | p in Put(m, key, value) :: p == (key, value) || p in m
  {
    if m != [] && m[0].0 != key {
      PutEntries(m[1..], key, value);
      assert m == [m[0]] + m[1..];
    }
  }

  lemma {:induction false} PutDistinct<K, V>(m: Dict<K, V>, key: K, value: V)
    requires DistinctKeys(m)
    ensures DistinctKeys(Put(m, key, value))
  {
    if m != [] && m[0].0 != key {
      var rest := Put(m[1..], key, value);
      PutDistinct(m[1..], key, value);
      PutKeys(m[1..], key, value);
      forall j | 0 <= j < |rest| ensures rest[j].0 != m[0].0 { assert rest[j] in rest; }
    }
  }

  /** Later entries win. */
  lemma {:induction false} LookupUpdate<K, V>(m: Dict<K, V>, more: Dict<K, V>, k: K)
    requires DistinctKeys(more)
    ensures Lookup(Update(m, more), k) == if Lookup(more, k).Some? then Lookup(more, k) else Lookup(m, k)
    decreases more
  {
    if more != [] {
      LookupUpdate(Put(m, more[0].0, more[0].1), more[1..], k);
      LookupPut(m, more[0].0, more[0].1, k);
      LookupAbsent(more[1..], more[0].0);
    }
  }

  lemma {:induction false} LookupAbsent<K, V>(m: Dict<K, V>, key: K)
    ensures Lookup(m, key) == None <==> forall i | 0 <= i < |m| :: m[i].0 != key
  {
    if m != [] {
      LookupAbsent(m[1..], key);
      assert m == [m[0]] + m[1..];
    }
  }
}
