/**
 * The object store under a table's location: four calls on keys relative to a prefix, over a
 * bucket that other tables share. Objects hold text, which stands for its UTF-8 encoding.
 */
module Objects {
  import opened Basics
  import opened Text

  /** What a key becomes inside the bucket. */
  function FullKey(prefix: string, key: string): string { Base(prefix) + LStrip(key, '/') }

  function Base(prefix: string): string { if prefix == "" then "" else prefix + "/" }

  /** The relative names of the objects under a prefix. */
  function Names(objects: map<string, string>, prefix: string): set<string> {
    set full | full in objects && Base(prefix) <= full :: full[|Base(prefix)|..]
  }

  /** A bucket seen through one table's prefix. */
  function View(objects: map<string, string>, prefix: string): (v: map<string, string>)
    ensures forall k :: k in v <==> (if prefix == "" then "" else prefix + "/") + k in objects
    ensures forall k | k in v :: v[k] == objects[(if prefix == "" then "" else prefix + "/") + k]
  {
    assert forall full | full in objects && Base(prefix) <= full :: full == Base(prefix) + full[|Base(prefix)|..];
    assert forall k :: (Base(prefix) + k)[|Base(prefix)|..] == k;
    map k | k in Names(objects, prefix) :: objects[Base(prefix) + k]
  }

  /** The key modulo leading slashes. */
  function Name(key: string): string { LStrip(key, '/') }

  class Bucket {
    var objects: map<string, string>

    constructor ()
      ensures objects == map[]
    {
      objects := map[];
    }
  }

  class ObjectStore {
    const bucket: Bucket
    const prefix: string

    constructor (bucket: Bucket, prefix: string)
      ensures this.bucket == bucket && this.prefix == prefix
    {
      this.bucket, this.prefix := bucket, prefix;
    }

    function Contents(): map<string, string>
      reads this, bucket
    {
      View(bucket.objects, prefix)
    }

    method Put(key: string, data: string)
      modifies bucket
      ensures Contents() == old(Contents())[Name(key) := data]
      ensures bucket.objects == old(bucket.objects)[(if prefix == "" then "" else prefix + "/") + Name(key) := data]
    {
      bucket.objects := bucket.objects[FullKey(prefix, key) := data];
      PutView(old(bucket.objects), prefix, key, data);
    }

    method Get(key: string) returns (data: Option<string>)
      ensures data == if Name(key) in Contents() then Some(Contents()[Name(key)]) else None
    {
      var full := FullKey(prefix, key);
      data := if full in bucket.objects then Some(bucket.objects[full]) else None;
    }

    method Delete(key: string)
      modifies bucket
      ensures Contents() == old(Contents()) - {Name(key)}
      ensures bucket.objects == old(bucket.objects) - {(if prefix == "" then "" else prefix + "/") + Name(key)}
    {
      bucket.objects := bucket.objects - {FullKey(prefix, key)};
      DeleteView(old(bucket.objects), prefix, key);
    }

    /** `pages` is the bucket's own listing of the full keys that start with the full prefix. */
    method List(within: string, pages: seq<seq<string>>) returns (keys: seq<string>)
      requires IsListing(pages, bucket.objects, FullKey(prefix, within))
      ensures forall k :: k in keys <==> k in Contents() && Name(within) <= k
      ensures forall i, j | 0 <= i < j < |keys| :: keys[i] != keys[j]
    {
      keys := [];
      var cut := |Base(prefix)|;
      for p := 0 to |pages|
        invariant keys == AfterEach(Concat(pages[..p]), cut)
      {
        assert pages[..p + 1][..p] == pages[..p];
        var page := pages[p];
        ghost var before := keys;
        for o := 0 to |page|
          invariant keys == before + AfterEach(page[..o], cut)
        {
          AfterNext(page, o, cut);
          keys := keys + [After(page[o], cut)];
        }
        assert page[..|page|] == page;
        AfterBoth(Concat(pages[..p]), page, cut);
      }
      assert pages[..|pages|] == pages;
      ListedView(Concat(pages), bucket.objects, prefix, within);
    }
  }

  /** `text[cut:]` */
  function After(text: string, cut: nat): string { if cut <= |text| then text[cut..] else "" }

  function AfterEach(texts: seq<string>, cut: nat): seq<string> {
    seq(|texts|, i requires 0 <= i < |texts| => After(texts[i], cut))
  }

  lemma AfterNext(texts: seq<string>, o: nat, cut: nat)
    requires o < |texts|
    ensures AfterEach(texts[..o + 1], cut) == AfterEach(texts[..o], cut) + [After(texts[o], cut)]
  {
  }

  lemma AfterBoth(a: seq<string>, b: seq<string>, cut: nat)
    ensures AfterEach(a + b, cut) == AfterEach(a, cut) + AfterEach(b, cut)
  {
  }

  /** Every object whose key starts with `start`, each once, split into pages. */
  ghost predicate IsListing(pages: seq<seq<string>>, objects: map<string, string>, start: string) {
    var all := Concat(pages);
    && (forall full :: full in all <==> full in objects && start <= full)
    && (forall i, j | 0 <= i < j < |all| :: all[i] != all[j])
  }

  lemma ListedView(all: seq<string>, objects: map<string, string>, prefix: string, within: string)
    requires forall full :: full in all <==> full in objects && FullKey(prefix, within) <= full
    requires forall i, j | 0 <= i < j < |all| :: all[i] != all[j]
    ensures var keys := AfterEach(all, |Base(prefix)|);
            && (forall k :: k in keys <==> k in View(objects, prefix) && Name(within) <= k)
            && forall i, j | 0 <= i < j < |keys| :: keys[i] != keys[j]
  {
    var base := Base(prefix);
    var keys := AfterEach(all, |base|);
    forall i | 0 <= i < |keys| ensures all[i] == base + keys[i] && Name(within) <= keys[i] {
      assert all[i] in all;
    }
    forall k | k in View(objects, prefix) && Name(within) <= k ensures k in keys {
      assert FullKey(prefix, within) <= base + k;
      var i :| 0 <= i < |all| && all[i] == base + k;
      assert keys[i] == k;
    }
    forall k | k in keys ensures k in View(objects, prefix) && Name(within) <= k {
      var i :| 0 <= i < |keys| && keys[i] == k;
      assert all[i] in all;
    }
  }

  lemma PutView(objects: map<string, string>, prefix: string, key: string, data: string)
    ensures View(objects[FullKey(prefix, key) := data], prefix) == View(objects, prefix)[Name(key) := data]
  {
    var base := Base(prefix);
    assert forall k :: base + k == FullKey(prefix, key) <==> k == Name(key) by {
      assert forall k :: (base + k)[|base|..] == k;
    }
  }

  lemma DeleteView(objects: map<string, string>, prefix: string, key: string)
    ensures View(objects - {FullKey(prefix, key)}, prefix) == View(objects, prefix) - {Name(key)}
  {
    var base := Base(prefix);
    assert forall k :: base + k == FullKey(prefix, key) <==> k == Name(key) by {
      assert forall k :: (base + k)[|base|..] == k;
    }
  }

  // --------------------------------------------------------------------- whole runs

  datatype Op = Put(key: string, data: string) | Delete(key: string)

  function Apply(objects: map<string, string>, prefix: string, op: Op): map<string, string> {
    match op
    case Put(key, data) => objects[FullKey(prefix, key) := data]
    case Delete(key) => objects - {FullKey(prefix, key)}
  }

  function ApplyAll(objects: map<string, string>, prefix: string, ops: seq<Op>): map<string, string>
    decreases |ops|
  {
    if ops == [] then objects else ApplyAll(Apply(objects, prefix, ops[0]), prefix, ops[1..])
  }

  /** The same operations on a plain map keyed by names. */
  function MapAll(m: map<string, string>, ops: seq<Op>): map<string, string>
    decreases |ops|
  {
    if ops == [] then m else
      MapAll(match ops[0] case Put(key, data) => m[Name(key) := data] case Delete(key) => m - {Name(key)}, ops[1..])
  }

  /** Through its prefix, a store is a map keyed by names, over any run of writes and deletes. */
  lemma {:induction false} StoreIsMap(objects: map<string, string>, prefix: string, ops: seq<Op>)
    ensures View(ApplyAll(objects, prefix, ops), prefix) == MapAll(View(objects, prefix), ops)
    decreases |ops|
  {
    if ops != [] {
      match ops[0] {
        case Put(key, data) => PutView(objects, prefix, key, data);
        case Delete(key) => DeleteView(objects, prefix, key);
      }
      StoreIsMap(Apply(objects, prefix, ops[0]), prefix, ops[1..]);
    }
  }

  predicate Nested(p: string, q: string) { Base(p) <= Base(q) || Base(q) <= Base(p) }

  /** Prefixes are nested when one is the other's beginning up to a slash: "a" and "ab" are not. */
  lemma NestedIs(p: string, q: string)
    ensures Nested(p, q) <==> p == "" || q == "" || p + "/" <= q + "/" || q + "/" <= p + "/"
  {
  }

  /** Stores that can reach a common object have nested prefixes. */
  lemma SharedMeansNested(p: string, q: string, key: string, k: string)
    requires FullKey(p, key) == Base(q) + k
    ensures Nested(p, q)
  {
    var a, b, full := Base(p), Base(q), FullKey(p, key);
    assert full[..|a|] == a && full[..|b|] == b;
    if |a| <= |b| { assert b[..|a|] == a; } else { assert a[..|b|] == b; }
  }

  /** Nothing done through one store changes what a store with another prefix reads or lists. */
  lemma {:induction false} NonInterference(objects: map<string, string>, p: string, q: string, ops: seq<Op>)
    requires p != "" && q != "" && !(p + "/" <= q + "/") && !(q + "/" <= p + "/")
    ensures View(ApplyAll(objects, p, ops), q) == View(objects, q)
    decreases |ops|
  {
    if ops != [] {
      forall k ensures FullKey(p, ops[0].key) != Base(q) + k {
        if FullKey(p, ops[0].key) == Base(q) + k { SharedMeansNested(p, q, ops[0].key, k); }
      }
      NonInterference(Apply(objects, p, ops[0]), p, q, ops[1..]);
    }
  }
}
