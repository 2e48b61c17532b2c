/** Searching several memory scopes and merging by distance, against one search over all of them. */
module Recall {
  import opened Basics
  import opened Ordering

  datatype Hit = Hit(path: string, text: string, distance: real, metadata: map<string, string>, scope: string)

  /** Why a scope may not answer: denied (a 404), or anything else. */
  datatype Access = Readable | Denied | Broken

  /** A scope with all its rows at their distances from the query. */
  datatype Scope = Scope(name: string, rows: seq<Hit>, access: Access)

  predicate Nearer(a: Hit, b: Hit) { a.distance <= b.distance }

  function Min(a: nat, b: nat): nat { if a < b then a else b }

  /** `hits` and `rest` are all the rows, `hits` are as many as asked for, and none of `rest` is nearer. */
  ghost predicate NearestBut(hits: seq<Hit>, rest: seq<Hit>, rows: seq<Hit>, k: nat) {
    && multiset(rows) == multiset(hits + rest)
    && |hits| == Min(k, |rows|)
    && forall x, y | x in hits && y in rest :: x.distance <= y.distance
  }

  /** What a vector search over `rows` returns, in some order. */
  ghost predicate Nearest(hits: seq<Hit>, rows: seq<Hit>, k: nat) {
    exists rest :: NearestBut(hits, rest, rows, k)
  }

  /** All rows of the scopes the caller may read, one after the other. */
  function Union(scopes: seq<Scope>): seq<Hit> {
    if scopes == [] then [] else
      var last := scopes[|scopes| - 1];
      Union(scopes[..|scopes| - 1]) + if last.access.Readable? then last.rows else []
  }

  /** How many hits are at most this far. */
  function Within(hits: seq<Hit>, far: real): nat {
    if hits == [] then 0 else Within(hits[1..], far) + if hits[0].distance <= far then 1 else 0
  }

  /** Each row left out is at least as far as `k` of the hits kept. */
  ghost predicate Covers(hits: seq<Hit>, rest: seq<Hit>, rows: seq<Hit>, k: nat) {
    multiset(rows) == multiset(hits + rest) && forall y | y in rest :: Within(hits, y.distance) >= k
  }

  lemma {:induction false} WithinAppend(a: seq<Hit>, b: seq<Hit>, far: real)
    ensures Within(a + b, far) == Within(a, far) + Within(b, far)
  {
    if a == [] {
      assert a + b == b;
    } else {
      WithinAppend(a[1..], b, far);
      assert (a + b)[1..] == a[1..] + b;
    }
  }

  lemma {:induction false} WithinAll(a: seq<Hit>, far: real)
    requires forall x | x in a :: x.distance <= far
    ensures Within(a, far) == |a|
  {
    if a != [] { WithinAll(a[1..], far); }
  }

  lemma {:induction false} WithinLength(a: seq<Hit>, far: real)
    ensures Within(a, far) <= |a|
  {
    if a != [] { WithinLength(a[1..], far); }
  }

  lemma WithinRemove(t: seq<Hit>, i: nat, far: real)
    requires i < |t|
    ensures Within(t, far) == Within(t[..i] + t[i + 1..], far) + if t[i].distance <= far then 1 else 0
    ensures multiset(t[..i] + t[i + 1..]) == multiset(t) - multiset{t[i]}
  {
    assert t == t[..i] + ([t[i]] + t[i + 1..]);
    WithinAppend(t[..i], [t[i]] + t[i + 1..], far);
    WithinAppend([t[i]], t[i + 1..], far);
    WithinAppend(t[..i], t[i + 1..], far);
  }

  /** Counting does not depend on the order. */
  lemma {:induction false} WithinSame(s: seq<Hit>, t: seq<Hit>, far: real)
    requires multiset(s) == multiset(t)
    ensures Within(s, far) == Within(t, far)
  {
    SameContents(s, t);
    if s != [] {
      assert s[0] in t;
      var i :| 0 <= i < |t| && t[i] == s[0];
      WithinRemove(t, i, far);
      HeadTail(s);
      WithinSame(s[1..], t[..i] + t[i + 1..], far);
    }
  }

  lemma CoverStep(hits: seq<Hit>, rest: seq<Hit>, rows: seq<Hit>, more: seq<Hit>, left: seq<Hit>, moreRows: seq<Hit>, k: nat)
    requires Covers(hits, rest, rows, k) && NearestBut(more, left, moreRows, k)
    ensures Covers(hits + more, rest + left, rows + moreRows, k)
  {
    assert multiset(hits + more + (rest + left)) == multiset(hits + rest) + multiset(more + left);
    assert |moreRows| == |more| + |left| by { SameContents(moreRows, more + left); }
    forall y | y in rest + left ensures Within(hits + more, y.distance) >= k {
      WithinAppend(hits, more, y.distance);
      if y in left { WithinAll(more, y.distance); }
    }
  }

  /** In sorted order the rows within a distance come first. */
  lemma SortedWithin(s: seq<Hit>, j: nat, far: real)
    requires Sorted(s, Nearer) && j < |s| && s[j].distance > far
    ensures Within(s, far) <= j
  {
    assert s == s[..j] + s[j..];
    WithinAppend(s[..j], s[j..], far);
    WithinLength(s[..j], far);
    WithinNone(s[j..], far);
  }

  lemma {:induction false} WithinNone(a: seq<Hit>, far: real)
    requires forall x | x in a :: x.distance > far
    ensures Within(a, far) == 0
  {
    if a != [] { WithinNone(a[1..], far); }
  }

  /** A hit kept after sorting is no farther than a row that `k` hits are within reach of. */
  lemma KeptIsNearer(hits: seq<Hit>, sorted: seq<Hit>, j: nat, far: real, k: nat)
    requires Sorted(sorted, Nearer) && multiset(sorted) == multiset(hits) && j < |sorted| && j < k
    requires Within(hits, far) >= k
    ensures sorted[j].distance <= far
  {
    WithinSame(sorted, hits, far);
    if sorted[j].distance > far { SortedWithin(sorted, j, far); }
  }

  lemma KeptBeforeLeft(hits: seq<Hit>, rest: seq<Hit>, sorted: seq<Hit>, n: nat, k: nat)
    requires Sorted(sorted, Nearer) && multiset(sorted) == multiset(hits) && n <= |sorted| && n <= k
    requires forall y | y in rest :: Within(hits, y.distance) >= k
    ensures forall x, y | x in sorted[..n] && y in sorted[n..] + rest :: x.distance <= y.distance
  {
    forall x, y | x in sorted[..n] && y in sorted[n..] + rest ensures x.distance <= y.distance {
      var j :| 0 <= j < n && sorted[j] == x;
      if y in sorted[n..] {
        var m :| 0 <= m < |sorted[n..]| && sorted[n..][m] == y;
        assert Nearer(sorted[j], sorted[n + m]);
      } else {
        KeptIsNearer(hits, sorted, j, y.distance, k);
      }
    }
  }

  lemma KeptCount(hits: seq<Hit>, rest: seq<Hit>, rows: seq<Hit>, k: nat)
    requires Covers(hits, rest, rows, k)
    ensures Min(k, |hits|) == Min(k, |rows|)
  {
    SameContents(rows, hits + rest);
    if rest != [] {
      assert rest[0] in rest;
      WithinLength(hits, rest[0].distance);
    }
  }

  lemma SplitContents(sorted: seq<Hit>, hits: seq<Hit>, rest: seq<Hit>, n: nat)
    requires multiset(sorted) == multiset(hits) && n <= |sorted|
    ensures multiset(sorted[..n] + (sorted[n..] + rest)) == multiset(hits + rest)
  {
    assert sorted == sorted[..n] + sorted[n..];
  }

  /** The first `k` of the merged hits are the nearest of all rows. */
  lemma MergedNearest(hits: seq<Hit>, rest: seq<Hit>, rows: seq<Hit>, k: nat)
    requires Covers(hits, rest, rows, k)
    ensures var sorted := Sort(hits, Nearer);
            |sorted| == |hits| && Sorted(sorted[..Min(k, |hits|)], Nearer) && Nearest(sorted[..Min(k, |hits|)], rows, k)
  {
    var sorted := Sort(hits, Nearer);
    var n := Min(k, |hits|);
    SortSorts(hits, Nearer);
    SortContents(hits, Nearer);
    SameContents(sorted, hits);
    KeptCount(hits, rest, rows, k);
    KeptBeforeLeft(hits, rest, sorted, n, k);
    SplitContents(sorted, hits, rest, n);
    FoundNearest(sorted[..n], sorted[n..] + rest, rows, k);
  }

  lemma FoundNearest(hits: seq<Hit>, rest: seq<Hit>, rows: seq<Hit>, k: nat)
    requires NearestBut(hits, rest, rows, k)
    ensures Nearest(hits, rows, k)
  {
  }

  /** Every readable scope answers with its own nearest rows. */
  ghost predicate EachNearest(scopes: seq<Scope>, answers: seq<seq<Hit>>, k: nat)
    requires |answers| == |scopes|
  {
    forall i | 0 <= i < |scopes| && scopes[i].access.Readable? :: Nearest(answers[i], scopes[i].rows, k)
  }

  /** The hits of the first `i` scopes leave out no row of theirs that could be among the nearest. */
  ghost predicate Gathered(hits: seq<Hit>, scopes: seq<Scope>, i: nat, k: nat)
    requires i <= |scopes|
  {
    exists rest :: Covers(hits, rest, Union(scopes[..i]), k)
  }

  lemma Gathers(hits: seq<Hit>, rest: seq<Hit>, scopes: seq<Scope>, i: nat, k: nat)
    requires i <= |scopes| && Covers(hits, rest, Union(scopes[..i]), k)
    ensures Gathered(hits, scopes, i, k)
  {
  }

  lemma GatherNone(scopes: seq<Scope>, k: nat)
    ensures Gathered([], scopes, 0, k)
  {
    assert scopes[..0] == [];
    Gathers([], [], scopes, 0, k);
  }

  lemma GatherSkip(hits: seq<Hit>, scopes: seq<Scope>, i: nat, k: nat)
    requires i < |scopes| && !scopes[i].access.Readable? && Gathered(hits, scopes, i, k)
    ensures Gathered(hits, scopes, i + 1, k)
  {
    assert scopes[..i + 1][..i] == scopes[..i];
    assert Union(scopes[..i + 1]) == Union(scopes[..i]);
  }

  lemma GatherMore(hits: seq<Hit>, scopes: seq<Scope>, answers: seq<seq<Hit>>, i: nat, k: nat)
    requires |answers| == |scopes| && EachNearest(scopes, answers, k) && i < |scopes| && scopes[i].access.Readable?
    requires Gathered(hits, scopes, i, k)
    ensures Gathered(hits + answers[i], scopes, i + 1, k)
  {
    var rest :| Covers(hits, rest, Union(scopes[..i]), k);
    var left :| NearestBut(answers[i], left, scopes[i].rows, k);
    CoverStep(hits, rest, Union(scopes[..i]), answers[i], left, scopes[i].rows, k);
    assert scopes[..i + 1][..i] == scopes[..i];
    assert Union(scopes[..i + 1]) == Union(scopes[..i]) + scopes[i].rows;
    Gathers(hits + answers[i], rest + left, scopes, i + 1, k);
  }

  /** Sorted and cut to `k`, the hits of all scopes are the nearest of all rows. */
  lemma GatherDone(hits: seq<Hit>, scopes: seq<Scope>, k: nat)
    requires Gathered(hits, scopes, |scopes|, k)
    ensures var sorted := Sort(hits, Nearer);
            |sorted| == |hits| && Sorted(sorted[..Min(k, |hits|)], Nearer) && Nearest(sorted[..Min(k, |hits|)], Union(scopes), k)
  {
    var rest :| Covers(hits, rest, Union(scopes[..|scopes|]), k);
    assert scopes[..|scopes|] == scopes;
    MergedNearest(hits, rest, Union(scopes), k);
  }

  /**
   * Search every scope, skip the denied ones, merge by distance and keep `k`. `answers` are what
   * each scope's own search returns.
   */
  method SearchMany(scopes: seq<Scope>, answers: seq<seq<Hit>>, k: nat) returns (r: Result<seq<Hit>, ()>)
    requires |answers| == |scopes| && EachNearest(scopes, answers, k)
    ensures r.Err? <==> exists i | 0 <= i < |scopes| :: scopes[i].access.Broken?
    ensures r.Ok? ==> Sorted(r.value, Nearer) && Nearest(r.value, Union(scopes), k)
  {
    var hits := [];
    GatherNone(scopes, k);
    for i := 0 to |scopes|
      invariant forall j | 0 <= j < i :: !scopes[j].access.Broken?
      invariant Gathered(hits, scopes, i, k)
    {
      if scopes[i].access.Broken? {
        return Err(());
      }
      if scopes[i].access.Denied? {
        GatherSkip(hits, scopes, i, k);
        continue;
      }
      GatherMore(hits, scopes, answers, i, k);
      hits := hits + answers[i];
    }
    GatherDone(hits, scopes, k);
    r := Ok(Sort(hits, Nearer)[..Min(k, |hits|)]);
  }

  // ----------------------------------------------------------- what the distances must be

  function Distances(hits: seq<Hit>): seq<real> { seq(|hits|, i requires 0 <= i < |hits| => hits[i].distance) }

  predicate RealLe(a: real, b: real) { a <= b }

  /** The `k` smallest distances of all rows, in order. */
  function Smallest(rows: seq<Hit>, k: nat): seq<real> {
    var sorted := Sort(Distances(rows), RealLe);
    if k < |sorted| then sorted[..k] else sorted
  }

  lemma DistancesAppend(a: seq<Hit>, b: seq<Hit>)
    ensures Distances(a + b) == Distances(a) + Distances(b)
  {
  }

  lemma DistancesRemove(t: seq<Hit>, i: nat)
    requires i < |t|
    ensures multiset(Distances(t)) == multiset{t[i].distance} + multiset(Distances(t[..i] + t[i + 1..]))
  {
    assert t == t[..i] + ([t[i]] + t[i + 1..]);
    DistancesAppend(t[..i], [t[i]] + t[i + 1..]);
    DistancesAppend([t[i]], t[i + 1..]);
    DistancesAppend(t[..i], t[i + 1..]);
    assert Distances([t[i]]) == [t[i].distance];
  }

  lemma DistancesHead(s: seq<Hit>)
    requires s != []
    ensures multiset(Distances(s)) == multiset{s[0].distance} + multiset(Distances(s[1..]))
  {
    DistancesAppend([s[0]], s[1..]);
    assert s == [s[0]] + s[1..];
    assert Distances([s[0]]) == [s[0].distance];
  }

  lemma {:induction false} DistancesSame(s: seq<Hit>, t: seq<Hit>)
    requires multiset(s) == multiset(t)
    ensures multiset(Distances(s)) == multiset(Distances(t))
  {
    SameContents(s, t);
    if s != [] {
      assert s[0] in t;
      var i :| 0 <= i < |t| && t[i] == s[0];
      WithinRemove(t, i, 0.0);
      HeadTail(s);
      DistancesSame(s[1..], t[..i] + t[i + 1..]);
      DistancesRemove(t, i);
      DistancesHead(s);
    } else {
      assert t == [];
    }
  }

  /**
   * Any sorted list of nearest rows has exactly the `k` smallest distances, so the fan-out and a
   * single search over one table holding every readable row give the same distances.
   */
  lemma NearestDistances(hits: seq<Hit>, rows: seq<Hit>, k: nat)
    requires Sorted(hits, Nearer) && Nearest(hits, rows, k)
    ensures Distances(hits) == Smallest(rows, k)
  {
    var rest :| NearestBut(hits, rest, rows, k);
    var tail := Sort(Distances(rest), RealLe);
    var sorted := Sort(Distances(rows), RealLe);
    DistancesSame(rows, hits + rest);
    assert Distances(hits + rest) == Distances(hits) + Distances(rest);
    SortContents(Distances(rest), RealLe);
    SortContents(Distances(rows), RealLe);
    SortSorts(Distances(rows), RealLe);
    HitsThenTail(hits, rest);
    SortedUnique(Distances(hits) + tail, sorted, RealLe);
    SameContents(rows, hits + rest);
    SameContents(tail, Distances(rest));
  }

  lemma HitsThenTail(hits: seq<Hit>, rest: seq<Hit>)
    requires Sorted(hits, Nearer)
    requires forall x, y | x in hits && y in rest :: x.distance <= y.distance
    ensures Sorted(Distances(hits) + Sort(Distances(rest), RealLe), RealLe)
  {
    var tail := Sort(Distances(rest), RealLe);
    var all := Distances(hits) + tail;
    SortContents(Distances(rest), RealLe);
    SortSorts(Distances(rest), RealLe);
    SameContents(tail, Distances(rest));
    forall i, j | 0 <= i < |hits| && 0 <= j < |tail| ensures hits[i].distance <= tail[j] {
      assert tail[j] in Distances(rest);
      var m :| 0 <= m < |rest| && Distances(rest)[m] == tail[j];
      assert hits[i] in hits && rest[m] in rest;
    }
    forall i, j | 0 <= i < j < |all| ensures all[i] <= all[j] {
      if j < |hits| {
        assert Nearer(hits[i], hits[j]);
      } else if i >= |hits| {
        assert RealLe(tail[i - |hits|], tail[j - |hits|]);
      }
    }
  }

  lemma HitInScope(scopes: seq<Scope>, hits: seq<Hit>, k: nat, hit: Hit)
    requires Nearest(hits, Union(scopes), k) && hit in hits
    ensures exists i | 0 <= i < |scopes| :: scopes[i].access.Readable? && hit in scopes[i].rows
  {
    var rest :| NearestBut(hits, rest, Union(scopes), k);
    SameContents(Union(scopes), hits + rest);
    assert hit in hits + rest;
    UnionMember(scopes, hit);
  }

  /** Every hit is a row of the scope it names. */
  lemma HitsFromTheirScope(scopes: seq<Scope>, hits: seq<Hit>, k: nat)
    requires Nearest(hits, Union(scopes), k)
    requires forall i | 0 <= i < |scopes| :: forall row | row in scopes[i].rows :: row.scope == scopes[i].name
    ensures forall hit | hit in hits ::
              exists i | 0 <= i < |scopes| :: scopes[i].access.Readable? && scopes[i].name == hit.scope && hit in scopes[i].rows
  {
    forall hit | hit in hits
      ensures exists i | 0 <= i < |scopes| :: scopes[i].access.Readable? && scopes[i].name == hit.scope && hit in scopes[i].rows
    {
      HitInScope(scopes, hits, k, hit);
    }
  }

  lemma {:induction false} UnionMember(scopes: seq<Scope>, hit: Hit)
    requires hit in Union(scopes)
    ensures exists i | 0 <= i < |scopes| :: scopes[i].access.Readable? && hit in scopes[i].rows
  {
    var n := |scopes| - 1;
    if hit in Union(scopes[..n]) {
      UnionMember(scopes[..n], hit);
      var i :| 0 <= i < n && scopes[..n][i].access.Readable? && hit in scopes[..n][i].rows;
      assert scopes[i] == scopes[..n][i];
    }
  }
}
