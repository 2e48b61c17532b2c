/** A store of values under (namespace, key), kept as JSON envelopes at slash-joined paths. */
module LangGraph {
  import opened Basics
  import opened Text
  import opened Ordering
  import opened Objects
  import opened Paths

  type Namespace = seq<string>

  /** One field of a value, as its JSON text. */
  type Json = string

  type Value = map<string, Json>

  type Time = int

  type Distance = d: real | d >= 0.0

  /** What an entry's text decodes to: an envelope of this store, or something else. */
  datatype Body = Envelope(value: Value, created: Option<Time>, updated: Option<Time>) | Foreign

  datatype Item = Item(ns: Namespace, key: string, value: Value, created: Time, updated: Time)

  datatype SearchItem = SearchItem(item: Item, score: Option<real>)

  datatype Failure = ValueError | DecodeError

  const SUFFIX := ".json"

  const NULL: Json := "null"

  // ------------------------------------------------------------------------ path mapping

  predicate ValidAddress(ns: Namespace, key: string) { (forall s | s in ns :: ValidSegment(s)) && ValidSegment(key) }

  function Path(ns: Namespace, key: string): string { Join(ns + [key], '/') + SUFFIX }

  predicate HasSuffix(path: string) { |SUFFIX| <= |path| && path[|path| - |SUFFIX|..] == SUFFIX }

  /** The address a path was made from, if this store could have made it. */
  function SplitPath(path: string): Option<(Namespace, string)> {
    if !HasSuffix(path) then None else
      var parts := Split(path[..|path| - |SUFFIX|], '/');
      if |parts| < 2 then None else Some((parts[..|parts| - 1], parts[|parts| - 1]))
  }

  /** Missing timestamps read as the current time. */
  function Unwrap(ns: Namespace, key: string, body: Body, now: Time): (item: Item)
    requires body.Envelope?
    ensures item.ns == ns && item.key == key && item.value == body.value
    ensures body.created == (if body.created == None then None else Some(item.created)) && (body.created == None ==> item.created == now)
    ensures body.updated == (if body.updated == None then None else Some(item.updated)) && (body.updated == None ==> item.updated == now)
  {
    Item(ns, key, body.value, if body.created.Some? then body.created.value else now,
         if body.updated.Some? then body.updated.value else now)
  }

  // -------------------------------------------------------------------------- operations

  datatype Op =
    | Get(ns: Namespace, key: string, now: Time)
    | Put(ns: Namespace, key: string, value: Value, now: Time)
    | Delete(ns: Namespace, key: string, now: Time)

  type Answer = Option<Item>

  function GetItem(entries: map<string, Body>, ns: Namespace, key: string, now: Time): Result<Option<Item>, Failure> {
    if !ValidAddress(ns, key) then Err(ValueError) else
      var name := Name(Path(ns, key));
      if name !in entries then Ok(None)
      else if entries[name].Foreign? then Err(DecodeError)
      else Ok(Some(Unwrap(ns, key, entries[name], now)))
  }

  class LakekeeperStore {
    var entries: map<string, Body>

    constructor ()
      ensures entries == map[]
    {
      entries := map[];
    }

    method GetOne(ns: Namespace, key: string, now: Time) returns (r: Result<Option<Item>, Failure>)
      ensures r == GetItem(entries, ns, key, now)
    {
      if !ValidAddress(ns, key) {
        return Err(ValueError);
      }
      var name := Name(Path(ns, key));
      if name !in entries {
        return Ok(None);
      }
      if entries[name].Foreign? {
        return Err(DecodeError);
      }
      r := Ok(Some(Unwrap(ns, key, entries[name], now)));
    }

    /** The first write of an entry dates it; later ones keep that date. */
    method PutOne(ns: Namespace, key: string, value: Value, now: Time) returns (r: Result<(), Failure>)
      modifies this
      ensures r == match GetItem(old(entries), ns, key, now) case Ok(_) => Ok(()) case Err(e) => Err(e)
      ensures r.Err? ==> entries == old(entries)
      ensures r.Ok? ==>
                var existing := GetItem(old(entries), ns, key, now).value;
                entries == old(entries)[Name(Path(ns, key)) :=
                  Envelope(value, Some(if existing.Some? then existing.value.created else now), Some(now))]
    {
      var existing := GetOne(ns, key, now);
      if existing.Err? {
        return Err(existing.error);
      }
      var created := if existing.value.Some? then existing.value.value.created else now;
      entries := entries[Name(Path(ns, key)) := Envelope(value, Some(created), Some(now))];
      r := Ok(());
    }

    method DeleteOne(ns: Namespace, key: string) returns (r: Result<(), Failure>)
      modifies this
      ensures r == if ValidAddress(ns, key) then Ok(()) else Err(ValueError)
      ensures entries == if r.Ok? then old(entries) - {Name(Path(ns, key))} else old(entries)
    {
      if !ValidAddress(ns, key) {
        return Err(ValueError);
      }
      entries := entries - {Name(Path(ns, key))};
      r := Ok(());
    }

    /** Runs the operations in order and stops at the first that raises. */
    method Batch(ops: seq<Op>) returns (results: seq<Answer>, failure: Option<Failure>)
      modifies this
      ensures (entries, results, failure) == RunBatch(old(entries), ops)
    {
      results, failure := [], None;
      for i := 0 to |ops|
        invariant (entries, results, None) == RunBatch(old(entries), ops[..i])
      {
        assert ops[..i + 1][..i] == ops[..i];
        ghost var before := entries;
        var raised: Option<Failure> := None;
        var answer: Answer := None;
        match ops[i] {
          case Get(ns, key, now) =>
            var r := GetOne(ns, key, now);
            if r.Err? { raised := Some(r.error); } else { answer := r.value; }
          case Put(ns, key, value, now) =>
            var r := PutOne(ns, key, value, now);
            if r.Err? { raised := Some(r.error); }
          case Delete(ns, key, _) =>
            var r := DeleteOne(ns, key);
            if r.Err? { raised := Some(r.error); }
        }
        assert RunOne(before, ops[i]) == if raised.Some? then Err(raised.value) else Ok((entries, answer));
        if raised.Some? {
          failure := raised;
          StoppedBatch(old(entries), ops, i);
          return;
        }
        results := results + [answer];
      }
      assert ops[..|ops|] == ops;
    }

    /** Whatever a search found, as items: what decodes, fits the filter and is in the window. */
    method Collect(found: seq<Found>, filter: Value, offset: nat, limit: nat, now: Time) returns (items: seq<SearchItem>)
      requires forall i | 0 <= i < |found| && found[i].body == None :: found[i].path in entries
      ensures items == Window(Collected(entries, found, filter, now), offset, limit)
    {
      items := [];
      for i := 0 to |found|
        invariant items == Collected(entries, found[..i], filter, now)
      {
        assert found[..i + 1][..i] == found[..i];
        var split := SplitPath(found[i].path);
        if split == None {
          continue;
        }
        var body := if found[i].body.Some? then found[i].body.value else entries[found[i].path];
        if body.Foreign? {
          continue;
        }
        var item := Unwrap(split.value.0, split.value.1, body, now);
        if !Fits(item.value, filter) {
          continue;
        }
        items := items + [SearchItem(item, Score(found[i].distance))];
      }
      assert found[..|found|] == found;
      items := Window(items, offset, limit);
    }

    /**
     * With a query, `hits` are what the recall table ranked; without one, every listed entry is a
     * candidate. Either way the page is one window of what decodes and fits the filter.
     */
    method Search(prefix: Namespace, hits: Option<seq<Hit>>, filter: Value, offset: nat, limit: nat, now: Time)
      returns (page: seq<SearchItem>)
      ensures hits.Some? ==> page == Window(Collected(entries, Ranked(hits.value, prefix), filter, now), offset, limit)
      ensures hits == None ==>
                exists found :: ListsPaths(found, entries, prefix)
                  && page == Window(Collected(entries, found, filter, now), offset, limit)
    {
      if hits.Some? {
        RankedBodies(hits.value, prefix);
        page := Collect(Ranked(hits.value, prefix), filter, offset, limit, now);
        return;
      }
      var found: seq<Found> := [];
      var left := entries.Keys;
      while left != {}
        invariant left <= entries.Keys
        invariant forall f :: f in found <==> f == Found(f.path, None, None) && f.path in entries && f.path !in left && Listed(f.path, prefix)
        invariant Unrepeated(found)
      {
        var path :| path in left;
        left := left - {path};
        if Listed(path, prefix) {
          found := found + [Found(path, None, None)];
        }
      }
      assert forall i | 0 <= i < |found| :: found[i] in found;
      assert ListsPaths(found, entries, prefix);
      page := Collect(found, filter, offset, limit, now);
    }

    /** The namespaces in use, cut to a depth, that meet every condition: sorted, each once, one page. */
    method ListNamespaces(conditions: seq<Condition>, maxDepth: Option<int>, offset: nat, limit: nat)
      returns (page: seq<Namespace>)
      ensures PageOf(entries, conditions, maxDepth, offset, limit, page)
    {
      var paths := entries.Keys;
      var seen: seq<Namespace> := [];
      while paths != {}
        invariant paths <= entries.Keys
        invariant forall ns :: ns in seen <==> exists path | path in entries && path !in paths ::
                    SplitPath(path).Some? && Cut(SplitPath(path).value.0, maxDepth) == ns
      {
        var path :| path in paths;
        paths := paths - {path};
        var split := SplitPath(path);
        if split.Some? {
          seen := seen + [Cut(split.value.0, maxDepth)];
        }
      }
      var matched: seq<Namespace> := [];
      for i := 0 to |seen|
        invariant forall ns :: ns in matched <==> ns in seen[..i] && Meets(ns, conditions)
      {
        var meets := Matches(seen[i], conditions);
        if meets {
          matched := matched + [seen[i]];
        }
      }
      assert seen[..|seen|] == seen;
      TupleOrder();
      SortDistinct(matched, TupleLe);
      var all := Sort(Distinct(matched), TupleLe);
      assert ListsNamespaces(all, entries, conditions, maxDepth);
      page := Window(all, offset, limit);
    }
  }

  function RunOne(entries: map<string, Body>, op: Op): Result<(map<string, Body>, Answer), Failure> {
    match op
    case Get(ns, key, now) =>
      (match GetItem(entries, ns, key, now) case Ok(item) => Ok((entries, item)) case Err(e) => Err(e))
    case Put(ns, key, value, now) =>
      (match GetItem(entries, ns, key, now)
       case Err(e) => Err(e)
       case Ok(existing) =>
         Ok((entries[Name(Path(ns, key)) :=
               Envelope(value, Some(if existing.Some? then existing.value.created else now), Some(now))], None)))
    case Delete(ns, key, _) =>
      if ValidAddress(ns, key) then Ok((entries - {Name(Path(ns, key))}, None)) else Err(ValueError)
  }

  function RunBatch(entries: map<string, Body>, ops: seq<Op>): (map<string, Body>, seq<Answer>, Option<Failure>) {
    if ops == [] then (entries, [], None) else
      var before := RunBatch(entries, ops[..|ops| - 1]);
      if before.2.Some? then before else
        match RunOne(before.0, ops[|ops| - 1])
        case Err(e) => (before.0, before.1, Some(e))
        case Ok(step) => (step.0, before.1 + [step.1], None)
  }

  /** Nothing after the operation that raised is run. */
  lemma {:induction false} StoppedBatch(entries: map<string, Body>, ops: seq<Op>, i: nat)
    requires i < |ops| && RunBatch(entries, ops[..i + 1]).2.Some?
    ensures RunBatch(entries, ops) == RunBatch(entries, ops[..i + 1])
  {
    if i + 1 == |ops| {
      assert ops[..i + 1] == ops;
    } else {
      var shorter := ops[..|ops| - 1];
      assert shorter[..i + 1] == ops[..i + 1];
      StoppedBatch(entries, shorter, i);
    }
  }

  // ------------------------------------------------------------------------------ search

  /** A path a search came up with; ranked hits bring their text and distance along. */
  datatype Found = Found(path: string, body: Option<Body>, distance: Option<Distance>)

  /** A missing field reads as null. */
  predicate Fits(value: Value, filter: Value) {
    forall k | k in filter :: (if k in value then value[k] else NULL) == filter[k]
  }

  /** Higher is better. */
  function Score(distance: Option<Distance>): Option<real> {
    if distance.Some? then Some(1.0 / (1.0 + distance.value)) else None
  }

  function CollectOne(entries: map<string, Body>, found: Found, filter: Value, now: Time): seq<SearchItem> {
    var split := SplitPath(found.path);
    var body := if found.body.Some? then found.body.value
                else if found.path in entries then entries[found.path] else Foreign;
    if split == None || body.Foreign? then [] else
      var item := Unwrap(split.value.0, split.value.1, body, now);
      if Fits(item.value, filter) then [SearchItem(item, Score(found.distance))] else []
  }

  function Collected(entries: map<string, Body>, found: seq<Found>, filter: Value, now: Time): seq<SearchItem> {
    if found == [] then []
    else Collected(entries, found[..|found| - 1], filter, now) + CollectOne(entries, found[|found| - 1], filter, now)
  }

  lemma {:induction false} CollectedFrom(entries: map<string, Body>, found: seq<Found>, filter: Value, now: Time)
    ensures forall item :: item in Collected(entries, found, filter, now) <==>
              exists f | f in found :: CollectOne(entries, f, filter, now) == [item]
  {
    if found != [] {
      CollectedFrom(entries, found[..|found| - 1], filter, now);
      assert found == found[..|found| - 1] + [found[|found| - 1]];
    }
  }

  /** `items[offset : offset + limit]` */
  function Window<T>(items: seq<T>, offset: nat, limit: nat): seq<T> {
    var from := if offset < |items| then offset else |items|;
    var to := if offset + limit < |items| then offset + limit else |items|;
    items[from..to]
  }

  datatype Hit = Hit(path: string, body: Body, distance: Distance)

  /** The ranked branch keeps the hits under the prefix. */
  function Ranked(hits: seq<Hit>, prefix: Namespace): seq<Found> {
    if hits == [] then [] else
      var joined := Join(prefix, '/');
      var hit := hits[0];
      (if joined == "" || joined + "/" <= hit.path then [Found(hit.path, Some(hit.body), Some(hit.distance))] else [])
      + Ranked(hits[1..], prefix)
  }

  lemma {:induction false} RankedBodies(hits: seq<Hit>, prefix: Namespace)
    ensures forall i | 0 <= i < |Ranked(hits, prefix)| :: Ranked(hits, prefix)[i].body.Some?
  {
    if hits != [] { RankedBodies(hits[1..], prefix); }
  }

  /** The listing branch asks the store for every path that starts with the joined prefix. */
  predicate Listed(path: string, prefix: Namespace) { Name(Join(prefix, '/')) <= path }

  /** Every stored path that is listed under the prefix, each once, in the storage's own order. */
  ghost predicate ListsPaths(found: seq<Found>, entries: map<string, Body>, prefix: Namespace) {
    && (forall f :: f in found <==> f == Found(f.path, None, None) && f.path in entries && Listed(f.path, prefix))
    && Unrepeated(found)
  }

  // -------------------------------------------------------------------- namespace listing

  datatype Condition = Prefix(path: seq<string>) | Suffix(path: seq<string>)

  predicate SegmentMatches(pattern: string, segment: string) { pattern == "*" || pattern == segment }

  /** The segment a condition compares its `i`-th pattern with, counting from the front or the back. */
  function Aligned(ns: Namespace, c: Condition, i: nat): string
    requires i < |c.path| <= |ns|
  {
    if c.Prefix? then ns[i] else ns[|ns| - |c.path| + i]
  }

  predicate Holds(ns: Namespace, c: Condition) {
    |c.path| <= |ns| && forall i | 0 <= i < |c.path| :: SegmentMatches(c.path[i], Aligned(ns, c, i))
  }

  predicate Meets(ns: Namespace, conditions: seq<Condition>) { forall i | 0 <= i < |conditions| :: Holds(ns, conditions[i]) }

  /** `ns[:n]`, where a negative `n` counts from the end. */
  function Take(ns: Namespace, n: int): Namespace {
    if n >= 0 then (if n < |ns| then ns[..n] else ns)
    else if |ns| + n >= 0 then ns[..|ns| + n] else []
  }

  function Cut(ns: Namespace, maxDepth: Option<int>): Namespace {
    if maxDepth.Some? then Take(ns, maxDepth.value) else ns
  }

  ghost predicate InUse(entries: map<string, Body>, maxDepth: Option<int>, ns: Namespace) {
    exists path | path in entries :: SplitPath(path).Some? && Cut(SplitPath(path).value.0, maxDepth) == ns
  }

  /** Sorted, each once: exactly the cut namespaces in use that meet every condition. */
  ghost predicate ListsNamespaces(all: seq<Namespace>, entries: map<string, Body>, conditions: seq<Condition>, maxDepth: Option<int>) {
    && Ascending(all, TupleLe)
    && forall ns :: ns in all <==> Meets(ns, conditions) && InUse(entries, maxDepth, ns)
  }

  /** One window of such a listing. */
  ghost predicate PageOf(entries: map<string, Body>, conditions: seq<Condition>, maxDepth: Option<int>,
                         offset: nat, limit: nat, page: seq<Namespace>) {
    exists all :: ListsNamespaces(all, entries, conditions, maxDepth) && page == Window(all, offset, limit)
  }

  /** One condition as it is checked: cut out the stretch to compare, reject long patterns, compare pairwise. */
  method MatchesOne(ns: Namespace, c: Condition) returns (r: bool)
    ensures r == Holds(ns, c)
  {
    var path := c.path;
    var target :=
      if c.Prefix? then Take(ns, |path|)
      else if path == [] then []
      else if |path| < |ns| then ns[|ns| - |path|..] else ns;
    if |path| > |ns| {
      return false;
    }
    assert |target| == |path|;
    assert forall j | 0 <= j < |path| :: target[j] == Aligned(ns, c, j);
    for i := 0 to |path|
      invariant forall j | 0 <= j < i :: SegmentMatches(path[j], target[j])
    {
      if path[i] != "*" && path[i] != target[i] {
        assert !SegmentMatches(path[i], Aligned(ns, c, i));
        return false;
      }
    }
    r := true;
  }

  method Matches(ns: Namespace, conditions: seq<Condition>) returns (r: bool)
    ensures r == Meets(ns, conditions)
  {
    for i := 0 to |conditions|
      invariant forall j | 0 <= j < i :: Holds(ns, conditions[j])
    {
      var holds := MatchesOne(ns, conditions[i]);
      if !holds {
        return false;
      }
    }
    r := true;
  }
}
