/** The LangGraph store is a map over histories, and its prefixes are namespace prefixes. */
module LangGraphProofs {
  import opened Basics
  import opened Text
  import opened Ordering
  import opened Paths
  import opened LangGraph

  // ----------------------------------------------------------------- paths and addresses

  lemma ValidFree(ns: Namespace, key: string)
    requires ValidAddress(ns, key)
    ensures SlashFree(ns + [key])
  {
  }

  /** Addresses are refused exactly for an empty segment or key, or one with a slash. */
  lemma AddressIs(ns: Namespace, key: string)
    ensures ValidAddress(ns, key) <==> forall s | s in ns + [key] :: s != "" && '/' !in s
  {
    assert (ns + [key])[|ns|] == key;
    forall s | s in ns ensures s in ns + [key] {}
  }

  /** The path of an address: its segments and its key below each other. */
  lemma PathIs(ns: Namespace, key: string)
    ensures Path([], key) == key + ".json"
    ensures ns != [] ==> Path(ns, key) == ns[0] + "/" + Path(ns[1..], key)
  {
    if ns != [] {
      assert ns + [key] == [ns[0]] + (ns[1..] + [key]);
      JoinCons(ns[0], ns[1..] + [key], '/');
      assert Join(ns + [key], '/') + SUFFIX == ns[0] + "/" + (Join(ns[1..] + [key], '/') + SUFFIX);
    }
  }

  /** Different addresses have different paths. */
  lemma PathInjective(ns: Namespace, key: string, ns': Namespace, key': string)
    requires ValidAddress(ns, key) && ValidAddress(ns', key') && Path(ns, key) == Path(ns', key')
    ensures ns == ns' && key == key'
  {
    var a, b := ns + [key], ns' + [key'];
    ValidFree(ns, key);
    ValidFree(ns', key');
    var path := Path(ns, key);
    assert path[..|path| - |SUFFIX|] == Join(a, '/') && path[..|path| - |SUFFIX|] == Join(b, '/');
    SplitJoinFree(a, '/');
    SplitJoinFree(b, '/');
    assert a[|a| - 1] == key && b[|b| - 1] == key' && a[..|a| - 1] == ns && b[..|b| - 1] == ns';
  }

  /** Paths need no normalising. */
  lemma PathName(ns: Namespace, key: string)
    requires ValidAddress(ns, key)
    ensures Objects.Name(Path(ns, key)) == Path(ns, key)
  {
    var parts := ns + [key];
    assert ValidSegment(parts[0]) by { if ns != [] { assert parts[0] == ns[0] && ns[0] in ns; } }
    assert parts[0][0] in parts[0];
    assert Join(parts, '/')[0] == parts[0][0];
  }

  /** Splitting a path gives its address back exactly when the namespace is not empty. */
  lemma SplitPathInverse(ns: Namespace, key: string)
    requires SlashFree(ns + [key])
    ensures SplitPath(Path(ns, key)) == Some((ns, key)) <==> ns != []
  {
    var parts := ns + [key];
    var path := Path(ns, key);
    assert path[..|path| - |SUFFIX|] == Join(parts, '/') && path[|path| - |SUFFIX|..] == SUFFIX;
    SplitJoinFree(parts, '/');
    assert parts[..|parts| - 1] == ns;
  }

  lemma LastApart(parts: seq<string>)
    requires parts != []
    ensures parts[..|parts| - 1] + [parts[|parts| - 1]] == parts
  {
  }

  lemma StemApart(path: string)
    requires HasSuffix(path)
    ensures path[..|path| - |SUFFIX|] + SUFFIX == path
  {
  }

  /** And any path that splits is the path of what it splits into, whose parts have no slash. */
  lemma PathOfSplit(path: string)
    requires SplitPath(path).Some?
    ensures var (ns, key) := SplitPath(path).value; Path(ns, key) == path && SlashFree(ns + [key]) && ns != []
  {
    var stem := path[..|path| - |SUFFIX|];
    StemApart(path);
    LastApart(Split(stem, '/'));
    JoinSplit(stem, '/');
    SplitFree(stem, '/');
  }

  /** What a get gives: an error for a bad address or a foreign text, a miss exactly when nothing is stored. */
  lemma GetItemIs(entries: map<string, Body>, ns: Namespace, key: string, now: Time)
    ensures GetItem(entries, ns, key, now) == Err(ValueError) <==> exists s | s in ns + [key] :: s == "" || '/' in s
    ensures ValidAddress(ns, key) ==>
              && (GetItem(entries, ns, key, now) == Ok(None) <==> Path(ns, key) !in entries)
              && (GetItem(entries, ns, key, now) == Err(DecodeError) <==> Path(ns, key) in entries && entries[Path(ns, key)] == Foreign)
  {
    AddressIs(ns, key);
    if ValidAddress(ns, key) { PathName(ns, key); }
  }

  // ----------------------------------------------------------------- the map of histories

  predicate Touches(op: Op, ns: Namespace, key: string) { !op.Get? && op.ns == ns && op.key == key }

  predicate Puts(op: Op, ns: Namespace, key: string) { op.Put? && op.ns == ns && op.key == key }

  /** The entry under an address after a history, as a map would have it. */
  function MapItem(ops: seq<Op>, ns: Namespace, key: string): Option<Item> {
    if ops == [] then None else
      var before := MapItem(ops[..|ops| - 1], ns, key);
      var last := ops[|ops| - 1];
      if !Touches(last, ns, key) then before
      else match last
           case Put(_, _, value, now) =>
             Some(Item(ns, key, value, if before.Some? then before.value.created else now, now))
           case _ => None
  }

  /**
   * The same, read off the history: `last` is the last operation on the address and a write;
   * `first` is the first write since the last delete, and dates the entry.
   */
  predicate IsCurrent(ops: seq<Op>, ns: Namespace, key: string, item: Item, first: nat, last: nat) {
    && first <= last < |ops| && Puts(ops[first], ns, key) && Puts(ops[last], ns, key)
    && (forall k | last < k < |ops| :: !Touches(ops[k], ns, key))
    && (forall k | first <= k <= last && Touches(ops[k], ns, key) :: ops[k].Put?)
    && Fresh(ops, ns, key, first)
    && item == Item(ns, key, ops[last].value, ops[first].now, ops[last].now)
  }

  /** Before position `i` the address is unused or was last deleted. */
  predicate Fresh(ops: seq<Op>, ns: Namespace, key: string, i: nat)
    requires i <= |ops|
  {
    i == 0 || (if Touches(ops[i - 1], ns, key) then ops[i - 1].Delete? else Fresh(ops, ns, key, i - 1))
  }

  lemma {:induction false} FreshPrefix(ops: seq<Op>, ns: Namespace, key: string, i: nat)
    requires i < |ops|
    ensures Fresh(ops, ns, key, i) == Fresh(ops[..|ops| - 1], ns, key, i)
  {
    if i > 0 { FreshPrefix(ops, ns, key, i - 1); }
  }

  lemma {:induction false} FreshNone(ops: seq<Op>, ns: Namespace, key: string)
    ensures Fresh(ops, ns, key, |ops|) <==> MapItem(ops, ns, key) == None
  {
    if ops != [] {
      var n := |ops| - 1;
      FreshNone(ops[..n], ns, key);
      FreshPrefix(ops, ns, key, n);
    }
  }

  /** What the map holds is what the history says: `created` and `updated` are the dates promised. */
  lemma {:induction false} MapItemIs(ops: seq<Op>, ns: Namespace, key: string) returns (first: nat, last: nat)
    requires MapItem(ops, ns, key).Some?
    ensures IsCurrent(ops, ns, key, MapItem(ops, ns, key).value, first, last)
  {
    var n := |ops| - 1;
    var before := ops[..n];
    if !Touches(ops[n], ns, key) {
      first, last := MapItemIs(before, ns, key);
      FreshPrefix(ops, ns, key, first);
    } else if MapItem(before, ns, key).Some? {
      first, last := MapItemIs(before, ns, key);
      FreshPrefix(ops, ns, key, first);
      last := n;
    } else {
      FreshNone(before, ns, key);
      FreshPrefix(ops, ns, key, n);
      first, last := n, n;
    }
  }

  /** The entries hold exactly the history's map, under the paths of valid addresses. */
  ghost predicate Refines(entries: map<string, Body>, ops: seq<Op>) {
    forall ns, key | ValidAddress(ns, key) :: HoldsItem(entries, ns, key, MapItem(ops, ns, key))
  }

  predicate HoldsItem(entries: map<string, Body>, ns: Namespace, key: string, item: Option<Item>) {
    var name := Objects.Name(Path(ns, key));
    if item == None then name !in entries
    else name in entries && entries[name] == Envelope(item.value.value, Some(item.value.created), Some(item.value.updated))
  }

  predicate ValidOp(op: Op) { ValidAddress(op.ns, op.key) }

  lemma {:induction false} MapItemAddress(ops: seq<Op>, ns: Namespace, key: string)
    ensures MapItem(ops, ns, key).Some? ==> MapItem(ops, ns, key).value.ns == ns && MapItem(ops, ns, key).value.key == key
  {
    if ops != [] { MapItemAddress(ops[..|ops| - 1], ns, key); }
  }

  lemma StepElsewhere(entries: map<string, Body>, op: Op, ns: Namespace, key: string)
    requires ValidOp(op) && ValidAddress(ns, key) && RunOne(entries, op).Ok? && !Touches(op, ns, key)
    ensures var name := Objects.Name(Path(ns, key));
            var after := RunOne(entries, op).value.0;
            (name in after <==> name in entries) && (name in entries ==> after[name] == entries[name])
  {
    PathName(ns, key);
    PathName(op.ns, op.key);
    if Path(ns, key) == Path(op.ns, op.key) { PathInjective(ns, key, op.ns, op.key); }
  }

  /** One valid operation answers like the map, and keeps the entries equal to it. */
  lemma StepRefines(entries: map<string, Body>, ops: seq<Op>, op: Op)
    requires Refines(entries, ops) && ValidOp(op)
    ensures RunOne(entries, op).Ok?
    ensures Refines(RunOne(entries, op).value.0, ops + [op])
    ensures RunOne(entries, op).value.1 == if op.Get? then MapItem(ops, op.ns, op.key) else None
  {
    assert HoldsItem(entries, op.ns, op.key, MapItem(ops, op.ns, op.key));
    MapItemAddress(ops, op.ns, op.key);
    assert (ops + [op])[..|ops|] == ops;
    var after := RunOne(entries, op).value.0;
    forall ns, key | ValidAddress(ns, key) ensures HoldsItem(after, ns, key, MapItem(ops + [op], ns, key)) {
      assert HoldsItem(entries, ns, key, MapItem(ops, ns, key));
      if !Touches(op, ns, key) { StepElsewhere(entries, op, ns, key); }
    }
  }

  /** What a map with a history gives for operation `i` of the operations that follow. */
  function Expected(past: seq<Op>, ops: seq<Op>, i: nat): Answer
    requires i < |ops|
  {
    if ops[i].Get? then MapItem(past + ops[..i], ops[i].ns, ops[i].key) else None
  }

  lemma BatchAppend(entries: map<string, Body>, before: seq<Op>, op: Op)
    requires RunBatch(entries, before).2 == None && RunOne(RunBatch(entries, before).0, op).Ok?
    ensures var (left, answers, _) := RunBatch(entries, before);
            var step := RunOne(left, op).value;
            RunBatch(entries, before + [op]) == (step.0, answers + [step.1], None)
  {
    assert (before + [op])[..|before|] == before;
  }

  /** Each of the answers is the map's, and so are the entries left. */
  ghost predicate AnswersAsMap(past: seq<Op>, ops: seq<Op>, entries: map<string, Body>, answers: seq<Answer>) {
    && Refines(entries, past + ops)
    && |answers| == |ops| && forall i | 0 <= i < |ops| :: answers[i] == Expected(past, ops, i)
  }

  lemma AnswersAppend(past: seq<Op>, ops: seq<Op>, op: Op, entries: map<string, Body>, answers: seq<Answer>,
                      after: map<string, Body>, answer: Answer)
    requires AnswersAsMap(past, ops, entries, answers) && Refines(after, past + ops + [op])
    requires answer == if op.Get? then MapItem(past + ops, op.ns, op.key) else None
    ensures AnswersAsMap(past, ops + [op], after, answers + [answer])
  {
    var longer := ops + [op];
    assert past + longer == past + ops + [op];
    forall i | 0 <= i < |longer| ensures (answers + [answer])[i] == Expected(past, longer, i) {
      assert longer[..i] == ops[..i];
      if i == |ops| { assert ops[..i] == ops; }
    }
  }

  lemma {:induction false} ValidBatchRefines(entries: map<string, Body>, past: seq<Op>, ops: seq<Op>)
    requires Refines(entries, past) && forall op | op in ops :: ValidOp(op)
    ensures var (left, answers, failure) := RunBatch(entries, ops);
            failure == None && AnswersAsMap(past, ops, left, answers)
  {
    if ops == [] {
      assert past + ops == past;
    } else {
      var n := |ops| - 1;
      var before, last := ops[..n], ops[n];
      assert last in ops && ops == before + [last];
      ValidBatchRefines(entries, past, before);
      var (left, answers, _) := RunBatch(entries, before);
      StepRefines(left, past + before, last);
      BatchAppend(entries, before, last);
      var step := RunOne(left, last).value;
      AnswersAppend(past, before, last, left, answers, step.0, step.1);
    }
  }

  lemma {:induction false} InvalidStops(entries: map<string, Body>, ops: seq<Op>, i: nat)
    requires i < |ops| && !ValidOp(ops[i]) && RunBatch(entries, ops[..i]).2 == None
    ensures RunBatch(entries, ops) == (RunBatch(entries, ops[..i]).0, RunBatch(entries, ops[..i]).1, Some(ValueError))
  {
    assert ops[..i + 1][..i] == ops[..i];
    StoppedBatch(entries, ops, i);
  }

  /** The first `stop` operations have valid addresses, and the next, if any, has not. */
  ghost predicate FirstInvalid(ops: seq<Op>, stop: nat) {
    && stop <= |ops| && (forall op | op in ops[..stop] :: ValidOp(op))
    && (stop < |ops| ==> !ValidOp(ops[stop]))
  }

  /**
   * A batch on a store with any history, whatever its operations: up to the first invalid address
   * every get is answered as by a map from (namespace, key) with that history, the entries left
   * are that map's, and the batch raises exactly if there is an invalid address.
   */
  lemma BatchIsMap(entries: map<string, Body>, past: seq<Op>, ops: seq<Op>, stop: nat)
    requires Refines(entries, past) && FirstInvalid(ops, stop)
    ensures var (left, answers, failure) := RunBatch(entries, ops);
            AnswersAsMap(past, ops[..stop], left, answers) && failure == if stop < |ops| then Some(ValueError) else None
  {
    ValidBatchRefines(entries, past, ops[..stop]);
    if stop < |ops| {
      InvalidStops(entries, ops, stop);
    } else {
      assert ops[..stop] == ops;
    }
  }

  /** What a batch gets done: the operations before its first invalid address. */
  function Done(ops: seq<Op>): seq<Op> {
    if ops == [] || !ValidOp(ops[0]) then [] else [ops[0]] + Done(ops[1..])
  }

  lemma {:induction false} DoneStops(ops: seq<Op>)
    ensures FirstInvalid(ops, |Done(ops)|) && Done(ops) == ops[..|Done(ops)|]
  {
    if ops != [] && ValidOp(ops[0]) {
      DoneStops(ops[1..]);
      var n := |Done(ops[1..])|;
      assert ops[..n + 1] == [ops[0]] + ops[1..][..n];
    }
  }

  function RunBatches(entries: map<string, Body>, batches: seq<seq<Op>>): map<string, Body> {
    if batches == [] then entries else
      RunBatch(RunBatches(entries, batches[..|batches| - 1]), batches[|batches| - 1]).0
  }

  /** What some batches get done, one after the other. */
  function History(batches: seq<seq<Op>>): seq<Op> {
    if batches == [] then [] else History(batches[..|batches| - 1]) + Done(batches[|batches| - 1])
  }

  /** A new store after any batches, failed ones included, holds the map of all that got done. */
  lemma {:induction false} BatchesAreMap(batches: seq<seq<Op>>)
    ensures Refines(RunBatches(map[], batches), History(batches))
  {
    if batches != [] {
      var before, last := batches[..|batches| - 1], batches[|batches| - 1];
      BatchesAreMap(before);
      DoneStops(last);
      BatchIsMap(RunBatches(map[], before), History(before), last, |Done(last)|);
    }
  }

  // ------------------------------------------------------------------------------ search

  lemma {:induction false} PathParts(ns: Namespace, key: string)
    ensures Path(ns, key) == Join(ns + [key + SUFFIX], '/')
  {
    if ns != [] {
      PathParts(ns[1..], key);
      assert (ns + [key])[1..] == ns[1..] + [key] && (ns + [key + SUFFIX])[1..] == ns[1..] + [key + SUFFIX];
    }
  }

  predicate ValidPrefix(prefix: Namespace) { forall s | s in prefix :: ValidSegment(s) }

  lemma FreeParts(ns: Namespace, key: string)
    requires SlashFree(ns + [key])
    ensures SlashFree(ns + [key + SUFFIX])
  {
    assert '/' !in SUFFIX;
    assert (ns + [key])[|ns|] == key;
    forall s | s in ns ensures '/' !in s { assert s in ns + [key]; }
  }

  /** A path lies under a joined prefix and a slash exactly when the tuple is a prefix of its namespace. */
  lemma UnderPrefix(prefix: Namespace, ns: Namespace, key: string)
    requires prefix != [] && SlashFree(prefix) && SlashFree(ns + [key])
    ensures Join(prefix, '/') + "/" <= Path(ns, key) <==> prefix <= ns
  {
    var parts := ns + [key + SUFFIX];
    PathParts(ns, key);
    FreeParts(ns, key);
    JoinedPrefixSlash(prefix, parts);
    if |prefix| <= |ns| { assert parts[..|prefix|] == ns[..|prefix|]; }
  }

  lemma PrefixName(prefix: Namespace)
    requires ValidPrefix(prefix)
    ensures Objects.Name(Join(prefix, '/')) == Join(prefix, '/') && (Join(prefix, '/') == "" <==> prefix == [])
  {
    if prefix != [] {
      assert prefix[0] in prefix && prefix[0][0] in prefix[0];
      assert Join(prefix, '/')[0] == prefix[0][0];
    }
  }

  /**
   * The listing branch finds exactly the paths that match the prefix segment by segment, the last
   * segment only as a string prefix: it misses nothing under the prefix, but lists its siblings
   * whose next segment merely starts the same.
   */
  lemma ListedExactly(prefix: Namespace, ns: Namespace, key: string)
    requires ValidPrefix(prefix) && SlashFree(ns + [key])
    ensures Listed(Path(ns, key), prefix) <==> prefix == [] || LoosePrefix(prefix, ns + [key + SUFFIX])
    ensures prefix <= ns ==> Listed(Path(ns, key), prefix)
  {
    PrefixName(prefix);
    if prefix != [] {
      var parts := ns + [key + SUFFIX];
      PathParts(ns, key);
      FreeParts(ns, key);
      JoinedPrefix(prefix, parts);
      if prefix <= ns {
        var n := |prefix| - 1;
        assert prefix[..n] == parts[..n] && prefix[n] == parts[n];
      }
    }
  }

  /** A search for one namespace that lists an entry of another. */
  lemma ListingIsLoose()
    ensures Listed(Path(["memories2"], "k"), ["memories"]) && !(["memories"] <= ["memories2"])
  {
    ValidFree(["memories2"], "k");
    ListedExactly(["memories"], ["memories2"], "k");
    var m, n := ["memories"], ["memories2"];
    assert m[0] <= n[0] by { assert n[0][..8] == m[0]; }
    assert (n + ["k" + SUFFIX])[0] == n[0] && m[..0] == (n + ["k" + SUFFIX])[..0];
    assert |m[0]| != |n[0]|;
  }

  ghost predicate ByDistance(hits: seq<Hit>) { forall i, j | 0 <= i < j < |hits| :: hits[i].distance <= hits[j].distance }

  lemma {:induction false} RankedFrom(hits: seq<Hit>, prefix: Namespace)
    ensures forall f | f in Ranked(hits, prefix) ::
              (Join(prefix, '/') == "" || Join(prefix, '/') + "/" <= f.path) && f.distance.Some?
              && exists h | h in hits :: f == Found(h.path, Some(h.body), Some(h.distance))
    ensures forall h | h in hits && (Join(prefix, '/') == "" || Join(prefix, '/') + "/" <= h.path) ::
              Found(h.path, Some(h.body), Some(h.distance)) in Ranked(hits, prefix)
  {
    if hits != [] {
      RankedFrom(hits[1..], prefix);
      assert hits == [hits[0]] + hits[1..];
    }
  }

  predicate FarthestLast(found: seq<Found>) {
    (forall i | 0 <= i < |found| :: found[i].distance.Some?)
    && forall i, j | 0 <= i < j < |found| :: found[i].distance.value <= found[j].distance.value
  }

  lemma {:induction false} RankedOrder(hits: seq<Hit>, prefix: Namespace)
    requires ByDistance(hits)
    ensures FarthestLast(Ranked(hits, prefix))
  {
    if hits != [] {
      RankedOrder(hits[1..], prefix);
      var rest := Ranked(hits[1..], prefix);
      RankedFrom(hits[1..], prefix);
      forall i | 0 <= i < |rest| ensures rest[i].distance.Some? && hits[0].distance <= rest[i].distance.value {
        assert rest[i] in rest;
        var h :| h in hits[1..] && rest[i] == Found(h.path, Some(h.body), Some(h.distance));
        var k :| 0 <= k < |hits[1..]| && hits[1..][k] == h;
        assert hits[0].distance <= hits[k + 1].distance;
      }
    }
  }

  lemma ScoreFalls(near: Distance, far: Distance)
    requires near <= far
    ensures 1.0 / (1.0 + near) >= 1.0 / (1.0 + far)
  {
    var a, b := 1.0 + near, 1.0 + far;
    assert (1.0 / a) - (1.0 / b) == (b - a) / (a * b);
    assert (b - a) / (a * b) >= 0.0;
  }

  /** A value fits a filter when it has each field as asked for, or lacks a field asked to be null. */
  lemma FitsIs(value: Value, filter: Value)
    ensures Fits(value, filter) <==>
            forall k | k in filter :: (k in value && value[k] == filter[k]) || (k !in value && filter[k] == "null")
  {
  }

  /** What a collected item shows of the search result it came from. */
  ghost predicate Shows(item: SearchItem, found: Found, filter: Value) {
    SplitPath(found.path) == Some((item.item.ns, item.item.key)) && Fits(item.item.value, filter)
    && item.score == Score(found.distance)
  }

  lemma CollectOneShows(entries: map<string, Body>, found: Found, filter: Value, now: Time)
    ensures |CollectOne(entries, found, filter, now)| <= 1
    ensures forall item | item in CollectOne(entries, found, filter, now) :: Shows(item, found, filter)
  {
  }

  /** `origin` says, in order, which search results the items come from. */
  ghost predicate ComeFrom(items: seq<SearchItem>, found: seq<Found>, origin: seq<nat>, filter: Value) {
    && |origin| == |items|
    && (forall i | 0 <= i < |items| :: origin[i] < |found| && Shows(items[i], found[origin[i]], filter))
    && forall i, j | 0 <= i < j < |items| :: origin[i] < origin[j]
  }

  lemma ComeFromMore(items: seq<SearchItem>, found: seq<Found>, origin: seq<nat>, next: Found, item: SearchItem, filter: Value)
    requires ComeFrom(items, found, origin, filter) && Shows(item, next, filter)
    ensures ComeFrom(items + [item], found + [next], origin + [|found|], filter)
  {
  }

  lemma ComeFromNext(items: seq<SearchItem>, found: seq<Found>, origin: seq<nat>, next: Found, filter: Value)
    requires ComeFrom(items, found, origin, filter)
    ensures ComeFrom(items, found + [next], origin, filter)
  {
  }

  lemma {:induction false} CollectedShows(entries: map<string, Body>, found: seq<Found>, filter: Value, now: Time)
    returns (origin: seq<nat>)
    ensures ComeFrom(Collected(entries, found, filter, now), found, origin, filter)
  {
    if found == [] {
      origin := [];
    } else {
      var n := |found| - 1;
      var before, one := found[..n], CollectOne(entries, found[n], filter, now);
      var items := Collected(entries, before, filter, now);
      origin := CollectedShows(entries, before, filter, now);
      assert found == before + [found[n]];
      CollectOneShows(entries, found[n], filter, now);
      if one == [] {
        ComeFromNext(items, before, origin, found[n], filter);
        assert items + one == items;
      } else {
        assert one[0] in one && one == [one[0]];
        ComeFromMore(items, before, origin, found[n], one[0], filter);
        origin := origin + [n];
      }
    }
  }

  /** The segments a prefix stands for once it is joined: its own, if they have no slash. */
  function Segments(prefix: Namespace): Namespace {
    if Join(prefix, '/') == "" then [] else Split(Join(prefix, '/'), '/')
  }

  lemma SegmentsAre(prefix: Namespace)
    requires ValidPrefix(prefix)
    ensures Segments(prefix) == prefix
  {
    PrefixName(prefix);
    if prefix != [] { SplitJoinFree(prefix, '/'); }
  }

  lemma SegmentsFree(prefix: Namespace)
    ensures SlashFree(Segments(prefix))
    ensures Segments(prefix) != [] ==> Join(Segments(prefix), '/') == Join(prefix, '/')
  {
    SplitFree(Join(prefix, '/'), '/');
    JoinSplit(Join(prefix, '/'), '/');
  }

  lemma ShownUnderPrefix(item: SearchItem, found: Found, hits: seq<Hit>, prefix: Namespace, filter: Value)
    requires Shows(item, found, filter) && found in Ranked(hits, prefix)
    ensures Segments(prefix) <= item.item.ns && Fits(item.item.value, filter) && item.score.Some?
  {
    RankedFrom(hits, prefix);
    PathOfSplit(found.path);
    SegmentsFree(prefix);
    if Segments(prefix) != [] { UnderPrefix(Segments(prefix), item.item.ns, item.item.key); }
  }

  lemma ShownScores(item: SearchItem, later: SearchItem, near: Found, far: Found, filter: Value)
    requires Shows(item, near, filter) && Shows(later, far, filter)
    requires near.distance.Some? && far.distance.Some? && near.distance.value <= far.distance.value
    ensures item.score.Some? && later.score.Some? && item.score.value >= later.score.value
  {
    ScoreFalls(near.distance.value, far.distance.value);
  }

  lemma ScoresFall(items: seq<SearchItem>, found: seq<Found>, origin: seq<nat>, filter: Value)
    requires FarthestLast(found) && ComeFrom(items, found, origin, filter)
    ensures forall i | 0 <= i < |items| :: items[i].score.Some?
    ensures forall i, j | 0 <= i < j < |items| :: items[i].score.value >= items[j].score.value
  {
    forall i, j | 0 <= i < j < |items| ensures items[i].score.value >= items[j].score.value {
      ShownScores(items[i], items[j], found[origin[i]], found[origin[j]], filter);
    }
  }

  /**
   * A ranked search on hits sorted by distance, whoever wrote them: every item lies under the
   * prefix as a tuple, has each field the filter asks for (or lacks one asked to be null), and
   * scores never rise. (What is returned is one window of these items.)
   */
  lemma RankedSearch(entries: map<string, Body>, hits: seq<Hit>, prefix: Namespace, filter: Value, now: Time)
    requires ByDistance(hits)
    ensures var items := Collected(entries, Ranked(hits, prefix), filter, now);
            (forall i | 0 <= i < |items| :: Segments(prefix) <= items[i].item.ns && items[i].score.Some?)
            && (forall i | 0 <= i < |items| :: forall k | k in filter ::
                  var value := items[i].item.value; (k in value && value[k] == filter[k]) || (k !in value && filter[k] == "null"))
            && forall i, j | 0 <= i < j < |items| :: items[i].score.value >= items[j].score.value
  {
    var found := Ranked(hits, prefix);
    var items := Collected(entries, found, filter, now);
    var origin := CollectedShows(entries, found, filter, now);
    RankedOrder(hits, prefix);
    ScoresFall(items, found, origin, filter);
    forall i | 0 <= i < |items| ensures Segments(prefix) <= items[i].item.ns && Fits(items[i].item.value, filter) {
      assert found[origin[i]] in found;
      ShownUnderPrefix(items[i], found[origin[i]], hits, prefix, filter);
    }
    forall i | 0 <= i < |items|
      ensures forall k | k in filter ::
                var value := items[i].item.value; (k in value && value[k] == filter[k]) || (k !in value && filter[k] == "null")
    {
      FitsIs(items[i].item.value, filter);
    }
  }

  /** So does every item of a search without a query; it has no score. */
  lemma ListedFits(entries: map<string, Body>, found: seq<Found>, prefix: Namespace, filter: Value, now: Time)
    requires ListsPaths(found, entries, prefix)
    ensures forall item | item in Collected(entries, found, filter, now) ::
              item.score == None
              && forall k | k in filter ::
                   var value := item.item.value; (k in value && value[k] == filter[k]) || (k !in value && filter[k] == "null")
  {
    var items := Collected(entries, found, filter, now);
    var origin := CollectedShows(entries, found, filter, now);
    forall item | item in items
      ensures item.score == None
              && forall k | k in filter ::
                   var value := item.item.value; (k in value && value[k] == filter[k]) || (k !in value && filter[k] == "null")
    {
      var i :| 0 <= i < |items| && items[i] == item;
      assert found[origin[i]] in found;
      FitsIs(item.item.value, filter);
    }
  }

  /** A search result that decodes and fits the filter is among the items, with its score. */
  lemma CollectedHas(entries: map<string, Body>, found: seq<Found>, f: Found, body: Body, ns: Namespace, key: string, filter: Value, now: Time)
    requires f in found && f.path == Path(ns, key) && ns != [] && SlashFree(ns + [key])
    requires body.Envelope? && Fits(body.value, filter)
    requires f.body == Some(body) || (f.body == None && f.path in entries && entries[f.path] == body)
    ensures SearchItem(Unwrap(ns, key, body, now), Score(f.distance)) in Collected(entries, found, filter, now)
  {
    SplitPathInverse(ns, key);
    CollectedFrom(entries, found, filter, now);
    assert CollectOne(entries, f, filter, now) == [SearchItem(Unwrap(ns, key, body, now), Score(f.distance))];
  }

  /** What is collected fits the filter. */
  lemma CollectedOnlyFits(entries: map<string, Body>, found: seq<Found>, item: SearchItem, filter: Value, now: Time)
    requires item in Collected(entries, found, filter, now)
    ensures Fits(item.item.value, filter)
  {
    var items := Collected(entries, found, filter, now);
    var origin := CollectedShows(entries, found, filter, now);
    var i :| 0 <= i < |items| && items[i] == item;
    assert Shows(items[i], found[origin[i]], filter);
  }

  /** A search result that decodes is among the items, with its score, exactly when it fits the filter. */
  lemma CollectedIff(entries: map<string, Body>, found: seq<Found>, f: Found, body: Body, ns: Namespace, key: string, filter: Value, now: Time)
    requires f in found && f.path == Path(ns, key) && ns != [] && SlashFree(ns + [key]) && body.Envelope?
    requires f.body == Some(body) || (f.body == None && f.path in entries && entries[f.path] == body)
    ensures SearchItem(Unwrap(ns, key, body, now), Score(f.distance)) in Collected(entries, found, filter, now) <==>
            forall k | k in filter :: (k in body.value && body.value[k] == filter[k]) || (k !in body.value && filter[k] == "null")
  {
    FitsIs(body.value, filter);
    var item := SearchItem(Unwrap(ns, key, body, now), Score(f.distance));
    if item in Collected(entries, found, filter, now) { CollectedOnlyFits(entries, found, item, filter, now); }
    if Fits(body.value, filter) { CollectedHas(entries, found, f, body, ns, key, filter, now); }
  }

  lemma HitRanked(hits: seq<Hit>, hit: Hit, prefix: Namespace, ns: Namespace, key: string)
    requires ValidPrefix(prefix) && ns != [] && SlashFree(ns + [key]) && prefix <= ns
    requires hit in hits && hit.path == Path(ns, key)
    ensures Found(hit.path, Some(hit.body), Some(hit.distance)) in Ranked(hits, prefix)
  {
    PrefixName(prefix);
    if prefix != [] { UnderPrefix(prefix, ns, key); }
    RankedFrom(hits, prefix);
  }

  lemma RankedShows(entries: map<string, Body>, hits: seq<Hit>, hit: Hit, prefix: Namespace, ns: Namespace, key: string, filter: Value, now: Time)
    requires ValidPrefix(prefix) && ns != [] && SlashFree(ns + [key]) && prefix <= ns
    requires hit in hits && hit.path == Path(ns, key) && hit.body.Envelope?
    ensures SearchItem(Unwrap(ns, key, hit.body, now), Score(Some(hit.distance))) in
              Collected(entries, Ranked(hits, prefix), filter, now) <==>
            forall k | k in filter ::
              (k in hit.body.value && hit.body.value[k] == filter[k]) || (k !in hit.body.value && filter[k] == "null")
  {
    HitRanked(hits, hit, prefix, ns, key);
    CollectedIff(entries, Ranked(hits, prefix), Found(hit.path, Some(hit.body), Some(hit.distance)), hit.body, ns, key, filter, now);
  }

  lemma ScoreIs(distance: Distance)
    ensures Score(Some(distance)) == Some(1.0 / (1.0 + distance))
  {
  }

  /** A ranked search shows a hit under the prefix exactly when it has each field the filter asks for. */
  lemma RankedMissesNothing(entries: map<string, Body>, hits: seq<Hit>, hit: Hit, prefix: Namespace, ns: Namespace, key: string, filter: Value, now: Time)
    requires ValidPrefix(prefix) && ns != [] && SlashFree(ns + [key]) && prefix <= ns
    requires hit in hits && hit.path == Path(ns, key) && hit.body.Envelope?
    ensures SearchItem(Unwrap(ns, key, hit.body, now), Some(1.0 / (1.0 + hit.distance))) in
              Collected(entries, Ranked(hits, prefix), filter, now) <==>
            forall k | k in filter ::
              (k in hit.body.value && hit.body.value[k] == filter[k]) || (k !in hit.body.value && filter[k] == "null")
  {
    RankedShows(entries, hits, hit, prefix, ns, key, filter, now);
    ScoreIs(hit.distance);
  }

  /** A search without a query shows a stored entry under the prefix exactly when it has each field asked for. */
  lemma ListingMissesNothing(entries: map<string, Body>, found: seq<Found>, prefix: Namespace, ns: Namespace, key: string, filter: Value, now: Time)
    requires ListsPaths(found, entries, prefix)
    requires ValidPrefix(prefix) && ns != [] && SlashFree(ns + [key]) && prefix <= ns
    requires Path(ns, key) in entries && entries[Path(ns, key)].Envelope?
    ensures SearchItem(Unwrap(ns, key, entries[Path(ns, key)], now), None) in Collected(entries, found, filter, now) <==>
            var value := entries[Path(ns, key)].value;
            forall k | k in filter :: (k in value && value[k] == filter[k]) || (k !in value && filter[k] == "null")
  {
    ListedExactly(prefix, ns, key);
    CollectedIff(entries, found, Found(Path(ns, key), None, None), entries[Path(ns, key)], ns, key, filter, now);
  }

  // -------------------------------------------------------------------- namespace listing

  /** A namespace cut to a depth is its beginning of that length; a negative depth counts from its end. */
  lemma CutIs(ns: Namespace, depth: int)
    ensures Cut(ns, None) == ns && Cut(ns, Some(depth)) <= ns
    ensures |Cut(ns, Some(depth))| ==
            if 0 <= depth <= |ns| then depth else if depth > |ns| then |ns| else if -depth <= |ns| then |ns| + depth else 0
  {
  }

  /** The patterns match the segments one by one, a star any of them. */
  predicate Wild(path: seq<string>, segments: seq<string>) {
    |path| == |segments| && forall i | 0 <= i < |path| :: path[i] == "*" || path[i] == segments[i]
  }

  lemma AlignedIs(ns: Namespace, c: Condition, i: nat)
    requires i < |c.path| <= |ns|
    ensures c.Prefix? ==> Aligned(ns, c, i) == ns[..|c.path|][i]
    ensures c.Suffix? ==> Aligned(ns, c, i) == ns[|ns| - |c.path|..][i]
  {
  }

  /** A prefix condition holds exactly when its patterns match some beginning of the namespace. */
  lemma PrefixHolds(ns: Namespace, path: seq<string>)
    ensures Holds(ns, Prefix(path)) <==> exists front, rest :: ns == front + rest && Wild(path, front)
  {
    var c := Prefix(path);
    if |path| <= |ns| {
      var front := ns[..|path|];
      forall i | 0 <= i < |path| ensures SegmentMatches(path[i], Aligned(ns, c, i)) <==> path[i] == "*" || path[i] == front[i] {
        AlignedIs(ns, c, i);
      }
      assert ns == front + ns[|path|..];
      assert Holds(ns, c) ==> Wild(path, front);
      forall front', rest' | ns == front' + rest' && Wild(path, front') ensures Holds(ns, c) {
        assert front' == front;
      }
    }
  }

  /** A suffix condition holds exactly when its patterns match some end of it. */
  lemma SuffixHolds(ns: Namespace, path: seq<string>)
    ensures Holds(ns, Suffix(path)) <==> exists rest, back :: ns == rest + back && Wild(path, back)
  {
    var c := Suffix(path);
    if |path| <= |ns| {
      var back := ns[|ns| - |path|..];
      forall i | 0 <= i < |path| ensures SegmentMatches(path[i], Aligned(ns, c, i)) <==> path[i] == "*" || path[i] == back[i] {
        AlignedIs(ns, c, i);
      }
      assert ns == ns[..|ns| - |path|] + back;
      assert Holds(ns, c) ==> Wild(path, back);
      forall rest', back' | ns == rest' + back' && Wild(path, back') ensures Holds(ns, c) {
        assert back' == back;
      }
    }
  }

  /** The namespaces in use are those of the entries, cut, whoever wrote them. */
  lemma InUseIs(entries: map<string, Body>, maxDepth: Option<int>, ns: Namespace)
    ensures InUse(entries, maxDepth, ns) <==>
            exists whole, key :: whole != [] && SlashFree(whole + [key]) && Path(whole, key) in entries && Cut(whole, maxDepth) == ns
  {
    if InUse(entries, maxDepth, ns) {
      var path :| path in entries && SplitPath(path).Some? && Cut(SplitPath(path).value.0, maxDepth) == ns;
      PathOfSplit(path);
      var (whole, key) := SplitPath(path).value;
      assert whole != [] && SlashFree(whole + [key]) && Path(whole, key) in entries;
    }
    forall whole, key | whole != [] && SlashFree(whole + [key]) && Path(whole, key) in entries && Cut(whole, maxDepth) == ns
      ensures InUse(entries, maxDepth, ns)
    {
      SplitPathInverse(whole, key);
      assert SplitPath(Path(whole, key)).Some?;
    }
  }

  /** Any two listings of the same entries under the same conditions are the same list. */
  lemma ListingUnique(a: seq<Namespace>, b: seq<Namespace>, entries: map<string, Body>, conditions: seq<Condition>, maxDepth: Option<int>)
    requires ListsNamespaces(a, entries, conditions, maxDepth) && ListsNamespaces(b, entries, conditions, maxDepth)
    ensures a == b
  {
    forall ns ensures multiset(a)[ns] == multiset(b)[ns] {
      CountAtMostOne(a, ns);
      CountAtMostOne(b, ns);
      assert ns in a <==> ns in multiset(a);
      assert ns in b <==> ns in multiset(b);
    }
    assert multiset(a) == multiset(b);
    TupleOrder();
    SortedUnique(a, b, TupleLe);
  }

  /** So every page is a window of the one listing there is. */
  lemma PageIs(all: seq<Namespace>, entries: map<string, Body>, conditions: seq<Condition>, maxDepth: Option<int>,
               offset: nat, limit: nat, page: seq<Namespace>)
    requires ListsNamespaces(all, entries, conditions, maxDepth) && PageOf(entries, conditions, maxDepth, offset, limit, page)
    ensures page == Window(all, offset, limit)
  {
    var same :| ListsNamespaces(same, entries, conditions, maxDepth) && page == Window(same, offset, limit);
    ListingUnique(all, same, entries, conditions, maxDepth);
  }

  /** The answers to a client that asks for one page of `size` after another. */
  ghost predicate Paged(entries: map<string, Body>, conditions: seq<Condition>, maxDepth: Option<int>, size: nat, pages: seq<seq<Namespace>>) {
    forall i | 0 <= i < |pages| :: PageOf(entries, conditions, maxDepth, Offset(i, size), size, pages[i])
  }

  function Offset(i: nat, size: nat): nat { i * size }

  lemma NextOffset(i: nat, size: nat)
    ensures Offset(i + 1, size) == Offset(i, size) + size
  {
  }

  function FirstOf<T>(all: seq<T>, n: nat): seq<T> { if n < |all| then all[..n] else all }

  /** Consecutive pages tile the listing: n of them are its first n times `size` namespaces. */
  lemma {:induction false} PagesTile(all: seq<Namespace>, entries: map<string, Body>, conditions: seq<Condition>,
                                     maxDepth: Option<int>, size: nat, pages: seq<seq<Namespace>>)
    requires ListsNamespaces(all, entries, conditions, maxDepth) && Paged(entries, conditions, maxDepth, size, pages)
    ensures Concat(pages) == FirstOf(all, Offset(|pages|, size))
  {
    if pages == [] {
      assert FirstOf(all, 0) == [];
    } else {
      var n := |pages| - 1;
      PagesTile(all, entries, conditions, maxDepth, size, pages[..n]);
      PageIs(all, entries, conditions, maxDepth, Offset(n, size), size, pages[n]);
      NextOffset(n, size);
      WindowAfter(all, Offset(n, size), size);
    }
  }

  lemma WindowAfter<T>(all: seq<T>, offset: nat, size: nat)
    ensures FirstOf(all, offset) + Window(all, offset, size) == FirstOf(all, offset + size)
  {
  }

  /** Pages of any positive size, asked for until enough have come, are the whole listing. */
  lemma AllPages(all: seq<Namespace>, entries: map<string, Body>, conditions: seq<Condition>, maxDepth: Option<int>,
                 size: nat, pages: seq<seq<Namespace>>)
    requires ListsNamespaces(all, entries, conditions, maxDepth) && Paged(entries, conditions, maxDepth, size, pages)
    requires Offset(|pages|, size) >= |all|
    ensures Concat(pages) == all
  {
    PagesTile(all, entries, conditions, maxDepth, size, pages);
    assert all[..|all|] == all;
  }

  /** And the first empty page of a positive size says that they have all come. */
  lemma EmptyPageEnds(all: seq<Namespace>, entries: map<string, Body>, conditions: seq<Condition>, maxDepth: Option<int>,
                      size: nat, pages: seq<seq<Namespace>>)
    requires ListsNamespaces(all, entries, conditions, maxDepth) && Paged(entries, conditions, maxDepth, size, pages)
    requires size > 0 && pages != []
    ensures pages[|pages| - 1] == [] ==> Concat(pages) == all
  {
    var n := |pages| - 1;
    PageIs(all, entries, conditions, maxDepth, Offset(n, size), size, pages[n]);
    NextOffset(n, size);
    if pages[n] == [] { AllPages(all, entries, conditions, maxDepth, size, pages); }
  }
}
