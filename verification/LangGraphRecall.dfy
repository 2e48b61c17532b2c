/**
 * The LangGraph store over a memory whose recall table takes every call: what a ranked search shows
 * is what the store holds.
 */
module LangGraphRecall {
  import opened Basics
  import Memory
  import MemoryProofs
  import opened LangGraph
  import opened LangGraphProofs

  /** JSON: how an envelope is printed, and what a text decodes to. */
  datatype Codec = Codec(show: Body -> string, read: string -> Body)

  function Dated(item: Item): Body { Envelope(item.value, Some(item.created), Some(item.updated)) }

  ghost predicate Faithful(codec: Codec) { forall item :: codec.read(codec.show(Dated(item))) == Dated(item) }

  /** How a value is embedded. */
  type Embedding = Value -> Memory.Vector

  /** The row that a put writes: the envelope under the path, with the date of the first put. */
  function RowOf(codec: Codec, embed: Embedding, item: Item): Memory.Row {
    Memory.Row(Path(item.ns, item.key), codec.show(Dated(item)), map[], embed(item.value))
  }

  /** The memory calls that operations come down to. */
  function Calls(codec: Codec, embed: Embedding, ops: seq<Op>): seq<Memory.Call> {
    if ops == [] then [] else
      Calls(codec, embed, ops[..|ops| - 1]) + CallOf(codec, embed, ops[..|ops| - 1], ops[|ops| - 1])
  }

  function CallOf(codec: Codec, embed: Embedding, past: seq<Op>, op: Op): seq<Memory.Call> {
    match op
    case Get(_, _, _) => []
    case Put(ns, key, value, now) =>
      var existing := MapItem(past, ns, key);
      var created := if existing.Some? then existing.value.created else now;
      [Memory.Write(RowOf(codec, embed, Item(ns, key, value, created, now)), true)]
    case Delete(ns, key, _) => [Memory.Remove(Path(ns, key), true)]
  }

  /** Every operation has a valid address in a namespace. */
  ghost predicate Placed(ops: seq<Op>) { forall op | op in ops :: ValidOp(op) && op.ns != [] }

  lemma ItemAfterPut(past: seq<Op>, op: Op)
    requires op.Put?
    ensures var existing := MapItem(past, op.ns, op.key);
            MapItem(past + [op], op.ns, op.key) ==
              Some(Item(op.ns, op.key, op.value, if existing.Some? then existing.value.created else op.now, op.now))
  {
    assert (past + [op])[..|past|] == past;
  }

  /** A memory's entry under an address is the printed item of the map, or is missing with it. */
  predicate Holds(codec: Codec, entries: map<string, string>, ns: Namespace, key: string, item: Option<Item>) {
    if item == None then Path(ns, key) !in entries
    else Path(ns, key) in entries && entries[Path(ns, key)] == codec.show(Dated(item.value))
  }

  /** Entries are at paths of the store, and hold the map of a history. */
  ghost predicate HoldsMap(codec: Codec, entries: map<string, string>, ops: seq<Op>) {
    && (forall path | path in entries :: exists ns, key :: ns != [] && ValidAddress(ns, key) && path == Path(ns, key))
    && forall ns, key | ns != [] && ValidAddress(ns, key) :: Holds(codec, entries, ns, key, MapItem(ops, ns, key))
  }

  lemma MapItemElsewhere(past: seq<Op>, op: Op, ns: Namespace, key: string)
    requires !Touches(op, ns, key)
    ensures MapItem(past + [op], ns, key) == MapItem(past, ns, key)
  {
    assert (past + [op])[..|past|] == past;
  }

  lemma WriteHolds(codec: Codec, entries: map<string, string>, past: seq<Op>, op: Op, item: Item)
    requires HoldsMap(codec, entries, past) && op.Put? && ValidOp(op) && op.ns != []
    requires MapItem(past + [op], op.ns, op.key) == Some(item) && item.ns == op.ns && item.key == op.key
    ensures HoldsMap(codec, entries[Path(op.ns, op.key) := codec.show(Dated(item))], past + [op])
  {
    var after := entries[Path(op.ns, op.key) := codec.show(Dated(item))];
    forall ns, key | ns != [] && ValidAddress(ns, key) ensures Holds(codec, after, ns, key, MapItem(past + [op], ns, key)) {
      assert Holds(codec, entries, ns, key, MapItem(past, ns, key));
      if Path(ns, key) == Path(op.ns, op.key) {
        PathInjective(ns, key, op.ns, op.key);
      } else {
        MapItemElsewhere(past, op, ns, key);
      }
    }
  }

  lemma RemoveHolds(codec: Codec, entries: map<string, string>, past: seq<Op>, op: Op)
    requires HoldsMap(codec, entries, past) && op.Delete? && ValidOp(op) && op.ns != []
    ensures HoldsMap(codec, entries - {Path(op.ns, op.key)}, past + [op])
  {
    var after := entries - {Path(op.ns, op.key)};
    assert (past + [op])[..|past|] == past;
    forall ns, key | ns != [] && ValidAddress(ns, key) ensures Holds(codec, after, ns, key, MapItem(past + [op], ns, key)) {
      assert Holds(codec, entries, ns, key, MapItem(past, ns, key));
      if Path(ns, key) == Path(op.ns, op.key) {
        PathInjective(ns, key, op.ns, op.key);
      } else {
        MapItemElsewhere(past, op, ns, key);
      }
    }
  }

  lemma GetHolds(codec: Codec, entries: map<string, string>, past: seq<Op>, op: Op)
    requires HoldsMap(codec, entries, past) && op.Get?
    ensures HoldsMap(codec, entries, past + [op])
  {
    forall ns, key | ns != [] && ValidAddress(ns, key) ensures Holds(codec, entries, ns, key, MapItem(past + [op], ns, key)) {
      assert Holds(codec, entries, ns, key, MapItem(past, ns, key));
      MapItemElsewhere(past, op, ns, key);
    }
  }

  lemma EntriesAppend(calls: seq<Memory.Call>, call: Memory.Call)
    ensures Memory.Entries(calls + [call]) == Memory.EntriesAfter(Memory.Entries(calls), call)
  {
    assert (calls + [call])[..|calls|] == calls;
  }

  lemma PutHolds(codec: Codec, embed: Embedding, calls: seq<Memory.Call>, past: seq<Op>, op: Op, call: Memory.Call)
    requires HoldsMap(codec, Memory.Entries(calls), past) && ValidOp(op) && op.ns != [] && op.Put?
    requires CallOf(codec, embed, past, op) == [call]
    ensures HoldsMap(codec, Memory.Entries(calls + [call]), past + [op])
  {
    ItemAfterPut(past, op);
    EntriesAppend(calls, call);
    PathName(op.ns, op.key);
    assert [call][0] == call;
    WriteHolds(codec, Memory.Entries(calls), past, op, MapItem(past + [op], op.ns, op.key).value);
  }

  lemma DeleteHolds(codec: Codec, calls: seq<Memory.Call>, past: seq<Op>, op: Op)
    requires HoldsMap(codec, Memory.Entries(calls), past) && ValidOp(op) && op.ns != [] && op.Delete?
    ensures HoldsMap(codec, Memory.Entries(calls + [Memory.Remove(Path(op.ns, op.key), true)]), past + [op])
  {
    EntriesAppend(calls, Memory.Remove(Path(op.ns, op.key), true));
    PathName(op.ns, op.key);
    RemoveHolds(codec, Memory.Entries(calls), past, op);
  }

  lemma NextHolds(codec: Codec, embed: Embedding, calls: seq<Memory.Call>, past: seq<Op>, op: Op)
    requires HoldsMap(codec, Memory.Entries(calls), past) && ValidOp(op) && op.ns != []
    ensures HoldsMap(codec, Memory.Entries(calls + CallOf(codec, embed, past, op)), past + [op])
  {
    var more := CallOf(codec, embed, past, op);
    if op.Get? {
      assert calls + more == calls;
      GetHolds(codec, Memory.Entries(calls), past, op);
    } else if op.Put? {
      PutHolds(codec, embed, calls, past, op, more[0]);
    } else {
      DeleteHolds(codec, calls, past, op);
    }
  }

  /** The memory under the store holds the store's map. */
  lemma {:induction false} CallsHoldMap(codec: Codec, embed: Embedding, ops: seq<Op>)
    requires Placed(ops)
    ensures HoldsMap(codec, Memory.Entries(Calls(codec, embed, ops)), ops)
  {
    if ops != [] {
      var n := |ops| - 1;
      assert ops == ops[..n] + [ops[n]] && ops[n] in ops;
      CallsHoldMap(codec, embed, ops[..n]);
      NextHolds(codec, embed, Calls(codec, embed, ops[..n]), ops[..n], ops[n]);
    }
  }

  lemma {:induction false} CallsReach(codec: Codec, embed: Embedding, ops: seq<Op>)
    requires Placed(ops)
    ensures var calls := Calls(codec, embed, ops);
            MemoryProofs.Plain(calls) && MemoryProofs.Indexing(calls) && MemoryProofs.Forgetting(calls)
  {
    if ops != [] {
      assert ops[|ops| - 1] in ops;
      CallsReach(codec, embed, ops[..|ops| - 1]);
      PathName(ops[|ops| - 1].ns, ops[|ops| - 1].key);
    }
  }

  /** A hit is a row of the recall table that the operations filled. */
  ghost predicate HitOf(codec: Codec, embed: Embedding, ops: seq<Op>, hit: Hit) {
    exists row :: row in Memory.Indexed(Calls(codec, embed, ops)) && hit.path == row.path && hit.body == codec.read(row.text)
  }

  /** The row prints an item under its path, and embeds its value. */
  ghost predicate Printed(codec: Codec, embed: Embedding, row: Memory.Row) {
    exists item: Item :: row == Memory.Row(Path(item.ns, item.key), codec.show(Dated(item)), map[], embed(item.value))
  }

  lemma CallPrints(codec: Codec, embed: Embedding, past: seq<Op>, op: Op, call: Memory.Call)
    requires call in CallOf(codec, embed, past, op) && call.Write?
    ensures Printed(codec, embed, call.row)
  {
    var existing := MapItem(past, op.ns, op.key);
    var item := Item(op.ns, op.key, op.value, if existing.Some? then existing.value.created else op.now, op.now);
    assert call.row == Memory.Row(Path(item.ns, item.key), codec.show(Dated(item)), map[], embed(item.value));
  }

  lemma RowsNext(rows: seq<Memory.Row>, call: Memory.Call, row: Memory.Row)
    requires row in Memory.RowsAfter(rows, call)
    ensures row in rows || (call.Write? && row == call.row)
  {
    if call.Write? {
      MemoryProofs.UpsertIs(rows, call.row);
    } else {
      MemoryProofs.DeleteIs(rows, call.path);
    }
  }

  lemma IndexedAppend(calls: seq<Memory.Call>, call: Memory.Call)
    ensures Memory.Indexed(calls + [call]) == Memory.RowsAfter(Memory.Indexed(calls), call)
  {
    assert (calls + [call])[..|calls|] == calls;
  }

  /** Every row is one that a put wrote: the item printed under its path, with its value embedded. */
  lemma {:induction false} RowsWritten(codec: Codec, embed: Embedding, ops: seq<Op>, row: Memory.Row)
    requires row in Memory.Indexed(Calls(codec, embed, ops))
    ensures Printed(codec, embed, row)
  {
    if ops != [] {
      var n := |ops| - 1;
      var calls, more := Calls(codec, embed, ops[..n]), CallOf(codec, embed, ops[..n], ops[n]);
      if more == [] {
        assert calls + more == calls;
        RowsWritten(codec, embed, ops[..n], row);
      } else {
        assert more == [more[0]] && more[0] in more;
        IndexedAppend(calls, more[0]);
        RowsNext(Memory.Indexed(calls), more[0], row);
        if row in Memory.Indexed(calls) {
          RowsWritten(codec, embed, ops[..n], row);
        } else {
          CallPrints(codec, embed, ops[..n], ops[n], more[0]);
        }
      }
    }
  }

  /** So each hit is an item of the map, under its address. */
  lemma HitIsItem(codec: Codec, embed: Embedding, ops: seq<Op>, hit: Hit) returns (item: Item)
    requires Faithful(codec) && Placed(ops) && HitOf(codec, embed, ops, hit)
    ensures item.ns != [] && ValidAddress(item.ns, item.key) && MapItem(ops, item.ns, item.key) == Some(item)
    ensures hit.path == Path(item.ns, item.key) && hit.body == Dated(item)
  {
    var calls := Calls(codec, embed, ops);
    var entries, rows := Memory.Entries(calls), Memory.Indexed(calls);
    var row :| row in rows && hit.path == row.path && hit.body == codec.read(row.text);
    CallsReach(codec, embed, ops);
    MemoryProofs.IndexAgrees(calls);
    MemoryProofs.AgreesIn(entries, rows);
    CallsHoldMap(codec, embed, ops);
    var ns, key :| ns != [] && ValidAddress(ns, key) && row.path == Path(ns, key);
    assert Holds(codec, entries, ns, key, MapItem(ops, ns, key));
    MapItemAddress(ops, ns, key);
    item := MapItem(ops, ns, key).value;
  }

  /**
   * When every put is indexed, each item of a ranked search is exactly the item that the map of the
   * store's history holds under its address: value, first and last date.
   */
  lemma RankedItemsAreCurrent(codec: Codec, embed: Embedding, ops: seq<Op>, entries: map<string, Body>, hits: seq<Hit>,
                              prefix: Namespace, filter: Value, now: Time)
    requires Faithful(codec) && Placed(ops) && forall hit | hit in hits :: HitOf(codec, embed, ops, hit)
    ensures forall shown | shown in Collected(entries, Ranked(hits, prefix), filter, now) ::
              MapItem(ops, shown.item.ns, shown.item.key) == Some(shown.item)
  {
    var found := Ranked(hits, prefix);
    CollectedFrom(entries, found, filter, now);
    RankedFrom(hits, prefix);
    forall shown | shown in Collected(entries, found, filter, now)
      ensures MapItem(ops, shown.item.ns, shown.item.key) == Some(shown.item)
    {
      var f :| f in found && CollectOne(entries, f, filter, now) == [shown];
      var hit :| hit in hits && f == Found(hit.path, Some(hit.body), Some(hit.distance));
      var item := HitIsItem(codec, embed, ops, hit);
      ValidFree(item.ns, item.key);
      SplitPathInverse(item.ns, item.key);
      assert [shown][0] == shown;
    }
  }
}
