/** Agent memory: entry objects, and a recall table with one row per indexed entry. */
module Memory {
  import opened Basics
  import opened Objects

  type Vector = seq<real>

  datatype Row = Row(path: string, text: string, metadata: map<string, string>, vector: Vector)

  /** A model's name and what it makes of a text. */
  datatype Embedder = Embedder(model: string, embed: string -> Vector)

  /** The recall table: hidden or absent, or there with its model pin and perhaps a dataset. */
  datatype Recall = Missing | Present(pin: string, dataset: Option<seq<Row>>)

  datatype Failure = NotFound | EmbeddingMismatch | NoEmbedder

  // ------------------------------------------------------------------ the SQL predicate

  /** `value.replace("'", "''")` */
  function Escape(value: string): string {
    if value == "" then "" else (if value[0] == '\'' then "''" else [value[0]]) + Escape(value[1..])
  }

  const PATH_IS := "path = '"

  function DeletePredicate(path: string): string { PATH_IS + Escape(path) + "'" }

  /**
   * The rest of a character string literal after its opening quote (SQL-92, section 5.3): two
   * quotes stand for one, a single quote ends it. Also what follows the literal.
   */
  function ReadLiteral(s: string): Option<(string, string)>
    decreases |s|
  {
    if s == "" then None
    else if s[0] != '\'' then
      var r := ReadLiteral(s[1..]);
      if r.Some? then Some(([s[0]] + r.value.0, r.value.1)) else None
    else if |s| > 1 && s[1] == '\'' then
      var r := ReadLiteral(s[2..]);
      if r.Some? then Some(("'" + r.value.0, r.value.1)) else None
    else Some(("", s[1..]))
  }

  /** The path a predicate selects, when it is one equality with a literal. */
  function SelectedPath(predicate_: string): Option<string> {
    if !(PATH_IS <= predicate_) then None else
      var r := ReadLiteral(predicate_[|PATH_IS|..]);
      if r.Some? && r.value.1 == "" then Some(r.value.0) else None
  }

  lemma {:induction false} LiteralReads(path: string)
    ensures ReadLiteral(Escape(path) + "'") == Some((path, ""))
  {
    if path == "" {
      assert Escape(path) + "'" == "'" && "'"[1..] == "";
    } else {
      var tail := Escape(path[1..]) + "'";
      LiteralReads(path[1..]);
      assert path == [path[0]] + path[1..];
      if path[0] == '\'' {
        assert Escape(path) + "'" == "''" + tail;
        assert ("''" + tail)[2..] == tail;
        assert path == "'" + path[1..];
      } else {
        assert Escape(path) + "'" == [path[0]] + tail;
        assert ([path[0]] + tail)[1..] == tail;
      }
    }
  }

  /** Whatever the path contains, the predicate built for it selects that path. */
  lemma PredicateSelects(path: string)
    ensures SelectedPath(DeletePredicate(path)) == Some(path)
  {
    LiteralReads(path);
    var literal := Escape(path) + "'";
    assert DeletePredicate(path) == PATH_IS + literal;
    assert (PATH_IS + literal)[|PATH_IS|..] == literal;
  }

  lemma EscapeNext(c: char, rest: string)
    ensures Escape([c] + rest) == (if c == '\'' then "''" else [c]) + Escape(rest)
  {
    assert ([c] + rest)[1..] == rest;
  }

  /** A quote is doubled, and nothing else is. */
  lemma PredicateExample()
    ensures DeletePredicate("a'b") == "path = 'a''b'"
  {
    EscapeNext('b', "");
    EscapeNext('\'', "b");
    EscapeNext('a', "'b");
    assert "b" == ['b'] + "" && "'b" == ['\''] + "b" && "a'b" == ['a'] + "'b";
    assert Escape("a'b") == "a''b";
  }

  // ------------------------------------------------------------------- the recall table

  predicate HasPath(rows: seq<Row>, path: string) { exists i | 0 <= i < |rows| :: rows[i].path == path }

  /** `merge_insert("path")`: update every row with the path, insert when there is none. */
  function Upsert(rows: seq<Row>, row: Row): seq<Row> {
    if HasPath(rows, row.path)
    then seq(|rows|, i requires 0 <= i < |rows| => if rows[i].path == row.path then row else rows[i])
    else rows + [row]
  }

  function DeleteRows(rows: seq<Row>, path: string): seq<Row> {
    if rows == [] then []
    else (if rows[0].path == path then [] else [rows[0]]) + DeleteRows(rows[1..], path)
  }

  function RowsIn(recall: Recall): seq<Row> {
    if recall.Present? && recall.dataset.Some? then recall.dataset.value else []
  }

  /** The table can be used: it is there, and no other model built it. */
  function CheckPin(recall: Recall, model: string): Result<(), Failure> {
    if recall.Missing? then Err(NotFound)
    else if recall.pin != "" && recall.pin != model then Err(EmbeddingMismatch)
    else Ok(())
  }

  function RowFor(e: Embedder, path: string, text: string, metadata: map<string, string>, indexText: string): Row {
    Row(path, text, metadata, e.embed(if indexText != "" then indexText else text))
  }

  /** What any store with this embedder makes of the table by indexing. */
  function AfterIndex(recall: Recall, e: Embedder, path: string, text: string, metadata: map<string, string>, indexText: string): Recall {
    if CheckPin(recall, e.model).Err? then recall
    else recall.(dataset := Some(Upsert(RowsIn(recall), RowFor(e, path, text, metadata, indexText))))
  }

  function AfterForget(recall: Recall, e: Embedder, path: string): Recall {
    if CheckPin(recall, e.model).Err? || recall.dataset == None then recall
    else recall.(dataset := Some(DeleteRows(RowsIn(recall), path)))
  }

  // ------------------------------------------------------------------------------ history

  /** A call that was made, and whether it reached the recall table. */
  datatype Call = Write(row: Row, indexed: bool) | Remove(path: string, forgotten: bool)

  function PathOf(call: Call): string { if call.Write? then call.row.path else call.path }

  function EntriesAfter(entries: map<string, string>, call: Call): map<string, string> {
    match call
    case Write(row, _) => entries[Name(row.path) := row.text]
    case Remove(path, _) => entries - {Name(path)}
  }

  function RowsAfter(rows: seq<Row>, call: Call): seq<Row> {
    match call
    case Write(row, indexed) => if indexed then Upsert(rows, row) else rows
    case Remove(path, forgotten) => if forgotten then DeleteRows(rows, path) else rows
  }

  /** The entries that a history leaves. */
  function Entries(calls: seq<Call>): map<string, string> {
    if calls == [] then map[] else EntriesAfter(Entries(calls[..|calls| - 1]), calls[|calls| - 1])
  }

  /** The rows that a history leaves in a table that was empty. */
  function Indexed(calls: seq<Call>): seq<Row> {
    if calls == [] then [] else RowsAfter(Indexed(calls[..|calls| - 1]), calls[|calls| - 1])
  }

  /** Entries are those of the history; so are rows if there were none to begin with. */
  ghost predicate Recorded(began: seq<Row>, calls: seq<Call>, entries: map<string, string>, rows: seq<Row>) {
    entries == Entries(calls) && (began == [] ==> rows == Indexed(calls))
  }

  lemma NextCall(began: seq<Row>, calls: seq<Call>, entries: map<string, string>, rows: seq<Row>, call: Call)
    requires Recorded(began, calls, entries, rows)
    ensures Recorded(began, calls + [call], EntriesAfter(entries, call), RowsAfter(rows, call))
  {
    assert (calls + [call])[..|calls|] == calls;
  }

  /** Call `i` wrote the entry called `name`, and no later call touched it. */
  predicate LastWrite(calls: seq<Call>, name: string, i: int) {
    && 0 <= i < |calls| && calls[i].Write? && Name(calls[i].row.path) == name
    && forall j | i < j < |calls| :: Name(PathOf(calls[j])) != name
  }

  lemma LastWriteKept(calls: seq<Call>, call: Call, name: string)
    requires Name(PathOf(call)) != name
    ensures forall i :: LastWrite(calls + [call], name, i) <==> LastWrite(calls, name, i)
  {
    var longer := calls + [call];
    forall i ensures LastWrite(longer, name, i) <==> LastWrite(calls, name, i) {
      assert forall j | 0 <= j < |calls| :: longer[j] == calls[j];
      if LastWrite(longer, name, i) {
        assert forall j | i < j < |calls| :: Name(PathOf(longer[j])) != name;
      }
    }
  }

  /** An entry is there exactly when a write of it was not followed by a delete, and is the last one written. */
  lemma {:induction false} EntryIs(calls: seq<Call>, name: string)
    ensures name in Entries(calls) <==> exists i :: LastWrite(calls, name, i)
    ensures forall i | LastWrite(calls, name, i) :: name in Entries(calls) && Entries(calls)[name] == calls[i].row.text
  {
    if calls != [] {
      var n := |calls| - 1;
      EntryIs(calls[..n], name);
      assert calls == calls[..n] + [calls[n]];
      if Name(PathOf(calls[n])) != name {
        LastWriteKept(calls[..n], calls[n], name);
      } else {
        assert forall i | LastWrite(calls, name, i) :: i == n;
        assert calls[n].Write? ==> LastWrite(calls, name, n);
      }
    }
  }

  class MemoryStore {
    const embedder: Option<Embedder>
    var entries: map<string, string>
    var recall: Recall
    ghost const began: seq<Row>
    ghost var history: seq<Call>

    ghost predicate Valid()
      reads this
    {
      Recorded(began, history, entries, Rows())
    }

    constructor (embedder: Option<Embedder>, recall: Recall)
      ensures Valid() && history == [] && began == Rows()
      ensures this.embedder == embedder && this.recall == recall && entries == map[]
    {
      this.embedder, this.recall, entries := embedder, recall, map[];
      began, history := if recall.Present? && recall.dataset.Some? then recall.dataset.value else [], [];
    }

    function Rows(): seq<Row>
      reads this
    {
      RowsIn(recall)
    }

    /** A table that is absent, or built by another model, refuses; else there is one row for the path. */
    method Index(path: string, text: string, metadata: map<string, string>, indexText: string) returns (r: Result<(), Failure>)
      requires embedder.Some?
      modifies this`recall
      ensures r == Err(NotFound) <==> old(recall).Missing?
      ensures r == Err(EmbeddingMismatch) <==>
                old(recall).Present? && old(recall).pin != "" && old(recall).pin != embedder.value.model
      ensures r != Err(NoEmbedder) && (r.Err? ==> recall == old(recall))
      ensures r.Ok? ==>
                recall.Present? && recall.pin == old(recall).pin && recall.dataset.Some?
                && Rows() == Upsert(old(Rows()), Row(path, text, metadata,
                                                     embedder.value.embed(if indexText != "" then indexText else text)))
      ensures recall == AfterIndex(old(recall), embedder.value, path, text, metadata, indexText)
    {
      r := CheckPin(recall, embedder.value.model);
      if r.Err? {
        return;
      }
      var row := RowFor(embedder.value, path, text, metadata, indexText);
      if recall.dataset == None {
        recall := recall.(dataset := Some([row]));
        return;
      }
      recall := recall.(dataset := Some(Upsert(recall.dataset.value, row)));
    }

    /** The entry is written first: it stays even when indexing fails. */
    method Put(path: string, text: string, metadata: map<string, string>, index: bool, indexText: string) returns (r: Result<(), Failure>)
      requires Valid()
      modifies this
      ensures Valid()
      ensures var vector := if embedder.Some? then embedder.value.embed(if indexText != "" then indexText else text) else [];
              history == old(history) + [Write(Row(path, text, metadata, vector), index && embedder.Some? && r.Ok?)]
      ensures entries == old(entries)[Name(path) := text]
      ensures r == Err(NotFound) <==> index && embedder.Some? && old(recall).Missing?
      ensures r == Err(EmbeddingMismatch) <==>
                index && embedder.Some? && old(recall).Present? && old(recall).pin != "" && old(recall).pin != embedder.value.model
      ensures r != Err(NoEmbedder)
      ensures !(index && embedder.Some? && r.Ok?) ==> recall == old(recall)
      ensures index && embedder.Some? && r.Ok? ==>
                recall.Present? && recall.pin == old(recall).pin && recall.dataset.Some?
                && Rows() == Upsert(old(Rows()), Row(path, text, metadata,
                                                     embedder.value.embed(if indexText != "" then indexText else text)))
    {
      ghost var vector := if embedder.Some? then embedder.value.embed(if indexText != "" then indexText else text) else [];
      ghost var row, entriesBefore, rowsBefore := Row(path, text, metadata, vector), entries, Rows();
      entries := entries[Name(path) := text];
      r := Ok(());
      if index && embedder.Some? {
        r := Index(path, text, metadata, indexText);
      }
      ghost var call := Write(row, index && embedder.Some? && r.Ok?);
      NextCall(began, history, entriesBefore, rowsBefore, call);
      history := history + [call];
    }

    /** A table that is absent has nothing to forget; one built by another model refuses. */
    method ForgetVector(path: string) returns (r: Result<(), Failure>)
      requires embedder.Some?
      modifies this`recall
      ensures r.Err? <==> old(recall).Present? && old(recall).pin != "" && old(recall).pin != embedder.value.model
      ensures r.Err? ==> r.error == EmbeddingMismatch
      ensures r.Err? || old(recall).Missing? ==> recall == old(recall)
      ensures r.Ok? && old(recall).Present? ==>
                recall.Present? && recall.pin == old(recall).pin && (recall.dataset.Some? <==> old(recall).dataset.Some?)
                && Rows() == DeleteRows(old(Rows()), path)
      ensures recall == AfterForget(old(recall), embedder.value, path)
    {
      r := CheckPin(recall, embedder.value.model);
      if r == Err(NotFound) {
        return Ok(());
      }
      if r.Err? || recall.dataset == None {
        return;
      }
      var selected := SelectedPath(DeletePredicate(path));
      PredicateSelects(path);
      recall := recall.(dataset := Some(DeleteRows(recall.dataset.value, selected.value)));
    }

    method Delete(path: string) returns (r: Result<(), Failure>)
      requires Valid()
      modifies this
      ensures Valid()
      ensures history == old(history) + [Remove(path, embedder.Some? && old(recall).Present? && r.Ok?)]
      ensures entries == old(entries) - {Name(path)}
      ensures r.Err? <==>
                embedder.Some? && old(recall).Present? && old(recall).pin != "" && old(recall).pin != embedder.value.model
      ensures r.Err? ==> r.error == EmbeddingMismatch
      ensures r.Err? || embedder == None || old(recall).Missing? ==> recall == old(recall)
      ensures r.Ok? && embedder.Some? && old(recall).Present? ==>
                recall.Present? && recall.pin == old(recall).pin && (recall.dataset.Some? <==> old(recall).dataset.Some?)
                && Rows() == DeleteRows(old(Rows()), path)
    {
      ghost var entriesBefore, rowsBefore, present := entries, Rows(), recall.Present?;
      entries := entries - {Name(path)};
      r := Ok(());
      if embedder.Some? {
        r := ForgetVector(path);
      }
      ghost var call := Remove(path, embedder.Some? && present && r.Ok?);
      NextCall(began, history, entriesBefore, rowsBefore, call);
      history := history + [call];
    }

    /** The text last put under the path, unless it was deleted since or never put. */
    method Get(path: string) returns (text: Option<string>)
      requires Valid()
      ensures text == None <==> forall i :: !LastWrite(history, Name(path), i)
      ensures forall i | LastWrite(history, Name(path), i) :: text == Some(history[i].row.text)
    {
      var name := Name(path);
      text := if name in entries then Some(entries[name]) else None;
      EntryIs(history, name);
    }
  }
}
