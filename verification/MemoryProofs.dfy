/** When the recall table agrees with the entries. */
module MemoryProofs {
  import opened Objects
  import opened Memory

  predicate OnePerPath(rows: seq<Row>) {
    forall i, j | 0 <= i < j < |rows| :: rows[i].path != rows[j].path
  }

  /** Rows and entries have equal paths and texts. */
  ghost predicate Agrees(entries: map<string, string>, rows: seq<Row>) {
    && (forall i | 0 <= i < |rows| :: rows[i].path in entries && entries[rows[i].path] == rows[i].text)
    && (forall path | path in entries :: HasPath(rows, path))
  }

  predicate Backed(entries: map<string, string>, rows: seq<Row>) {
    forall i | 0 <= i < |rows| :: rows[i].path in entries
  }

  lemma UpsertIs(rows: seq<Row>, row: Row)
    ensures forall path :: HasPath(Upsert(rows, row), path) <==> path == row.path || HasPath(rows, path)
    ensures forall r | r in Upsert(rows, row) :: r == row || (r in rows && r.path != row.path)
    ensures forall r | r in rows && r.path != row.path :: r in Upsert(rows, row)
    ensures row in Upsert(rows, row)
    ensures OnePerPath(rows) ==> OnePerPath(Upsert(rows, row))
  {
    var after := Upsert(rows, row);
    if HasPath(rows, row.path) {
      var i :| 0 <= i < |rows| && rows[i].path == row.path;
      assert after[i] == row;
      forall r | r in rows && r.path != row.path ensures r in after {
        var j :| 0 <= j < |rows| && rows[j] == r;
        assert after[j] == r;
      }
      forall path ensures HasPath(after, path) <==> HasPath(rows, path) {
        assert forall j | 0 <= j < |rows| :: after[j].path == rows[j].path;
      }
    } else {
      assert after == rows + [row];
      assert after[|rows|] == row;
      forall path | HasPath(rows, path) ensures HasPath(after, path) {
        var i :| 0 <= i < |rows| && rows[i].path == path;
        assert after[i].path == path;
      }
    }
  }

  lemma {:induction false} DeleteIs(rows: seq<Row>, path: string)
    ensures forall r :: r in DeleteRows(rows, path) <==> r in rows && r.path != path
    ensures OnePerPath(rows) ==> OnePerPath(DeleteRows(rows, path))
  {
    if rows != [] {
      DeleteIs(rows[1..], path);
      assert rows == [rows[0]] + rows[1..];
      var rest := DeleteRows(rows[1..], path);
      if OnePerPath(rows) {
        forall j | 0 <= j < |rest| ensures rest[j].path != rows[0].path {
          assert rest[j] in rest;
          var m :| 0 <= m < |rows[1..]| && rows[1..][m] == rest[j];
          assert rows[m + 1] == rest[j];
        }
      }
    }
  }

  lemma HasPathIn(rows: seq<Row>, path: string)
    ensures HasPath(rows, path) <==> exists r | r in rows :: r.path == path
  {
    if HasPath(rows, path) {
      var i :| 0 <= i < |rows| && rows[i].path == path;
      assert rows[i] in rows;
    }
  }

  lemma AgreesIn(entries: map<string, string>, rows: seq<Row>)
    ensures Agrees(entries, rows) <==>
            (forall r | r in rows :: r.path in entries && entries[r.path] == r.text)
            && (forall path | path in entries :: HasPath(rows, path))
  {
    assert (forall i | 0 <= i < |rows| :: rows[i].path in entries && entries[rows[i].path] == rows[i].text) <==>
           (forall r | r in rows :: r.path in entries && entries[r.path] == r.text) by {
      forall i | 0 <= i < |rows| ensures rows[i] in rows {}
    }
  }

  /** The text stored under a path before an unindexed write is the one being written. */
  predicate SameText(entries: map<string, string>, path: string, text: string) {
    Name(path) in entries && entries[Name(path)] == text
  }

  /** An indexed write keeps agreement exactly when its path has no leading slash. */
  lemma IndexedPut(entries: map<string, string>, rows: seq<Row>, row: Row)
    requires Agrees(entries, rows) && forall path | path in entries :: path == Name(path)
    ensures Agrees(entries[Name(row.path) := row.text], Upsert(rows, row)) <==> Name(row.path) == row.path
  {
    var after, entries' := Upsert(rows, row), entries[Name(row.path) := row.text];
    UpsertIs(rows, row);
    AgreesIn(entries, rows);
    AgreesIn(entries', after);
    assert row in after;
    if Name(row.path) == row.path {
      forall r | r in after ensures r.path in entries' && entries'[r.path] == r.text {}
    } else {
      assert row.path !in entries';
    }
  }

  /** An unindexed write keeps agreement exactly when it changes nothing. */
  lemma UnindexedPut(entries: map<string, string>, rows: seq<Row>, path: string, text: string)
    requires Agrees(entries, rows)
    ensures Agrees(entries[Name(path) := text], rows) <==> SameText(entries, path, text)
  {
    var name := Name(path);
    var entries' := entries[name := text];
    if SameText(entries, path, text) {
      assert entries' == entries;
    } else if name in entries {
      var i :| 0 <= i < |rows| && rows[i].path == name;
      assert entries'[rows[i].path] != rows[i].text;
    } else {
      assert !HasPath(rows, name);
    }
  }

  lemma DeletedPaths(rows: seq<Row>, path: string)
    ensures forall p :: HasPath(DeleteRows(rows, path), p) <==> HasPath(rows, p) && p != path
  {
    DeleteIs(rows, path);
    forall p ensures HasPath(DeleteRows(rows, path), p) <==> HasPath(rows, p) && p != path {
      HasPathIn(DeleteRows(rows, path), p);
      HasPathIn(rows, p);
    }
  }

  lemma PlainDelete(entries: map<string, string>, rows: seq<Row>, path: string)
    requires Agrees(entries, rows)
    ensures Agrees(entries - {path}, DeleteRows(rows, path))
  {
    var after, entries' := DeleteRows(rows, path), entries - {path};
    DeletedPaths(rows, path);
    DeleteIs(rows, path);
    forall i | 0 <= i < |after| ensures after[i].path in entries' && entries'[after[i].path] == after[i].text {
      assert after[i] in rows && after[i].path != path;
      var m :| 0 <= m < |rows| && rows[m] == after[i];
    }
    forall p | p in entries' ensures HasPath(after, p) { assert HasPath(rows, p); }
  }

  lemma RowNeedsEntry(entries: map<string, string>, rows: seq<Row>, path: string)
    requires HasPath(rows, path) && path !in entries
    ensures !Agrees(entries, rows)
  {
    var i :| 0 <= i < |rows| && rows[i].path == path;
  }

  lemma {:induction false} DeleteNone(rows: seq<Row>, path: string)
    requires !HasPath(rows, path)
    ensures DeleteRows(rows, path) == rows
  {
    if rows != [] {
      assert forall i | 0 <= i < |rows[1..]| :: rows[1..][i] == rows[i + 1];
      DeleteNone(rows[1..], path);
    }
  }

  /** A delete keeps agreement exactly when its path is its name, or names no entry. */
  lemma DeleteAgrees(entries: map<string, string>, rows: seq<Row>, path: string)
    requires Agrees(entries, rows) && forall p | p in entries :: p == Name(p)
    ensures Agrees(entries - {Name(path)}, DeleteRows(rows, path)) <==> Name(path) == path || Name(path) !in entries
  {
    var name := Name(path);
    if name == path {
      PlainDelete(entries, rows, path);
    } else {
      if HasPath(rows, path) { RowNeedsEntry(entries, rows, path); }
      DeleteNone(rows, path);
      if name in entries {
        RowNeedsEntry(entries - {name}, rows, name);
      } else {
        assert entries - {name} == entries;
      }
    }
  }

  // -------------------------------------------------------------------------- whole runs

  ghost predicate Plain(calls: seq<Call>) { forall call | call in calls :: Name(PathOf(call)) == PathOf(call) }

  lemma {:induction false} EntryNames(calls: seq<Call>)
    ensures forall path | path in Entries(calls) :: path == Name(path)
  {
    if calls != [] { EntryNames(calls[..|calls| - 1]); }
  }

  /** Every delete reached the recall table: there was an embedder, of the model pinned. */
  ghost predicate Forgetting(calls: seq<Call>) { forall call | call in calls && call.Remove? :: call.forgotten }

  /** And so did every write. */
  ghost predicate Indexing(calls: seq<Call>) { forall call | call in calls && call.Write? :: call.indexed }

  lemma InAt(rows: seq<Row>)
    ensures forall i | 0 <= i < |rows| :: rows[i] in rows
  {
  }

  /**
   * Any run leaves at most one row per path; with plain paths and deletes that reach the table,
   * rows only for existing entries.
   */
  lemma {:induction false} RowsBacked(calls: seq<Call>)
    ensures OnePerPath(Indexed(calls))
    ensures Plain(calls) && Forgetting(calls) ==> Backed(Entries(calls), Indexed(calls))
  {
    if calls != [] {
      var before, last := calls[..|calls| - 1], calls[|calls| - 1];
      RowsBacked(before);
      assert last in calls;
      InAt(Indexed(calls));
      match last {
        case Write(row, _) => UpsertIs(Indexed(before), row);
        case Remove(path, _) => DeleteIs(Indexed(before), path);
      }
    }
  }

  /** When every call reaches the recall table and every path is plain, rows and entries always agree. */
  lemma {:induction false} IndexAgrees(calls: seq<Call>)
    requires Plain(calls) && Indexing(calls) && Forgetting(calls)
    ensures Agrees(Entries(calls), Indexed(calls))
  {
    if calls != [] {
      var before, last := calls[..|calls| - 1], calls[|calls| - 1];
      IndexAgrees(before);
      EntryNames(before);
      assert last in calls;
      match last {
        case Write(row, _) => IndexedPut(Entries(before), Indexed(before), row);
        case Remove(path, _) => DeleteAgrees(Entries(before), Indexed(before), path);
      }
    }
  }

  /** Writing an entry again without indexing it leaves a row with the old text. */
  lemma StaleRow(path: string, metadata: map<string, string>, vector: Vector)
    requires Name(path) == path
    ensures var calls := [Write(Row(path, "old", metadata, vector), true), Write(Row(path, "new", metadata, vector), false)];
            Indexed(calls) == [Row(path, "old", metadata, vector)] && Entries(calls)[path] == "new"
            && !Agrees(Entries(calls), Indexed(calls))
  {
    var first, second := Write(Row(path, "old", metadata, vector), true), Write(Row(path, "new", metadata, vector), false);
    var calls := [first, second];
    assert calls[..1] == [first] && [first][..0] == [];
    assert !HasPath([], path);
    assert Indexed([first]) == [first.row];
  }

  /** An entry written with a leading slash and deleted without it leaves its row behind. */
  lemma OrphanRow(metadata: map<string, string>, vector: Vector)
    ensures var calls := [Write(Row("/a", "text", metadata, vector), true), Remove("a", true)];
            Indexed(calls) == [Row("/a", "text", metadata, vector)] && Entries(calls) == map[]
  {
    var first, second := Write(Row("/a", "text", metadata, vector), true), Remove("a", true);
    var calls := [first, second];
    assert calls[..1] == [first] && [first][..0] == [];
    assert !HasPath([], "/a");
    assert "/a"[1..] == "a" && Name("a") == "a";
    assert Name("/a") == "a";
    assert |"/a"| != |"a"|;
    assert Indexed([first]) == [first.row] && Entries([first]) == map["a" := "text"];
    assert [first.row][1..] == [];
    assert DeleteRows([first.row], "a") == [first.row] + DeleteRows([], "a");
  }

  // --------------------------------------------------------------------- the model pin

  /** What any store does to a recall table it may share with others. */
  datatype TableCall =
    | IndexEntry(e: Embedder, path: string, text: string, metadata: map<string, string>, indexText: string)
    | ForgetEntry(e: Embedder, path: string)

  function TableAfter(recall: Recall, calls: seq<TableCall>): Recall {
    if calls == [] then recall else
      var before := TableAfter(recall, calls[..|calls| - 1]);
      match calls[|calls| - 1]
      case IndexEntry(e, path, text, metadata, indexText) => AfterIndex(before, e, path, text, metadata, indexText)
      case ForgetEntry(e, path) => AfterForget(before, e, path)
  }

  /** The row was written by a store whose model is the one given, and holds what that model makes of the text. */
  predicate EmbeddedBy(call: TableCall, model: string, row: Row) {
    call.IndexEntry? && call.e.model == model
    && row == Row(call.path, call.text, call.metadata, call.e.embed(if call.indexText != "" then call.indexText else call.text))
  }

  lemma CallKeepsPin(recall: Recall, call: TableCall)
    requires recall.Present? && recall.pin != ""
    ensures var after := TableAfter(recall, [call]);
            after.Present? && after.pin == recall.pin
            && forall row | row in RowsIn(after) :: row in RowsIn(recall) || EmbeddedBy(call, recall.pin, row)
  {
    assert [call][..0] == [];
    if call.IndexEntry? {
      UpsertIs(RowsIn(recall), RowFor(call.e, call.path, call.text, call.metadata, call.indexText));
    } else {
      DeleteIs(RowsIn(recall), call.path);
    }
  }

  lemma LastCall(recall: Recall, calls: seq<TableCall>)
    requires calls != []
    ensures TableAfter(recall, calls) == TableAfter(TableAfter(recall, calls[..|calls| - 1]), [calls[|calls| - 1]])
  {
    var last := [calls[|calls| - 1]];
    assert last[..0] == [] && last[|last| - 1] == calls[|calls| - 1];
  }

  /**
   * A table with a model pin keeps it, and whatever stores with whatever embedders do to it, every row
   * they add is what the pinned model made of the row's own text.
   */
  lemma {:induction false} PinnedRows(recall: Recall, calls: seq<TableCall>)
    requires recall.Present? && recall.pin != ""
    ensures var after := TableAfter(recall, calls);
            after.Present? && after.pin == recall.pin
            && forall row | row in RowsIn(after) ::
                 row in RowsIn(recall) || exists i | 0 <= i < |calls| :: EmbeddedBy(calls[i], recall.pin, row)
  {
    if calls != [] {
      var n := |calls| - 1;
      PinnedRows(recall, calls[..n]);
      LastCall(recall, calls);
      CallKeepsPin(TableAfter(recall, calls[..n]), calls[n]);
      forall row | row in RowsIn(TableAfter(recall, calls)) && row !in RowsIn(recall)
        ensures exists i | 0 <= i < |calls| :: EmbeddedBy(calls[i], recall.pin, row)
      {
        if row in RowsIn(TableAfter(recall, calls[..n])) {
          var i :| 0 <= i < n && EmbeddedBy(calls[..n][i], recall.pin, row);
          assert EmbeddedBy(calls[i], recall.pin, row);
        } else {
          assert EmbeddedBy(calls[n], recall.pin, row);
        }
      }
    }
  }
}
