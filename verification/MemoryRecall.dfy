/** Searching scopes whose recall tables were filled by their own puts and deletes. */
module MemoryRecall {
  import opened Memory
  import opened MemoryProofs
  import Recall

  /** The rows of a recall table as a search sees them: at their distances from the query. */
  function AsHits(rows: seq<Row>, distance: Vector -> real, scope: string): seq<Recall.Hit> {
    seq(|rows|, i requires 0 <= i < |rows| =>
      Recall.Hit(rows[i].path, rows[i].text, distance(rows[i].vector), rows[i].metadata, scope))
  }

  /** Each scope's rows are what its own history left in its table. */
  ghost predicate FilledBy(scopes: seq<Recall.Scope>, histories: seq<seq<Call>>, distance: Vector -> real) {
    && |histories| == |scopes|
    && forall i | 0 <= i < |scopes| :: scopes[i].rows == AsHits(Indexed(histories[i]), distance, scopes[i].name)
  }

  /** A hit of scope `i` carries the text that its entry has now. */
  predicate Current(scopes: seq<Recall.Scope>, histories: seq<seq<Call>>, i: int, hit: Recall.Hit) {
    && 0 <= i < |scopes| == |histories| && scopes[i].access.Readable? && scopes[i].name == hit.scope
    && hit.path in Entries(histories[i]) && Entries(histories[i])[hit.path] == hit.text
  }

  lemma RowCurrent(scopes: seq<Recall.Scope>, histories: seq<seq<Call>>, distance: Vector -> real, i: nat, hit: Recall.Hit)
    requires FilledBy(scopes, histories, distance) && i < |scopes| && scopes[i].access.Readable? && hit in scopes[i].rows
    requires Plain(histories[i]) && Indexing(histories[i]) && Forgetting(histories[i])
    ensures Current(scopes, histories, i, hit)
    ensures exists row | row in Indexed(histories[i]) ::
              hit == Recall.Hit(row.path, row.text, distance(row.vector), row.metadata, scopes[i].name)
  {
    IndexAgrees(histories[i]);
    var rows := Indexed(histories[i]);
    var m :| 0 <= m < |scopes[i].rows| && scopes[i].rows[m] == hit;
    assert rows[m].path in Entries(histories[i]) && rows[m] in rows;
  }

  /**
   * When every put and delete of every scope reached its recall table, each hit of the fan-out
   * search is an existing entry of the readable scope it names, with that entry's current text.
   */
  lemma HitsAreCurrent(scopes: seq<Recall.Scope>, histories: seq<seq<Call>>, distance: Vector -> real,
                       hits: seq<Recall.Hit>, k: nat)
    requires FilledBy(scopes, histories, distance) && Recall.Nearest(hits, Recall.Union(scopes), k)
    requires forall calls | calls in histories :: Plain(calls) && Indexing(calls) && Forgetting(calls)
    ensures forall hit | hit in hits :: exists i :: Current(scopes, histories, i, hit)
  {
    forall hit | hit in hits ensures exists i :: Current(scopes, histories, i, hit) {
      Recall.HitInScope(scopes, hits, k, hit);
      var i :| 0 <= i < |scopes| && scopes[i].access.Readable? && hit in scopes[i].rows;
      assert histories[i] in histories;
      RowCurrent(scopes, histories, distance, i, hit);
    }
  }
}
