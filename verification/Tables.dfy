/** The five tables as one value, their declared constraints, and the row sets queries select. */
module Tables {
  import opened Prelude
  import opened Aliases
  import opened GNodes

  datatype Registry = Registry(
    nodes: map<Id, GNode>,
    ledger: map<Alias, Id>,
    log: seq<Command>,
    edges: map<Id, Edge>,
    positions: set<Id>)

  /** No rows but the registered positions: where a rebuild starts. */
  function Empty(positions: set<Id>): Registry {
    Registry(map[], map[], [], map[], positions)
  }

  ghost predicate UniqueAliases(nodes: map<Id, GNode>) {
    forall i, j :: i in nodes && j in nodes && nodes[i].alias == nodes[j].alias ==> i == j
  }

  ghost predicate KeyedById(nodes: map<Id, GNode>) {
    forall i :: i in nodes ==> nodes[i].id == i
  }

  /** The keys, unique indexes and foreign keys the schema declares. */
  ghost predicate Constraints(db: Registry) {
    && KeyedById(db.nodes)
    && UniqueAliases(db.nodes)
    && (forall i :: i in db.nodes && db.nodes[i].positionPointId.Some? ==>
          db.nodes[i].positionPointId.value in db.positions)
    && (forall a :: a in db.ledger ==> db.ledger[a] in db.nodes)
    && (forall k :: k in db.edges ==> db.edges[k].id == k)
    && (forall k :: k in db.edges ==> db.edges[k].fromId in db.nodes && db.edges[k].toId in db.nodes)
  }

  // ---- queries ----

  /** `filter_by(alias=a).one_or_none()`; the unique index makes the row the only one. */
  ghost function RowAt(nodes: map<Id, GNode>, a: Alias): (r: Option<GNode>)
    ensures r.Some? ==> exists i :: i in nodes && nodes[i] == r.value && r.value.alias == a
    ensures r.None? ==> forall i :: i in nodes ==> nodes[i].alias != a
  {
    if exists i :: i in nodes && nodes[i].alias == a then
      var i :| i in nodes && nodes[i].alias == a;
      Some(nodes[i])
    else None
  }

  lemma RowAtIs(nodes: map<Id, GNode>, i: Id)
    requires UniqueAliases(nodes) && i in nodes
    ensures RowAt(nodes, nodes[i].alias) == Some(nodes[i])
  {}

  /** The rows at or below an alias. */
  function SubtreeIds(nodes: map<Id, GNode>, p: Alias): set<Id> {
    set i | i in nodes && InSubtree(nodes[i].alias, p)
  }

  /** The active edges with both ends among `ids`. */
  function ActiveEdgeIds(edges: map<Id, Edge>, ids: set<Id>): set<Id> {
    set k | k in edges && edges[k].status.Active? && edges[k].fromId in ids && edges[k].toId in ids
  }

  function Rows(nodes: map<Id, GNode>, ids: seq<Id>): (rows: seq<GNode>)
    requires forall i :: i in ids ==> i in nodes
    ensures |rows| == |ids|
    ensures forall k :: 0 <= k < |ids| ==> rows[k] == nodes[ids[k]]
  {
    seq(|ids|, k requires 0 <= k < |ids| => nodes[ids[k]])
  }

  function EdgeRows(edges: map<Id, Edge>, ids: seq<Id>): (rows: seq<Edge>)
    requires forall i :: i in ids ==> i in edges
    ensures |rows| == |ids|
    ensures forall k :: 0 <= k < |ids| ==> rows[k] == edges[ids[k]]
  {
    seq(|ids|, k requires 0 <= k < |ids| => edges[ids[k]])
  }

  /** What the server runs with: its universe, its proof gate, the database's collation, and the
      order in which a query without ORDER BY returns the rows it selects, a fixed function of the
      table and the selection that is otherwise arbitrary. */
  datatype Env = Env(
    universe: string,
    proofOk: Option<string> -> bool,
    collate: (string, string) -> bool,
    rowOrder: (map<Id, GNode>, set<Id>) -> seq<Id>,
    edgeOrder: (map<Id, Edge>, set<Id>) -> seq<Id>)

  ghost predicate ValidEnv(env: Env) {
    && TotalOrder(env.collate)
    && (forall nodes, ids {:trigger env.rowOrder(nodes, ids)} :: Enumerates(env.rowOrder(nodes, ids), ids))
    && (forall edges, ids {:trigger env.edgeOrder(edges, ids)} :: Enumerates(env.edgeOrder(edges, ids), ids))
  }
}
