/** What the registry's reads and its two commands do to the tables, as functions of the tables. */
module Transactions {
  import opened Prelude
  import opened Aliases
  import opened GNodes
  import opened Tables
  import opened Validator

  /** How part of a transaction ends: with a value, with the command's own error (a refusal), or
      with any other exception (a constraint, the ledger, a row axiom). */
  datatype Attempt<+T> = Ok(value: T) | Refuse | Abort

  datatype Verdict = Applied(forest: Forest) | Refused | Aborted

  /** The committed tables and the answer. */
  datatype Result = Result(db: Registry, verdict: Verdict)

  // ---- reading a forest ----

  function ByAlias(env: Env): (GNode, GNode) -> bool { (x: GNode, y: GNode) => env.collate(x.alias, y.alias) }

  function ByEdgeId(env: Env): (Edge, Edge) -> bool { (x: Edge, y: Edge) => env.collate(x.id, y.id) }

  /** One subtree query, ordered by alias. */
  function SubtreeRows(env: Env, nodes: map<Id, GNode>, root: Alias): seq<GNode>
    requires ValidEnv(env)
  {
    SortBy(Rows(nodes, env.rowOrder(nodes, SubtreeIds(nodes, root))), ByAlias(env))
  }

  /** The rows not seen before, in order. */
  function NewRows(rows: seq<GNode>, seen: set<Id>): seq<GNode> {
    if rows == [] then []
    else if rows[0].id in seen then NewRows(rows[1..], seen)
    else [rows[0]] + NewRows(rows[1..], seen + {rows[0].id})
  }

  function RowIds(rows: seq<GNode>): set<Id> { set g | g in rows :: g.id }

  function ForestRows(env: Env, nodes: map<Id, GNode>, roots: seq<Alias>, seen: set<Id>): seq<GNode>
    requires ValidEnv(env)
  {
    if roots == [] then []
    else
      var rows := NewRows(SubtreeRows(env, nodes, roots[0]), seen);
      rows + ForestRows(env, nodes, roots[1..], seen + RowIds(rows))
  }

  function ForestEdges(env: Env, db: Registry, ids: set<Id>): seq<Edge>
    requires ValidEnv(env)
  {
    SortBy(EdgeRows(db.edges, env.edgeOrder(db.edges, ActiveEdgeIds(db.edges, ids))), ByEdgeId(env))
  }

  /** Every row and edge of a forest survives its conversion to the wire type. */
  predicate Serializable(nodes: seq<GNode>, edges: seq<Edge>) {
    (forall g :: g in nodes ==> ValidGNode(g)) && (forall e :: e in edges ==> ValidEdge(e))
  }

  /** `get_forest`; none when a row fails its axioms, which raises. */
  function GetForest(env: Env, db: Registry, roots: seq<Alias>): Option<Forest>
    requires ValidEnv(env)
  {
    var rows := ForestRows(env, db.nodes, roots, {});
    var edges := ForestEdges(env, db, RowIds(rows));
    if Serializable(rows, edges) then Some(Forest(roots, rows, edges)) else None
  }

  function AliasesOf(rows: seq<GNode>): (aliases: seq<Alias>)
    ensures |aliases| == |rows|
    ensures forall k :: 0 <= k < |rows| ==> aliases[k] == rows[k].alias
  {
    seq(|rows|, k requires 0 <= k < |rows| => rows[k].alias)
  }

  /** `forest_roots`: sorted by code points, not by the database's collation. */
  function ForestRoots(env: Env, nodes: map<Id, GNode>): seq<Alias>
    requires ValidEnv(env)
  {
    SortBy(AliasesOf(Rows(nodes, env.rowOrder(nodes, RootIds(nodes)))), StringLeq)
  }

  function RootIds(nodes: map<Id, GNode>): set<Id> {
    set i | i in nodes && IsForestRoot(nodes[i].alias)
  }

  // ---- the ledger and the unit of work ----

  /** Insert on conflict do nothing, then compare the owner read back. */
  function Claim(ledger: map<Alias, Id>, a: Alias, id: Id): Attempt<map<Alias, Id>> {
    if a !in ledger then Ok(ledger[a := id])
    else if ledger[a] == id then Ok(ledger)
    else Abort
  }

  /** The open transaction: the tables it changes, and the ids of the rows it touched, in order. */
  datatype Work = Work(nodes: map<Id, GNode>, ledger: map<Alias, Id>, updated: seq<Id>) {
    ghost predicate Valid() {
      Distinct(updated) && forall i :: i in updated ==> i in nodes
    }
  }

  predicate AliasFree(nodes: map<Id, GNode>, a: Alias, id: Id) {
    forall i :: i in nodes && i != id ==> nodes[i].alias != a
  }

  /** Adding a row, claiming its alias and flushing. */
  function Insert(db: Registry, n: GNode): (r: Attempt<Work>)
    ensures r.Ok? ==> r.value.Valid()
  {
    if n.id in db.nodes || !AliasFree(db.nodes, n.alias, n.id) then Abort
    else if n.positionPointId.Some? && n.positionPointId.value !in db.positions then Abort
    else
      match Claim(db.ledger, n.alias, n.id)
      case Ok(ledger) => Ok(Work(db.nodes[n.id := n], ledger, [n.id]))
      case _ => Abort
  }

  /** Assigning a key of an insertion-ordered dictionary. */
  function AddKey(keys: seq<Id>, id: Id): seq<Id> { if id in keys then keys else keys + [id] }

  /** One row of a rewrite: rename, flush against the unique index, claim. */
  function RenameRow(w: Work, id: Id, oldPrefix: Alias, newPrefix: Alias): (r: Attempt<Work>)
    requires w.Valid() && id in w.nodes
    ensures r.Ok? ==> r.value.Valid() && r.value.nodes.Keys == w.nodes.Keys
    ensures !r.Refuse?
  {
    var row := Renamed(w.nodes[id], oldPrefix, newPrefix);
    if !AliasFree(w.nodes, row.alias, id) then Abort
    else
      match Claim(w.ledger, row.alias, id)
      case Ok(ledger) => Ok(Work(w.nodes[id := row], ledger, AddKey(w.updated, id)))
      case _ => Abort
  }

  function RenameRows(w: Work, ids: seq<Id>, oldPrefix: Alias, newPrefix: Alias): (r: Attempt<Work>)
    requires w.Valid() && forall i :: i in ids ==> i in w.nodes
    ensures r.Ok? ==> r.value.Valid() && r.value.nodes.Keys == w.nodes.Keys
    ensures !r.Refuse?
    decreases |ids|
  {
    if ids == [] then Ok(w)
    else
      match RenameRow(w, ids[0], oldPrefix, newPrefix)
      case Ok(w') => RenameRows(w', ids[1..], oldPrefix, newPrefix)
      case _ => Abort
  }

  /** `_rewrite_prefix`: the rows are selected once, before the first rename. */
  function RewritePrefix(env: Env, w: Work, oldPrefix: Alias, newPrefix: Alias): (r: Attempt<Work>)
    requires ValidEnv(env) && w.Valid()
    ensures r.Ok? ==> r.value.Valid() && r.value.nodes.Keys == w.nodes.Keys
    ensures !r.Refuse?
  {
    RenameRows(w, env.rowOrder(w.nodes, SubtreeIds(w.nodes, oldPrefix)), oldPrefix, newPrefix)
  }

  /** The rewrite loop over the moved children, each looked up when its turn comes. */
  function MoveChildren(env: Env, w: Work, children: seq<Id>, n: Alias): (r: Attempt<Work>)
    requires ValidEnv(env) && w.Valid()
    ensures r.Ok? ==> r.value.Valid() && r.value.nodes.Keys == w.nodes.Keys
    decreases |children|
  {
    if children == [] then Ok(w)
    else if children[0] !in w.nodes then Refuse
    else
      var prior := w.nodes[children[0]].alias;
      match RewritePrefix(env, w, prior, MovedPrefix(n, prior))
      case Ok(w') => MoveChildren(env, w', children[1..], n)
      case _ => Abort
  }

  // ---- the collision pre-check ----

  /** The inner loop of the pre-check: `intended[rewrite_alias(row.alias, ...)] = row.id`. */
  function Predict(nodes: map<Id, GNode>, ids: seq<Id>, oldPrefix: Alias, newPrefix: Alias, intended: map<Alias, Id>): map<Alias, Id>
    requires forall i :: i in ids ==> i in nodes
    decreases |ids|
  {
    if ids == [] then intended
    else
      var a := RewriteAlias(nodes[ids[0]].alias, oldPrefix, newPrefix);
      Predict(nodes, ids[1..], oldPrefix, newPrefix, intended[a := ids[0]])
  }

  function Intended(env: Env, nodes: map<Id, GNode>, children: seq<Id>, n: Alias, intended: map<Alias, Id>): Attempt<map<Alias, Id>>
    requires ValidEnv(env)
    decreases |children|
  {
    if children == [] then Ok(intended)
    else if children[0] !in nodes then Refuse
    else
      var prior := nodes[children[0]].alias;
      var ids := env.rowOrder(nodes, SubtreeIds(nodes, prior));
      Intended(env, nodes, children[1..], n, Predict(nodes, ids, prior, MovedPrefix(n, prior), intended))
  }

  /** Some intended alias is permanently owned by another id. */
  predicate Collides(ledger: map<Alias, Id>, intended: map<Alias, Id>) {
    exists a :: a in intended && a in ledger && ledger[a] != intended[a]
  }

  // ---- the commands ----

  /** A command already in the log is answered with the current forest. */
  function Repeat(env: Env, db: Registry, a: Alias): Result
    requires ValidEnv(env)
  {
    match GetForest(env, db, [a])
    case Some(f) => Result(db, Applied(f))
    case None => Result(db, Aborted)
  }

  ghost predicate ParentAdmits(nodes: map<Id, GNode>, a: Alias) {
    var p := RowAt(nodes, ParentAlias(a));
    p.Some? && (p.value.status.Pending? || p.value.status.Active?)
  }

  ghost function ApplyCreate(env: Env, db: Registry, cmd: Command): Result
    requires ValidEnv(env) && cmd.CreateCmd?
  {
    var n := cmd.newNode;
    if !env.proofOk(cmd.proof) then Result(db, Refused)
    else if cmd in db.log then Repeat(env, db, n.alias)
    else if UniverseOf(n.alias) != env.universe then Result(db, Refused)
    else if n.id in db.nodes then Result(db, Refused)
    else if n.alias in db.ledger && db.ledger[n.alias] != n.id then Result(db, Refused)
    else if !IsForestRoot(n.alias) && !ParentAdmits(db.nodes, n.alias) then Result(db, Refused)
    else
      match Insert(db, n)
      case Refuse => Result(db, Refused)
      case Abort => Result(db, Aborted)
      case Ok(w) =>
        if !Clean(w.nodes, db.edges, db.positions, env.universe) then Result(db, Refused)
        else if !Serializable([w.nodes[n.id]], []) then Result(db, Aborted)
        else Result(Committed(db, w, cmd), Applied(Forest([n.alias], [w.nodes[n.id]], [])))
  }

  function Committed(db: Registry, w: Work, cmd: Command): Registry {
    db.(nodes := w.nodes, ledger := w.ledger, log := db.log + [cmd])
  }

  /** Validating, assembling the broadcast and committing a re-parent. */
  ghost function FinishReparent(env: Env, db: Registry, cmd: Command, w: Work): Result
    requires ValidEnv(env) && w.Valid()
  {
    var rows := Rows(w.nodes, w.updated);
    var edges := EdgeRows(db.edges, env.edgeOrder(db.edges, ActiveEdgeIds(db.edges, Members(w.updated))));
    if !Clean(w.nodes, db.edges, db.positions, env.universe) then Result(db, Refused)
    else if !Serializable(rows, edges) then Result(db, Aborted)
    else Result(Committed(db, w, cmd), Applied(Forest([cmd.newNode.alias], rows, edges)))
  }

  /** Inserting N and rewriting the moved subtrees. */
  function Rewritten(env: Env, db: Registry, cmd: Command): (r: Attempt<Work>)
    requires ValidEnv(env) && cmd.ReparentCmd?
    ensures r.Ok? ==> r.value.Valid()
  {
    match Insert(db, cmd.newNode)
    case Ok(w) => MoveChildren(env, w, cmd.movedChildIds, cmd.newNode.alias)
    case Refuse => Refuse
    case Abort => Abort
  }

  ghost function ApplyReparent(env: Env, db: Registry, cmd: Command): Result
    requires ValidEnv(env) && cmd.ReparentCmd?
  {
    var n := cmd.newNode;
    if !env.proofOk(cmd.proof) then Result(db, Refused)
    else if cmd in db.log then Repeat(env, db, n.alias)
    else if UniverseOf(n.alias) != env.universe then Result(db, Refused)
    else if IsForestRoot(n.alias) then Result(db, Refused)
    else if RowAt(db.nodes, ParentAlias(n.alias)).None? then Result(db, Refused)
    else
      var intended := Intended(env, db.nodes, cmd.movedChildIds, n.alias, map[n.alias := n.id]);
      if !intended.Ok? then Result(db, Refused)
      else if Collides(db.ledger, intended.value) then Result(db, Refused)
      else
        match Rewritten(env, db, cmd)
        case Refuse => Result(db, Refused)
        case Abort => Result(db, Aborted)
        case Ok(w) => FinishReparent(env, db, cmd, w)
  }

  /** One command. */
  ghost function Step(env: Env, db: Registry, cmd: Command): Result
    requires ValidEnv(env)
  {
    if cmd.CreateCmd? then ApplyCreate(env, db, cmd) else ApplyReparent(env, db, cmd)
  }
}
