/** What every command keeps, whatever it names: the reachable-state invariant, the permanence of
    rows and of alias ownership, and the completeness of broadcasts. */
module Invariants {
  import opened Prelude
  import opened Aliases
  import opened GNodes
  import opened Tables
  import opened Validator
  import opened Transactions

  /** Every live alias is owned in the ledger by the row that holds it. */
  ghost predicate LedgerOwned(nodes: map<Id, GNode>, ledger: map<Alias, Id>) {
    forall i :: i in nodes ==> nodes[i].alias in ledger && ledger[nodes[i].alias] == i
  }

  ghost predicate RowsValid(nodes: map<Id, GNode>) {
    forall i :: i in nodes ==> ValidGNode(nodes[i])
  }

  /** The invariant of every registry reached from a sound one. */
  ghost predicate Sound(db: Registry) {
    && Constraints(db)
    && LedgerOwned(db.nodes, db.ledger)
    && RowsValid(db.nodes)
    && (forall k :: k in db.edges ==> ValidEdge(db.edges[k]))
  }

  /** Everything but the aliases. */
  predicate SameIdentity(g: GNode, h: GNode) {
    g == h.(alias := g.alias, prevAlias := g.prevAlias)
  }

  /** Rows, owners and log entries are only ever added; a row keeps all but its aliases. */
  ghost predicate Extends(db: Registry, db': Registry) {
    && (forall i :: i in db.nodes ==> i in db'.nodes && SameIdentity(db.nodes[i], db'.nodes[i]))
    && (forall a :: a in db.ledger ==> a in db'.ledger && db'.ledger[a] == db.ledger[a])
    && db.log <= db'.log
    && db'.edges == db.edges && db'.positions == db.positions
  }

  lemma ExtendsTransitive(a: Registry, b: Registry, c: Registry)
    requires Extends(a, b) && Extends(b, c)
    ensures Extends(a, c)
  {}

  /** A forest shows, in their current form, at least all rows that changed from `db` to `db'`. */
  ghost predicate Shows(forest: Forest, db: Registry, db': Registry) {
    && (forall g :: g in forest.nodes ==> g.id in db'.nodes && db'.nodes[g.id] == g)
    && (forall i :: i in db'.nodes ==> (i in db.nodes && db.nodes[i] == db'.nodes[i]) || db'.nodes[i] in forest.nodes)
  }

  // ---- one row at a time ----

  /** The invariant of an open transaction. */
  ghost predicate WorkSound(w: Work) {
    && w.Valid() && KeyedById(w.nodes) && UniqueAliases(w.nodes) && LedgerOwned(w.nodes, w.ledger)
    && (forall a :: a in w.ledger ==> w.ledger[a] in w.nodes)
  }

  /** What renames do to the tables, whichever rows they touch. */
  ghost predicate Advances(w: Work, w': Work) {
    && w'.nodes.Keys == w.nodes.Keys
    && (forall i :: i in w.nodes ==> SameIdentity(w.nodes[i], w'.nodes[i]))
    && (forall i :: i in w.nodes && w.nodes[i] != w'.nodes[i] ==> i in w'.updated)
    && (forall i :: i in w.updated ==> i in w'.updated)
    && (forall a :: a in w.ledger ==> a in w'.ledger && w'.ledger[a] == w.ledger[a])
  }

  lemma RenameRowAdvances(w: Work, id: Id, oldPrefix: Alias, newPrefix: Alias)
    requires WorkSound(w) && id in w.nodes
    requires RenameRow(w, id, oldPrefix, newPrefix).Ok?
    ensures var w' := RenameRow(w, id, oldPrefix, newPrefix).value; WorkSound(w') && Advances(w, w')
  {}

  lemma {:induction false} RenameRowsAdvances(w: Work, ids: seq<Id>, oldPrefix: Alias, newPrefix: Alias)
    requires WorkSound(w) && forall i :: i in ids ==> i in w.nodes
    requires RenameRows(w, ids, oldPrefix, newPrefix).Ok?
    ensures var w' := RenameRows(w, ids, oldPrefix, newPrefix).value; WorkSound(w') && Advances(w, w')
    decreases |ids|
  {
    if ids != [] {
      RenameRowAdvances(w, ids[0], oldPrefix, newPrefix);
      var w1 := RenameRow(w, ids[0], oldPrefix, newPrefix).value;
      RenameRowsAdvances(w1, ids[1..], oldPrefix, newPrefix);
    }
  }

  lemma {:induction false} MoveChildrenAdvances(env: Env, w: Work, children: seq<Id>, n: Alias)
    requires ValidEnv(env) && WorkSound(w)
    requires MoveChildren(env, w, children, n).Ok?
    ensures var w' := MoveChildren(env, w, children, n).value; WorkSound(w') && Advances(w, w')
    decreases |children|
  {
    if children != [] {
      var prior := w.nodes[children[0]].alias;
      var ids := env.rowOrder(w.nodes, SubtreeIds(w.nodes, prior));
      RenameRowsAdvances(w, ids, prior, MovedPrefix(n, prior));
      MoveChildrenAdvances(env, RewritePrefix(env, w, prior, MovedPrefix(n, prior)).value, children[1..], n);
    }
  }

  /** The transaction right after N was added. */
  ghost predicate Inserted(db: Registry, n: GNode, w: Work) {
    && n.id !in db.nodes && w.nodes == db.nodes[n.id := n] && w.updated == [n.id]
    && (n.positionPointId.Some? ==> n.positionPointId.value in db.positions)
    && AliasFree(db.nodes, n.alias, n.id)
    && (n.alias in db.ledger ==> db.ledger[n.alias] == n.id)
    && w.ledger == db.ledger[n.alias := n.id]
  }

  lemma InsertSound(db: Registry, n: GNode)
    requires Constraints(db) && LedgerOwned(db.nodes, db.ledger)
    requires Insert(db, n).Ok?
    ensures WorkSound(Insert(db, n).value) && Inserted(db, n, Insert(db, n).value)
  {}

  lemma RewrittenSound(env: Env, db: Registry, cmd: Command)
    requires ValidEnv(env) && Constraints(db) && LedgerOwned(db.nodes, db.ledger)
    requires cmd.ReparentCmd? && Rewritten(env, db, cmd).Ok?
    ensures Insert(db, cmd.newNode).Ok?
    ensures var w0, w := Insert(db, cmd.newNode).value, Rewritten(env, db, cmd).value;
            Inserted(db, cmd.newNode, w0) && WorkSound(w) && Advances(w0, w)
  {
    InsertSound(db, cmd.newNode);
    MoveChildrenAdvances(env, Insert(db, cmd.newNode).value, cmd.movedChildIds, cmd.newNode.alias);
  }

  // ---- a forest read ----

  lemma {:induction false} NewRowsAre(rows: seq<GNode>, seen: set<Id>)
    ensures forall g :: g in NewRows(rows, seen) ==> g in rows && g.id !in seen
    ensures forall g :: g in rows && g.id !in seen ==> g.id in RowIds(NewRows(rows, seen))
    ensures forall i, j :: 0 <= i < j < |NewRows(rows, seen)| ==> NewRows(rows, seen)[i].id != NewRows(rows, seen)[j].id
  {
    if rows != [] {
      if rows[0].id in seen {
        NewRowsAre(rows[1..], seen);
      } else {
        NewRowsAre(rows[1..], seen + {rows[0].id});
        var rest := NewRows(rows[1..], seen + {rows[0].id});
        assert NewRows(rows, seen) == [rows[0]] + rest;
        assert forall g :: g in rows ==> g == rows[0] || g in rows[1..];
        assert forall j :: 0 <= j < |rest| ==> rest[j] in rest;
        forall g | g in rows && g.id !in seen ensures g.id in RowIds(NewRows(rows, seen)) {
          if g.id == rows[0].id {
            assert rows[0] in NewRows(rows, seen);
          } else {
            var h :| h in rest && h.id == g.id;
            assert h in NewRows(rows, seen);
          }
        }
      }
    }
  }

  lemma SubtreeRowsAre(env: Env, nodes: map<Id, GNode>, root: Alias)
    requires ValidEnv(env)
    ensures forall g :: g in SubtreeRows(env, nodes, root) <==> exists i :: i in SubtreeIds(nodes, root) && nodes[i] == g
  {
    var ids := env.rowOrder(nodes, SubtreeIds(nodes, root));
    var rows := Rows(nodes, ids);
    SortByPermutes(rows, ByAlias(env));
    forall g ensures g in SubtreeRows(env, nodes, root) <==> exists i :: i in SubtreeIds(nodes, root) && nodes[i] == g {
      if g in rows {
        var k :| 0 <= k < |rows| && rows[k] == g;
        assert ids[k] in ids;
      }
      if i :| i in SubtreeIds(nodes, root) && nodes[i] == g {
        assert i in ids;
        var k :| 0 <= k < |ids| && ids[k] == i;
        assert rows[k] == g;
      }
    }
  }

  /** Some root's subtree holds the alias. */
  predicate Requested(a: Alias, roots: seq<Alias>) {
    exists r :: r in roots && InSubtree(a, r)
  }

  lemma FirstRowsAre(nodes: map<Id, GNode>, root: Alias, sub: seq<GNode>, seen: set<Id>)
    requires KeyedById(nodes)
    requires forall g :: g in sub <==> exists i :: i in SubtreeIds(nodes, root) && nodes[i] == g
    ensures forall g :: g in NewRows(sub, seen) <==>
              g.id in nodes && nodes[g.id] == g && g.id !in seen && InSubtree(g.alias, root)
  {
    NewRowsAre(sub, seen);
    forall g: GNode | g.id in nodes && nodes[g.id] == g && g.id !in seen && InSubtree(g.alias, root)
      ensures g in NewRows(sub, seen)
    {
      assert g.id in SubtreeIds(nodes, root);
      assert g in sub;
      var h :| h in NewRows(sub, seen) && h.id == g.id;
      assert h in sub;
    }
  }

  /** The requested rows not yet seen, in some order, each once. */
  ghost predicate ListsRequested(rows: seq<GNode>, nodes: map<Id, GNode>, roots: seq<Alias>, seen: set<Id>) {
    && (forall g :: g in rows <==> g.id in nodes && nodes[g.id] == g && g.id !in seen && Requested(g.alias, roots))
    && (forall i, j :: 0 <= i < j < |rows| ==> rows[i].id != rows[j].id)
  }

  lemma RequestedTurn(a: Alias, roots: seq<Alias>)
    requires roots != []
    ensures Requested(a, roots) <==> InSubtree(a, roots[0]) || Requested(a, roots[1..])
  {
    assert forall r :: r in roots <==> r == roots[0] || r in roots[1..];
  }

  lemma ConcatDistinctIds(first: seq<GNode>, rest: seq<GNode>)
    requires forall i, j :: 0 <= i < j < |first| ==> first[i].id != first[j].id
    requires forall i, j :: 0 <= i < j < |rest| ==> rest[i].id != rest[j].id
    requires forall g :: g in rest ==> g.id !in RowIds(first)
    ensures var rows := first + rest; forall i, j :: 0 <= i < j < |rows| ==> rows[i].id != rows[j].id
  {
    var rows := first + rest;
    forall i, j | 0 <= i < j < |rows| ensures rows[i].id != rows[j].id {
      if i < |first| <= j {
        assert rows[i] in first && rows[j] == rest[j - |first|] && rest[j - |first|] in rest;
        assert rows[i].id in RowIds(first);
      }
    }
  }

  lemma ListedConcat(first: seq<GNode>, rest: seq<GNode>, nodes: map<Id, GNode>, roots: seq<Alias>, seen: set<Id>)
    requires roots != []
    requires forall g :: g in first <==> g.id in nodes && nodes[g.id] == g && g.id !in seen && InSubtree(g.alias, roots[0])
    requires forall i, j :: 0 <= i < j < |first| ==> first[i].id != first[j].id
    requires ListsRequested(rest, nodes, roots[1..], seen + RowIds(first))
    ensures ListsRequested(first + rest, nodes, roots, seen)
  {
    ConcatDistinctIds(first, rest);
    forall g ensures g in first + rest <==> g.id in nodes && nodes[g.id] == g && g.id !in seen && Requested(g.alias, roots) {
      RequestedTurn(g.alias, roots);
      if g.id in nodes && nodes[g.id] == g && g.id in RowIds(first) {
        var h :| h in first && h.id == g.id;
      }
    }
  }

  /** A forest's rows are the requested rows not yet seen, each once. */
  lemma {:induction false} ForestRowsAre(env: Env, nodes: map<Id, GNode>, roots: seq<Alias>, seen: set<Id>)
    requires ValidEnv(env) && KeyedById(nodes)
    ensures ListsRequested(ForestRows(env, nodes, roots, seen), nodes, roots, seen)
    decreases |roots|
  {
    if roots != [] {
      var sub := SubtreeRows(env, nodes, roots[0]);
      var first := NewRows(sub, seen);
      SubtreeRowsAre(env, nodes, roots[0]);
      NewRowsAre(sub, seen);
      FirstRowsAre(nodes, roots[0], sub, seen);
      ForestRowsAre(env, nodes, roots[1..], seen + RowIds(first));
      ListedConcat(first, ForestRows(env, nodes, roots[1..], seen + RowIds(first)), nodes, roots, seen);
    }
  }

  lemma ForestShows(env: Env, db: Registry, roots: seq<Alias>)
    requires ValidEnv(env) && Constraints(db)
    requires GetForest(env, db, roots).Some?
    ensures Shows(GetForest(env, db, roots).value, db, db)
  {
    ForestRowsAre(env, db.nodes, roots, {});
  }

  // ---- every command ----

  lemma CreateApplied(env: Env, db: Registry, cmd: Command)
    requires ValidEnv(env) && cmd.CreateCmd? && cmd !in db.log
    requires ApplyCreate(env, db, cmd).verdict.Applied?
    ensures var n := cmd.newNode;
            && Insert(db, n).Ok? && n.id !in db.nodes && ValidGNode(n)
            && UniverseOf(n.alias) == env.universe
            && (IsForestRoot(n.alias) || ParentAdmits(db.nodes, n.alias))
            && Clean(Insert(db, n).value.nodes, db.edges, db.positions, env.universe)
            && ApplyCreate(env, db, cmd) == Result(Committed(db, Insert(db, n).value, cmd), Applied(Forest([n.alias], [n], [])))
  {
    var n := cmd.newNode;
    var g := Insert(db, n).value.nodes[n.id];
    assert g in [g];
  }

  lemma ReparentApplied(env: Env, db: Registry, cmd: Command)
    requires ValidEnv(env) && cmd.ReparentCmd? && cmd !in db.log
    requires ApplyReparent(env, db, cmd).verdict.Applied?
    ensures var n := cmd.newNode;
            var intended := Intended(env, db.nodes, cmd.movedChildIds, n.alias, map[n.alias := n.id]);
            && env.proofOk(cmd.proof) && UniverseOf(n.alias) == env.universe && !IsForestRoot(n.alias)
            && RowAt(db.nodes, ParentAlias(n.alias)).Some?
            && intended.Ok? && !Collides(db.ledger, intended.value)
    ensures Rewritten(env, db, cmd).Ok?
    ensures var w := Rewritten(env, db, cmd).value;
            && Clean(w.nodes, db.edges, db.positions, env.universe)
            && Serializable(Rows(w.nodes, w.updated),
                 EdgeRows(db.edges, env.edgeOrder(db.edges, ActiveEdgeIds(db.edges, Members(w.updated)))))
            && ApplyReparent(env, db, cmd).db == Committed(db, w, cmd)
            && ApplyReparent(env, db, cmd).verdict.forest.nodes == Rows(w.nodes, w.updated)
            && ApplyReparent(env, db, cmd) == FinishReparent(env, db, cmd, w)
  {}

  lemma NotAppliedUnchanged(env: Env, db: Registry, cmd: Command)
    requires ValidEnv(env)
    ensures !Step(env, db, cmd).verdict.Applied? ==> Step(env, db, cmd).db == db
  {}

  lemma AppliedRepeat(env: Env, db: Registry, cmd: Command)
    requires ValidEnv(env) && cmd in db.log && Step(env, db, cmd).verdict.Applied?
    ensures GetForest(env, db, [cmd.newNode.alias]).Some?
    ensures Step(env, db, cmd) == Result(db, Applied(GetForest(env, db, [cmd.newNode.alias]).value))
  {}

  /** Whatever a command names, its outcome extends the tables, keeps them sound, and shows every
      changed row; a refused or aborted command changes nothing. */
  lemma StepKeepsSound(env: Env, db: Registry, cmd: Command)
    requires ValidEnv(env) && Sound(db)
    ensures var r := Step(env, db, cmd);
            && Sound(r.db) && Extends(db, r.db)
            && (!r.verdict.Applied? ==> r.db == db)
            && (r.verdict.Applied? ==> Shows(r.verdict.forest, db, r.db))
            && (r.verdict.Applied? ==> r.db.log == if cmd in db.log then db.log else db.log + [cmd])
  {
    NotAppliedUnchanged(env, db, cmd);
    if Step(env, db, cmd).verdict.Applied? {
      if cmd in db.log {
        AppliedRepeat(env, db, cmd);
        ForestShows(env, db, [cmd.newNode.alias]);
      } else if cmd.CreateCmd? {
        CreateKeepsSound(env, db, cmd);
      } else {
        ReparentKeepsSound(env, db, cmd);
      }
    }
  }

  /** What the open transaction may commit over. */
  ghost predicate Committable(db: Registry, w: Work) {
    && (forall i :: i in db.nodes ==> i in w.nodes && SameIdentity(db.nodes[i], w.nodes[i]))
    && (forall i :: i in w.nodes ==> i in w.updated || (i in db.nodes && db.nodes[i] == w.nodes[i]))
    && (forall i :: i in w.nodes && w.nodes[i].positionPointId.Some? ==> w.nodes[i].positionPointId.value in db.positions)
    && (forall a :: a in db.ledger ==> a in w.ledger && w.ledger[a] == db.ledger[a])
  }

  lemma PositionsStay(db: Registry, w0: Work, w: Work, n: GNode)
    requires Constraints(db) && Inserted(db, n, w0) && Advances(w0, w)
    ensures forall i :: i in w.nodes && w.nodes[i].positionPointId.Some? ==> w.nodes[i].positionPointId.value in db.positions
  {
    forall i | i in w.nodes && w.nodes[i].positionPointId.Some?
      ensures w.nodes[i].positionPointId.value in db.positions
    {
      var g := w0.nodes[i];
      assert SameIdentity(g, w.nodes[i]);
      assert g.positionPointId == w.nodes[i].positionPointId;
    }
  }

  lemma RewriteCommittable(db: Registry, w0: Work, w: Work, n: GNode)
    requires Constraints(db) && Inserted(db, n, w0) && Advances(w0, w)
    ensures Committable(db, w)
  {
    assert n.id in w0.updated && n.id in w0.nodes;
    assert forall i :: i in db.nodes ==> i in w0.nodes && w0.nodes[i] == db.nodes[i];
    PositionsStay(db, w0, w, n);
    assert forall a :: a in db.ledger ==> a in w0.ledger && w0.ledger[a] == db.ledger[a];
  }

  /** Committing sound work whose touched rows are valid, and publishing those rows. */
  lemma CommitSound(db: Registry, w: Work, cmd: Command, forest: Forest)
    requires Sound(db) && WorkSound(w) && Committable(db, w)
    requires forest.nodes == Rows(w.nodes, w.updated) && forall g :: g in forest.nodes ==> ValidGNode(g)
    ensures var db' := Committed(db, w, cmd); Sound(db') && Extends(db, db') && Shows(forest, db, db')
  {
    RowsAreUpdated(w);
    CommittedConstraints(db, w, cmd);
    CommittedExtends(db, w, cmd);
    assert forall i :: i in w.nodes ==> (i in db.nodes && db.nodes[i] == w.nodes[i]) || w.nodes[i] in forest.nodes;
    assert RowsValid(w.nodes);
  }

  lemma CommittedExtends(db: Registry, w: Work, cmd: Command)
    requires Committable(db, w)
    ensures Extends(db, Committed(db, w, cmd))
  {}

  lemma CommittedConstraints(db: Registry, w: Work, cmd: Command)
    requires Constraints(db) && WorkSound(w) && Committable(db, w)
    ensures Constraints(Committed(db, w, cmd))
  {}

  lemma CreateKeepsSound(env: Env, db: Registry, cmd: Command)
    requires ValidEnv(env) && Sound(db) && cmd.CreateCmd? && cmd !in db.log
    requires ApplyCreate(env, db, cmd).verdict.Applied?
    ensures var r := ApplyCreate(env, db, cmd);
            Sound(r.db) && Extends(db, r.db) && Shows(r.verdict.forest, db, r.db) && r.db.log == db.log + [cmd]
  {
    CreateApplied(env, db, cmd);
    InsertSound(db, cmd.newNode);
    var w := Insert(db, cmd.newNode).value;
    assert Rows(w.nodes, w.updated) == [cmd.newNode];
    RewriteCommittable(db, w, w, cmd.newNode);
    CommitSound(db, w, cmd, ApplyCreate(env, db, cmd).verdict.forest);
  }

  lemma ReparentKeepsSound(env: Env, db: Registry, cmd: Command)
    requires ValidEnv(env) && Sound(db) && cmd.ReparentCmd? && cmd !in db.log
    requires ApplyReparent(env, db, cmd).verdict.Applied?
    ensures var r := ApplyReparent(env, db, cmd);
            Sound(r.db) && Extends(db, r.db) && Shows(r.verdict.forest, db, r.db) && r.db.log == db.log + [cmd]
  {
    ReparentApplied(env, db, cmd);
    RewrittenSound(env, db, cmd);
    var w0, w := Insert(db, cmd.newNode).value, Rewritten(env, db, cmd).value;
    RewriteCommittable(db, w0, w, cmd.newNode);
    CommitSound(db, w, cmd, ApplyReparent(env, db, cmd).verdict.forest);
  }

  lemma RowsAreUpdated(w: Work)
    requires w.Valid() && KeyedById(w.nodes)
    ensures forall i :: i in w.updated ==> w.nodes[i] in Rows(w.nodes, w.updated)
    ensures forall g :: g in Rows(w.nodes, w.updated) ==> g.id in w.updated && w.nodes[g.id] == g
  {
    var rows := Rows(w.nodes, w.updated);
    forall i | i in w.updated ensures w.nodes[i] in rows {
      var k :| 0 <= k < |w.updated| && w.updated[k] == i;
      assert rows[k] == w.nodes[i];
    }
    forall g | g in rows ensures g.id in w.updated && w.nodes[g.id] == g {
      var k :| 0 <= k < |rows| && rows[k] == g;
      assert w.updated[k] in w.updated;
    }
  }
}
