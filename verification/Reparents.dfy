/** Well-formed re-parents as whole commands: exact results, exact conditions. */
module Reparents {
  import opened Prelude
  import opened Aliases
  import opened Paths
  import opened GNodes
  import opened Tables
  import opened Validator
  import opened Transactions
  import opened Invariants
  import opened Rewriting

  ghost function Parent(cmd: Command): Alias { ParentAlias(cmd.newNode.alias) }

  /** The tree a well-formed re-parent leads to: N inserted, all moved subtrees relocated at once. */
  ghost function Target(nodes: map<Id, GNode>, cmd: Command): map<Id, GNode>
    requires cmd.ReparentCmd?
  {
    Relocated(nodes, MovedIds(nodes, cmd.movedChildIds), Parent(cmd), cmd.newNode.alias)[cmd.newNode.id := cmd.newNode]
  }

  /** The claims of a well-formed re-parent: N's alias for N, and each moved row's new alias for it. */
  ghost predicate TargetClaims(m: map<Alias, Id>, nodes: map<Id, GNode>, cmd: Command)
    requires cmd.ReparentCmd?
  {
    var n, moved := cmd.newNode, MovedIds(nodes, cmd.movedChildIds);
    && n.alias in m && m[n.alias] == n.id
    && Claims(m, nodes, moved, Parent(cmd), n.alias)
    && (forall a :: a in m ==> a == n.alias || exists i :: i in moved && a == RewriteAlias(nodes[i].alias, Parent(cmd), n.alias))
  }

  predicate PositionResolves(db: Registry, n: GNode) {
    n.positionPointId.Some? ==> n.positionPointId.value in db.positions
  }

  function Prediction(env: Env, db: Registry, cmd: Command): Attempt<map<Alias, Id>>
    requires ValidEnv(env) && cmd.ReparentCmd?
  {
    Intended(env, db.nodes, cmd.movedChildIds, cmd.newNode.alias, map[cmd.newNode.alias := cmd.newNode.id])
  }

  // ---- the pre-check is exact ----

  lemma PredictionIs(env: Env, db: Registry, cmd: Command)
    requires ValidEnv(env) && Sound(db) && cmd.ReparentCmd? && ChildrenOf(db.nodes, cmd.movedChildIds, Parent(cmd))
    ensures Prediction(env, db, cmd).Ok? && TargetClaims(Prediction(env, db, cmd).value, db.nodes, cmd)
  {
    var n, e := cmd.newNode, Parent(cmd);
    IntendedIs(env, db.nodes, cmd.movedChildIds, n.alias, map[n.alias := n.id], e);
    MovedRowsBelow(db.nodes, cmd.movedChildIds, e);
    forall i | i in MovedIds(db.nodes, cmd.movedChildIds) ensures RewriteAlias(db.nodes[i].alias, e, n.alias) != n.alias {
      BelowSuffix(db.nodes[i].alias, e);
    }
  }

  /** Two predictions of one command are the same map, whatever the row orders. */
  lemma ClaimsUnique(m: map<Alias, Id>, m': map<Alias, Id>, nodes: map<Id, GNode>, cmd: Command)
    requires cmd.ReparentCmd? && TargetClaims(m, nodes, cmd) && TargetClaims(m', nodes, cmd)
    ensures m == m'
  {}

  lemma InsertSucceeds(db: Registry, cmd: Command, claims: map<Alias, Id>)
    requires Sound(db) && WellFormed(db.nodes, cmd) && TargetClaims(claims, db.nodes, cmd)
    requires Agree(db.ledger, claims) && PositionResolves(db, cmd.newNode)
    ensures Insert(db, cmd.newNode).Ok? && Agree(Insert(db, cmd.newNode).value.ledger, claims)
  {
    var n := cmd.newNode;
    assert n.alias !in db.ledger;
  }

  lemma NothingMovedYet(db: Registry, cmd: Command, w: Work)
    requires WellFormed(db.nodes, cmd) && Inserted(db, cmd.newNode, w)
    ensures MovedSoFar(w, db.nodes, {}, cmd.newNode, Parent(cmd))
  {
    assert Relocated(db.nodes, {}, Parent(cmd), cmd.newNode.alias) == db.nodes;
  }

  lemma InsertStartsLoop(env: Env, db: Registry, cmd: Command, w: Work)
    requires ValidEnv(env) && Sound(db) && WellFormed(db.nodes, cmd) && ValidCommand(cmd)
    requires Inserted(db, cmd.newNode, w) && WorkSound(w)
    ensures Loop(env, w, cmd.movedChildIds, db.nodes, {}, cmd.newNode, Parent(cmd))
  {
    NothingMovedYet(db, cmd, w);
    forall c | c in cmd.movedChildIds ensures db.nodes[c].alias != cmd.newNode.alias {
      assert c in db.nodes;
    }
  }

  /** The pre-check predicts the rewrite exactly: every later claim and flush gets through if and
      only if it found no collision (and N's position exists), and then the claims made are the
      predicted ones and the rows are the simultaneous rewrite. */
  lemma PrecheckExact(env: Env, db: Registry, cmd: Command)
    requires ValidEnv(env) && Sound(db) && WellFormed(db.nodes, cmd) && ValidCommand(cmd)
    ensures Prediction(env, db, cmd).Ok?
    ensures Rewritten(env, db, cmd).Ok? <==>
              !Collides(db.ledger, Prediction(env, db, cmd).value) && PositionResolves(db, cmd.newNode)
    ensures Rewritten(env, db, cmd).Ok? ==>
              var w := Rewritten(env, db, cmd).value;
              && w.nodes == Target(db.nodes, cmd)
              && w.ledger == db.ledger + Prediction(env, db, cmd).value
              && Members(w.updated) == MovedIds(db.nodes, cmd.movedChildIds) + {cmd.newNode.id}
              && WorkSound(w)
  {
    PredictionIs(env, db, cmd);
    var n, m := cmd.newNode, Prediction(env, db, cmd).value;
    AgreeIffNoCollision(db.ledger, m);
    if Agree(db.ledger, m) && PositionResolves(db, n) { InsertSucceeds(db, cmd, m); }
    if Insert(db, n).Ok? {
      InsertSound(db, n);
      InsertStartsLoop(env, db, cmd, Insert(db, n).value);
      MoveChildrenIs(env, Insert(db, n).value, cmd.movedChildIds, db.nodes, {}, n, Parent(cmd), m);
      if Rewritten(env, db, cmd).Ok? { RewrittenIs(db, cmd, m, Insert(db, n).value, Rewritten(env, db, cmd).value); }
    }
  }

  lemma RewrittenIs(db: Registry, cmd: Command, m: map<Alias, Id>, w0: Work, w: Work)
    requires cmd.ReparentCmd? && TargetClaims(m, db.nodes, cmd) && Inserted(db, cmd.newNode, w0)
    requires LoopDone(w0, w, cmd.movedChildIds, db.nodes, {}, cmd.newNode, Parent(cmd))
    ensures w.nodes == Target(db.nodes, cmd) && w.ledger == db.ledger + m && Agree(db.ledger, m)
    ensures Members(w.updated) == MovedIds(db.nodes, cmd.movedChildIds) + {cmd.newNode.id}
    ensures PositionResolves(db, cmd.newNode)
  {
    var n, moved := cmd.newNode, MovedIds(db.nodes, cmd.movedChildIds);
    assert {} + moved == moved;
    LedgerIsUnion(db, cmd, m, w.ledger);
    UpdatedAre(w.updated, n.id, moved);
  }

  lemma UpdatedAre(updated: seq<Id>, id: Id, moved: set<Id>)
    requires forall i :: i in updated <==> i == id || i in moved
    ensures Members(updated) == moved + {id}
  {}

  lemma UnionOf(ledger: map<Alias, Id>, m: map<Alias, Id>, after: map<Alias, Id>)
    requires forall a :: a in m ==> a in after && after[a] == m[a]
    requires forall a :: a in ledger ==> a in after && after[a] == ledger[a]
    requires forall a :: a in after ==> a in ledger || a in m
    ensures after == ledger + m && Agree(ledger, m)
  {}

  lemma ClaimsMade(l0: map<Alias, Id>, after: map<Alias, Id>, nodes: map<Id, GNode>, cmd: Command, m: map<Alias, Id>)
    requires cmd.ReparentCmd? && TargetClaims(m, nodes, cmd) && cmd.newNode.alias in l0 && l0[cmd.newNode.alias] == cmd.newNode.id
    requires LedgerGrew(l0, after, nodes, MovedIds(nodes, cmd.movedChildIds), Parent(cmd), cmd.newNode.alias)
    ensures forall a :: a in m ==> a in after && after[a] == m[a]
    ensures forall a :: a in after ==> a in l0 || a in m
  {
    forall a | a in m ensures a in after && after[a] == m[a] {
      if a != cmd.newNode.alias {
        var i :| i in MovedIds(nodes, cmd.movedChildIds) && a == RewriteAlias(nodes[i].alias, Parent(cmd), cmd.newNode.alias);
      }
    }
  }

  lemma LedgerIsUnion(db: Registry, cmd: Command, m: map<Alias, Id>, ledger: map<Alias, Id>)
    requires cmd.ReparentCmd? && TargetClaims(m, db.nodes, cmd)
    requires cmd.newNode.alias in db.ledger ==> db.ledger[cmd.newNode.alias] == cmd.newNode.id
    requires LedgerGrew(db.ledger[cmd.newNode.alias := cmd.newNode.id], ledger, db.nodes,
               MovedIds(db.nodes, cmd.movedChildIds), Parent(cmd), cmd.newNode.alias)
    ensures ledger == db.ledger + m && Agree(db.ledger, m)
  {
    var l0 := db.ledger[cmd.newNode.alias := cmd.newNode.id];
    assert forall a :: a in db.ledger ==> a in l0 && l0[a] == db.ledger[a];
    ClaimsMade(l0, ledger, db.nodes, cmd, m);
    UnionOf(db.ledger, m, ledger);
  }

  // ---- the tree by id ----

  /** Every row but the forest roots has a row at its alias-parent. */
  ghost predicate ParentComplete(nodes: map<Id, GNode>) {
    forall i :: i in nodes && !IsForestRoot(nodes[i].alias) ==> RowAt(nodes, ParentAlias(nodes[i].alias)).Some?
  }

  lemma StillHeld(nodes: map<Id, GNode>, after: map<Id, GNode>, a: Alias)
    requires RowAt(nodes, a).Some? && forall i :: i in nodes ==> i in after && after[i] == nodes[i]
    ensures RowAt(after, a).Some?
  {
    var j :| j in nodes && nodes[j].alias == a;
    assert j in after && after[j].alias == a;
  }

  /** The row above a row. */
  ghost function ParentOf(nodes: map<Id, GNode>, i: Id): Option<GNode>
    requires i in nodes
  {
    RowAt(nodes, ParentAlias(nodes[i].alias))
  }

  /** A parent-complete table has no row below an alias no row holds. */
  lemma {:induction false} NoneBelowUnheld(nodes: map<Id, GNode>, a: Alias, i: Id)
    requires ParentComplete(nodes) && Dotted(a)
    requires forall j :: j in nodes ==> nodes[j].alias != a
    requires i in nodes
    ensures !InSubtree(nodes[i].alias, a)
    decreases |nodes[i].alias|
  {
    if InSubtree(nodes[i].alias, a) {
      BelowSuffix(nodes[i].alias, a);
      DottedCount(a);
      SplitLast(nodes[i].alias);
      BelowIffParentInSubtree(nodes[i].alias, a);
      var p :| p in nodes && nodes[p].alias == ParentAlias(nodes[i].alias);
      NoneBelowUnheld(nodes, a, p);
      assert false;
    }
  }

  /** The situation after a successful well-formed rewrite of a parent-complete registry. */
  ghost predicate Rebuilt(db: Registry, cmd: Command, after: map<Id, GNode>) {
    && Sound(db) && WellFormed(db.nodes, cmd) && ValidCommand(cmd) && ParentComplete(db.nodes)
    && !IsForestRoot(cmd.newNode.alias)
    && RowAt(db.nodes, Parent(cmd)).Some?
    && (forall i :: i in db.nodes ==> db.nodes[i].alias != cmd.newNode.alias)
    && after == Target(db.nodes, cmd)
  }

  lemma MovedAfter(db: Registry, cmd: Command, after: map<Id, GNode>, i: Id)
    requires Rebuilt(db, cmd, after) && i in MovedIds(db.nodes, cmd.movedChildIds)
    ensures i in after && i != cmd.newNode.id
    ensures after[i] == Renamed(db.nodes[i], Parent(cmd), cmd.newNode.alias)
    ensures Below(db.nodes[i].alias, Parent(cmd)) && Below(after[i].alias, cmd.newNode.alias)
  {
    TargetMoves(db.nodes, cmd, i);
  }

  lemma TargetMoves(nodes: map<Id, GNode>, cmd: Command, i: Id)
    requires WellFormed(nodes, cmd) && i in MovedIds(nodes, cmd.movedChildIds)
    ensures var after := Target(nodes, cmd);
            && i in after && i != cmd.newNode.id && after[i] == Renamed(nodes[i], Parent(cmd), cmd.newNode.alias)
            && Below(nodes[i].alias, Parent(cmd)) && Below(after[i].alias, cmd.newNode.alias)
  {
    MovedRowsBelow(nodes, cmd.movedChildIds, Parent(cmd));
    RewriteCommutesWithParent(nodes[i].alias, Parent(cmd), cmd.newNode.alias);
  }

  lemma UnmovedAfter(db: Registry, cmd: Command, after: map<Id, GNode>, i: Id)
    requires Rebuilt(db, cmd, after) && i in db.nodes && i !in MovedIds(db.nodes, cmd.movedChildIds)
    ensures i in after && i != cmd.newNode.id && after[i] == db.nodes[i]
    ensures !InSubtree(after[i].alias, cmd.newNode.alias)
  {
    TargetLeaves(db.nodes, cmd, i);
    NoneBelowUnheld(db.nodes, cmd.newNode.alias, i);
  }

  lemma TargetLeaves(nodes: map<Id, GNode>, cmd: Command, i: Id)
    requires WellFormed(nodes, cmd) && i in nodes && i !in MovedIds(nodes, cmd.movedChildIds)
    ensures i in Target(nodes, cmd) && i != cmd.newNode.id && Target(nodes, cmd)[i] == nodes[i]
  {}

  /** Where each alias goes. */
  lemma AliasesAfter(db: Registry, cmd: Command, after: map<Id, GNode>, i: Id)
    requires Rebuilt(db, cmd, after) && i in db.nodes
    ensures i in after && i != cmd.newNode.id
    ensures i in MovedIds(db.nodes, cmd.movedChildIds) ==>
              Below(db.nodes[i].alias, Parent(cmd)) && Below(after[i].alias, cmd.newNode.alias)
    ensures i !in MovedIds(db.nodes, cmd.movedChildIds) ==>
              after[i] == db.nodes[i] && !InSubtree(after[i].alias, cmd.newNode.alias)
    ensures after[i].alias != cmd.newNode.alias
  {
    if i in MovedIds(db.nodes, cmd.movedChildIds) {
      MovedAfter(db, cmd, after, i);
      BelowSuffix(after[i].alias, cmd.newNode.alias);
    } else {
      UnmovedAfter(db, cmd, after, i);
    }
  }

  lemma SameAliasAfter(db: Registry, cmd: Command, after: map<Id, GNode>, i: Id, j: Id)
    requires Rebuilt(db, cmd, after) && i in after && j in after && after[i].alias == after[j].alias
    ensures i == j
  {
    if i in db.nodes && j in db.nodes {
      OldRowsApart(db, cmd, after, i, j);
    } else {
      if i in db.nodes { AliasesAfter(db, cmd, after, i); }
      if j in db.nodes { AliasesAfter(db, cmd, after, j); }
    }
  }

  lemma OldRowsApart(db: Registry, cmd: Command, after: map<Id, GNode>, i: Id, j: Id)
    requires Rebuilt(db, cmd, after) && i in db.nodes && j in db.nodes
    requires i in after && j in after && after[i].alias == after[j].alias
    ensures i == j
  {
    var moved := MovedIds(db.nodes, cmd.movedChildIds);
    AliasesAfter(db, cmd, after, i);
    AliasesAfter(db, cmd, after, j);
    if i in moved && j in moved { MovedApart(db, cmd, after, i, j); }
  }

  lemma MovedApart(db: Registry, cmd: Command, after: map<Id, GNode>, i: Id, j: Id)
    requires Rebuilt(db, cmd, after) && i in MovedIds(db.nodes, cmd.movedChildIds) && j in MovedIds(db.nodes, cmd.movedChildIds)
    requires i in after && j in after && after[i].alias == after[j].alias
    ensures i == j
  {
    MovedAfter(db, cmd, after, i);
    MovedAfter(db, cmd, after, j);
    RewriteInjective(db.nodes[i].alias, db.nodes[j].alias, Parent(cmd), cmd.newNode.alias);
  }

  lemma AliasesAfterUnique(db: Registry, cmd: Command, after: map<Id, GNode>)
    requires Rebuilt(db, cmd, after)
    ensures UniqueAliases(after)
  {
    forall i, j | i in after && j in after && after[i].alias == after[j].alias ensures i == j {
      SameAliasAfter(db, cmd, after, i, j);
    }
  }

  /** N hangs under its parent, whose row stays as it was. */
  lemma ParentOfN(db: Registry, cmd: Command, after: map<Id, GNode>)
    requires Rebuilt(db, cmd, after)
    ensures ParentOf(after, cmd.newNode.id) == RowAt(db.nodes, Parent(cmd))
  {
    var p :| p in db.nodes && db.nodes[p].alias == Parent(cmd);
    AliasesAfter(db, cmd, after, p);
    AliasesAfterUnique(db, cmd, after);
    if p in MovedIds(db.nodes, cmd.movedChildIds) { BelowSuffix(Parent(cmd), Parent(cmd)); }
    RowAtIs(after, p);
    RowAtIs(db.nodes, p);
  }

  /** A moved child hangs under N; every other non-root row hangs under the row it hung under. */
  lemma ParentOfOther(db: Registry, cmd: Command, after: map<Id, GNode>, i: Id)
    requires Rebuilt(db, cmd, after) && i in db.nodes
    ensures i in after && (IsForestRoot(after[i].alias) <==> IsForestRoot(db.nodes[i].alias))
    ensures i in cmd.movedChildIds ==> !IsForestRoot(db.nodes[i].alias) && ParentOf(after, i) == Some(cmd.newNode)
    ensures i !in cmd.movedChildIds && !IsForestRoot(db.nodes[i].alias) ==>
              ParentOf(db.nodes, i).Some? && ParentOf(db.nodes, i).value.id in after
              && ParentOf(after, i) == Some(after[ParentOf(db.nodes, i).value.id])
  {
    AliasesAfter(db, cmd, after, i);
    AliasesAfterUnique(db, cmd, after);
    if i in MovedIds(db.nodes, cmd.movedChildIds) {
      MovedNotRoot(db, cmd, after, i);
      if i in cmd.movedChildIds { ParentOfMovedChild(db, cmd, after, i); } else { ParentOfMoved(db, cmd, after, i); }
    } else {
      if i in cmd.movedChildIds { assert InSubtree(db.nodes[i].alias, db.nodes[i].alias); }
      if !IsForestRoot(db.nodes[i].alias) { ParentOfUnmoved(db, cmd, after, i); }
    }
  }

  lemma MovedNotRoot(db: Registry, cmd: Command, after: map<Id, GNode>, i: Id)
    requires Rebuilt(db, cmd, after) && i in MovedIds(db.nodes, cmd.movedChildIds)
    ensures !IsForestRoot(db.nodes[i].alias) && !IsForestRoot(after[i].alias)
  {
    AliasesAfter(db, cmd, after, i);
    var p :| p in db.nodes && db.nodes[p].alias == Parent(cmd);
    DottedCount(Parent(cmd));
    BelowSuffix(db.nodes[i].alias, Parent(cmd));
    DottedCount(cmd.newNode.alias);
    BelowSuffix(after[i].alias, cmd.newNode.alias);
  }

  lemma MovedChildAlias(db: Registry, cmd: Command, after: map<Id, GNode>, c: Id)
    requires Rebuilt(db, cmd, after) && c in cmd.movedChildIds
    ensures c in db.nodes && c in after && ParentAlias(after[c].alias) == cmd.newNode.alias
  {
    var e, n := Parent(cmd), cmd.newNode.alias;
    assert c in db.nodes && InSubtree(db.nodes[c].alias, db.nodes[c].alias);
    MovedAfter(db, cmd, after, c);
    RewriteCommutesWithParent(db.nodes[c].alias, e, n);
    assert RewriteAlias(e, e, n) == n;
  }

  lemma ParentOfMovedChild(db: Registry, cmd: Command, after: map<Id, GNode>, c: Id)
    requires Rebuilt(db, cmd, after) && UniqueAliases(after) && c in cmd.movedChildIds
    ensures c in after && ParentOf(after, c) == Some(cmd.newNode)
  {
    MovedChildAlias(db, cmd, after, c);
    assert after[cmd.newNode.id] == cmd.newNode;
    RowAtIs(after, cmd.newNode.id);
  }

  /** Within a moved subtree, the parent moves along. */
  lemma ParentMoves(db: Registry, cmd: Command, after: map<Id, GNode>, i: Id)
    requires Rebuilt(db, cmd, after)
    requires i in MovedIds(db.nodes, cmd.movedChildIds) && i !in cmd.movedChildIds && !IsForestRoot(db.nodes[i].alias)
    ensures ParentOf(db.nodes, i).Some? && ParentOf(db.nodes, i).value.id in MovedIds(db.nodes, cmd.movedChildIds)
    ensures db.nodes[ParentOf(db.nodes, i).value.id] == ParentOf(db.nodes, i).value
  {
    var c :| c in cmd.movedChildIds && c in db.nodes && InSubtree(db.nodes[i].alias, db.nodes[c].alias);
    assert db.nodes[i].alias != db.nodes[c].alias;
    BelowIffParentInSubtree(db.nodes[i].alias, db.nodes[c].alias);
    var p :| p in db.nodes && db.nodes[p].alias == ParentAlias(db.nodes[i].alias);
    RowAtIs(db.nodes, p);
  }

  lemma ParentOfMoved(db: Registry, cmd: Command, after: map<Id, GNode>, i: Id)
    requires Rebuilt(db, cmd, after) && UniqueAliases(after)
    requires i in MovedIds(db.nodes, cmd.movedChildIds) && i !in cmd.movedChildIds && !IsForestRoot(db.nodes[i].alias)
    ensures i in after && ParentOf(db.nodes, i).Some? && ParentOf(db.nodes, i).value.id in after
    ensures ParentOf(after, i) == Some(after[ParentOf(db.nodes, i).value.id])
  {
    ParentMoves(db, cmd, after, i);
    var p := ParentOf(db.nodes, i).value.id;
    MovedAfter(db, cmd, after, i);
    MovedAfter(db, cmd, after, p);
    RewriteCommutesWithParent(db.nodes[i].alias, Parent(cmd), cmd.newNode.alias);
    RowAtIs(after, p);
  }

  lemma ParentOfUnmoved(db: Registry, cmd: Command, after: map<Id, GNode>, i: Id)
    requires Rebuilt(db, cmd, after) && UniqueAliases(after)
    requires i in db.nodes && i !in MovedIds(db.nodes, cmd.movedChildIds) && !IsForestRoot(db.nodes[i].alias)
    ensures i in after && ParentOf(db.nodes, i).Some? && ParentOf(db.nodes, i).value.id in after
    ensures ParentOf(after, i) == Some(after[ParentOf(db.nodes, i).value.id])
  {
    var p :| p in db.nodes && db.nodes[p].alias == ParentAlias(db.nodes[i].alias);
    RowAtIs(db.nodes, p);
    if p in MovedIds(db.nodes, cmd.movedChildIds) {
      var c :| c in cmd.movedChildIds && c in db.nodes && InSubtree(db.nodes[p].alias, db.nodes[c].alias);
      BelowIffParentInSubtree(db.nodes[i].alias, db.nodes[c].alias);
      assert false;
    }
    AliasesAfter(db, cmd, after, p);
    AliasesAfter(db, cmd, after, i);
    RowAtIs(after, p);
  }

  // ---- validity of the result ----

  /** What a well-formed re-parent of a clean registry must respect. */
  ghost predicate Legal(db: Registry, cmd: Command, universe: string) {
    var n, e := cmd.newNode, RowAt(db.nodes, Parent(cmd));
    && cmd.ReparentCmd? && e.Some?
    && UniverseOf(n.alias) == universe
    && (n.status.Active? ==> e.value.status.Active?)
    && ParentClassOk(n, e.value.baseClass)
    && (forall c :: c in cmd.movedChildIds && c in db.nodes ==>
          (db.nodes[c].status.Active? ==> n.status.Active?) && ParentClassOk(db.nodes[c], n.baseClass))
  }

  lemma CleanAfterImpliesLegal(db: Registry, cmd: Command, after: map<Id, GNode>, universe: string)
    requires Rebuilt(db, cmd, after) && Clean(after, db.edges, db.positions, universe)
    ensures Legal(db, cmd, universe)
  {
    var n := cmd.newNode;
    ParentOfN(db, cmd, after);
    assert n.id in after && after[n.id] == n;
    assert ParentActive(after, n) && ClassOk(after, n);
    forall c | c in cmd.movedChildIds && c in db.nodes
      ensures (db.nodes[c].status.Active? ==> n.status.Active?) && ParentClassOk(db.nodes[c], n.baseClass)
    {
      SameBesidesAlias(db, cmd, after, c);
      assert ParentActive(after, after[c]) && ClassOk(after, after[c]);
      MovedChildUnderN(db, cmd, after, c);
    }
  }

  lemma MovedChildUnderN(db: Registry, cmd: Command, after: map<Id, GNode>, c: Id)
    requires Rebuilt(db, cmd, after) && c in cmd.movedChildIds && c in db.nodes && c in after
    requires ParentActive(after, after[c]) && ClassOk(after, after[c])
    ensures db.nodes[c].status.Active? ==> cmd.newNode.status.Active?
    ensures ParentClassOk(db.nodes[c], cmd.newNode.baseClass)
  {
    ParentOfOther(db, cmd, after, c);
    SameBesidesAlias(db, cmd, after, c);
  }

  lemma SameBesidesAlias(db: Registry, cmd: Command, after: map<Id, GNode>, i: Id)
    requires Rebuilt(db, cmd, after) && i in db.nodes
    ensures i in after && SameIdentity(db.nodes[i], after[i])
  {
    if i in MovedIds(db.nodes, cmd.movedChildIds) { MovedAfter(db, cmd, after, i); } else { UnmovedAfter(db, cmd, after, i); }
  }

  /** A row that was sound where it hung is sound where it hangs now. */
  lemma RowCleanAfter(db: Registry, cmd: Command, after: map<Id, GNode>, universe: string, i: Id)
    requires Rebuilt(db, cmd, after) && Legal(db, cmd, universe) && i in db.nodes
    requires ParentActive(db.nodes, db.nodes[i]) && ClassOk(db.nodes, db.nodes[i])
    ensures i in after && ParentActive(after, after[i]) && ClassOk(after, after[i])
  {
    ParentOfOther(db, cmd, after, i);
    SameBesidesAlias(db, cmd, after, i);
    if !IsForestRoot(db.nodes[i].alias) && i !in cmd.movedChildIds {
      SameBesidesAlias(db, cmd, after, ParentOf(db.nodes, i).value.id);
    }
  }

  lemma UniverseAfter(db: Registry, cmd: Command, after: map<Id, GNode>, universe: string, i: Id)
    requires Rebuilt(db, cmd, after) && UniverseOf(cmd.newNode.alias) == universe
    requires i in db.nodes && UniverseOf(db.nodes[i].alias) == universe
    ensures i in after && UniverseOf(after[i].alias) == universe
  {
    AliasesAfter(db, cmd, after, i);
    if i in MovedIds(db.nodes, cmd.movedChildIds) {
      SubtreeUniverse(after[i].alias, cmd.newNode.alias);
    }
  }

  lemma RootParentUndotted(a: Alias)
    requires IsForestRoot(a)
    ensures !Dotted(ParentAlias(a))
  {
    DottedCount(a);
    SplitLast(a);
    DottedCount(ParentAlias(a));
  }

  lemma NotTheParent(nodes: map<Id, GNode>, f: Id, t: Id, g: GNode)
    requires UniqueAliases(nodes) && f in nodes && t in nodes && ParentOf(nodes, t) == Some(g) && nodes[f] != g
    ensures ParentAlias(nodes[t].alias) != nodes[f].alias
  {
    RowAtIs(nodes, f);
  }

  /** Two old rows are a tree pair afterwards only if they were one before. */
  lemma NoNewTreePair(db: Registry, cmd: Command, after: map<Id, GNode>, f: Id, t: Id)
    requires Rebuilt(db, cmd, after) && f in db.nodes && t in db.nodes
    requires ParentAlias(db.nodes[t].alias) != db.nodes[f].alias
    ensures f in after && t in after && ParentAlias(after[t].alias) != after[f].alias
  {
    AliasesDotted(db, cmd, after, f);
    SameBesidesAlias(db, cmd, after, f);
    ParentOfOther(db, cmd, after, t);
    AliasesAfterUnique(db, cmd, after);
    if IsForestRoot(after[t].alias) {
      RootParentUndotted(after[t].alias);
    } else if t in cmd.movedChildIds {
      NotTheParent(after, f, t, cmd.newNode);
    } else {
      DifferentParent(db, cmd, after, f, t);
    }
  }

  lemma DifferentParent(db: Registry, cmd: Command, after: map<Id, GNode>, f: Id, t: Id)
    requires Rebuilt(db, cmd, after) && UniqueAliases(after) && f in db.nodes && t in db.nodes && f in after && t in after
    requires ParentAlias(db.nodes[t].alias) != db.nodes[f].alias
    requires ParentOf(db.nodes, t).Some? && ParentOf(db.nodes, t).value.id in after
    requires ParentOf(after, t) == Some(after[ParentOf(db.nodes, t).value.id])
    ensures ParentAlias(after[t].alias) != after[f].alias
  {
    var p := ParentOf(db.nodes, t).value.id;
    assert p in db.nodes && db.nodes[p].alias == ParentAlias(db.nodes[t].alias);
    SameBesidesAlias(db, cmd, after, f);
    SameBesidesAlias(db, cmd, after, p);
    NotTheParent(after, f, t, after[p]);
  }

  lemma AliasesDotted(db: Registry, cmd: Command, after: map<Id, GNode>, i: Id)
    requires Rebuilt(db, cmd, after) && i in db.nodes
    ensures i in after && Dotted(after[i].alias)
  {
    AliasesAfter(db, cmd, after, i);
    if i in MovedIds(db.nodes, cmd.movedChildIds) { BelowSuffix(after[i].alias, cmd.newNode.alias); }
  }

  /** No stored non-tree edge becomes a tree edge. */
  lemma EdgesStayNonTree(db: Registry, cmd: Command, after: map<Id, GNode>)
    requires Rebuilt(db, cmd, after) && EdgesNonTree(db.nodes, db.edges)
    ensures EdgesNonTree(after, db.edges)
  {
    forall k | k in db.edges && db.edges[k].status.Active? ensures EdgeOk(after, db.edges[k]) {
      var e := db.edges[k];
      NoNewTreePair(db, cmd, after, e.fromId, e.toId);
      NoNewTreePair(db, cmd, after, e.toId, e.fromId);
      SameBesidesAlias(db, cmd, after, e.fromId);
      SameBesidesAlias(db, cmd, after, e.toId);
    }
  }

  lemma LegalImpliesCleanAfter(db: Registry, cmd: Command, after: map<Id, GNode>, universe: string)
    requires Rebuilt(db, cmd, after) && Clean(db.nodes, db.edges, db.positions, universe)
    requires Legal(db, cmd, universe) && PositionResolves(db, cmd.newNode)
    ensures Clean(after, db.edges, db.positions, universe)
  {
    var n := cmd.newNode;
    EdgesStayNonTree(db, cmd, after);
    forall i | i in after
      ensures UniverseOf(after[i].alias) == universe
      ensures ParentActive(after, after[i]) && ClassOk(after, after[i]) && PositionHeld(after[i], db.positions)
    {
      if i == n.id {
        ParentOfN(db, cmd, after);
      } else {
        assert i in db.nodes;
        UniverseAfter(db, cmd, after, universe, i);
        RowCleanAfter(db, cmd, after, universe, i);
        SameBesidesAlias(db, cmd, after, i);
        assert PositionHeld(db.nodes[i], db.positions);
      }
    }
  }

  // ---- the verdict ----

  /** Everything the re-parent handler checks before it touches a row. */
  ghost predicate Guarded(env: Env, db: Registry, cmd: Command)
    requires ValidEnv(env) && cmd.ReparentCmd?
  {
    && env.proofOk(cmd.proof) && UniverseOf(cmd.newNode.alias) == env.universe
    && !IsForestRoot(cmd.newNode.alias) && RowAt(db.nodes, Parent(cmd)).Some?
    && Prediction(env, db, cmd).Ok? && !Collides(db.ledger, Prediction(env, db, cmd).value)
  }

  lemma UnguardedRefused(env: Env, db: Registry, cmd: Command)
    requires ValidEnv(env) && cmd.ReparentCmd? && cmd !in db.log
    ensures !Guarded(env, db, cmd) ==> Step(env, db, cmd) == Result(db, Refused)
    ensures Guarded(env, db, cmd) ==>
              Step(env, db, cmd) == match Rewritten(env, db, cmd)
                case Refuse => Result(db, Refused)
                case Abort => Result(db, Aborted)
                case Ok(w) => FinishReparent(env, db, cmd, w)
  {}

  lemma EdgesSerialize(db: Registry, ids: seq<Id>)
    requires Sound(db) && forall k :: k in ids ==> k in db.edges
    ensures forall e :: e in EdgeRows(db.edges, ids) ==> ValidEdge(e) && e.id in ids && db.edges[e.id] == e
  {
    forall e | e in EdgeRows(db.edges, ids) ensures ValidEdge(e) && e.id in ids && db.edges[e.id] == e {
      var j :| 0 <= j < |ids| && EdgeRows(db.edges, ids)[j] == e;
      assert ids[j] in ids;
    }
  }

  /** Rewritten rows, and stored edges, always serialize. */
  lemma RewriteSerializes(db: Registry, cmd: Command, w: Work, edgeIds: seq<Id>)
    requires Sound(db) && WellFormed(db.nodes, cmd) && ValidCommand(cmd)
    requires WorkSound(w) && w.nodes == Target(db.nodes, cmd)
    requires Members(w.updated) == MovedIds(db.nodes, cmd.movedChildIds) + {cmd.newNode.id}
    requires forall k :: k in edgeIds ==> k in db.edges
    ensures Serializable(Rows(w.nodes, w.updated), EdgeRows(db.edges, edgeIds))
  {
    EdgesSerialize(db, edgeIds);
    RowsAreUpdated(w);
    forall g | g in Rows(w.nodes, w.updated) ensures ValidGNode(g) {
      assert g.id in Members(w.updated);
      if g.id != cmd.newNode.id { MovedRowValid(db, cmd, g.id); }
    }
  }

  lemma MovedRowValid(db: Registry, cmd: Command, i: Id)
    requires Sound(db) && WellFormed(db.nodes, cmd) && ValidCommand(cmd) && i in MovedIds(db.nodes, cmd.movedChildIds)
    ensures ValidGNode(Renamed(db.nodes[i], Parent(cmd), cmd.newNode.alias))
  {
    MovedRowsBelow(db.nodes, cmd.movedChildIds, Parent(cmd));
    SplitLast(cmd.newNode.alias);
    RenameKeepsAxioms(db.nodes[i], Parent(cmd), cmd.newNode.alias);
  }

  lemma FinishedVerdict(env: Env, db: Registry, cmd: Command, w: Work)
    requires ValidEnv(env) && Sound(db) && WellFormed(db.nodes, cmd) && ValidCommand(cmd)
    requires WorkSound(w) && w.nodes == Target(db.nodes, cmd)
    requires Members(w.updated) == MovedIds(db.nodes, cmd.movedChildIds) + {cmd.newNode.id}
    ensures var r := FinishReparent(env, db, cmd, w);
            && !r.verdict.Aborted?
            && (r.verdict.Applied? <==> Clean(w.nodes, db.edges, db.positions, env.universe))
            && (r.verdict.Applied? ==> r.db == Committed(db, w, cmd))
  {
    RewriteSerializes(db, cmd, w, env.edgeOrder(db.edges, ActiveEdgeIds(db.edges, Members(w.updated))));
  }

  /** How a well-formed re-parent of any sound registry ends: it aborts only if N's position does
      not exist, and is applied exactly if it is guarded and validates. */
  lemma WellFormedVerdict(env: Env, db: Registry, cmd: Command)
    requires ValidEnv(env) && Sound(db) && WellFormed(db.nodes, cmd) && ValidCommand(cmd) && cmd !in db.log
    ensures var r := Step(env, db, cmd);
            && (r.verdict.Aborted? <==> Guarded(env, db, cmd) && !PositionResolves(db, cmd.newNode))
            && (r.verdict.Applied? <==> Guarded(env, db, cmd) && PositionResolves(db, cmd.newNode)
                                        && Clean(Target(db.nodes, cmd), db.edges, db.positions, env.universe))
            && (r.verdict.Applied? ==>
                  r.db == db.(nodes := Target(db.nodes, cmd),
                              ledger := db.ledger + Prediction(env, db, cmd).value, log := db.log + [cmd]))
  {
    UnguardedRefused(env, db, cmd);
    if Guarded(env, db, cmd) {
      PrecheckExact(env, db, cmd);
      if !PositionResolves(db, cmd.newNode) { UnknownPositionAborts(env, db, cmd); }
      if Rewritten(env, db, cmd).Ok? { FinishedVerdict(env, db, cmd, Rewritten(env, db, cmd).value); }
    }
  }

  lemma UnknownPositionAborts(env: Env, db: Registry, cmd: Command)
    requires ValidEnv(env) && cmd.ReparentCmd? && !PositionResolves(db, cmd.newNode)
    ensures Rewritten(env, db, cmd).Abort?
  {}

  lemma RebuiltFrom(env: Env, db: Registry, cmd: Command)
    requires ValidEnv(env) && Sound(db) && WellFormed(db.nodes, cmd) && ValidCommand(cmd) && ParentComplete(db.nodes)
    requires Guarded(env, db, cmd)
    ensures Rebuilt(db, cmd, Target(db.nodes, cmd))
  {
    PredictionIs(env, db, cmd);
    AgreeIffNoCollision(db.ledger, Prediction(env, db, cmd).value);
  }

  /** On a clean, parent-complete registry a well-formed re-parent is applied exactly if its guards
      pass, N's position exists, and classes and activity are legal where rows change parents. */
  lemma ReparentDecided(env: Env, db: Registry, cmd: Command)
    requires ValidEnv(env) && Sound(db) && WellFormed(db.nodes, cmd) && ValidCommand(cmd) && cmd !in db.log
    requires ParentComplete(db.nodes) && Clean(db.nodes, db.edges, db.positions, env.universe)
    ensures Step(env, db, cmd).verdict.Applied? <==>
              Guarded(env, db, cmd) && PositionResolves(db, cmd.newNode) && Legal(db, cmd, env.universe)
  {
    WellFormedVerdict(env, db, cmd);
    if Guarded(env, db, cmd) && PositionResolves(db, cmd.newNode) {
      RebuiltFrom(env, db, cmd);
      var after := Target(db.nodes, cmd);
      if Legal(db, cmd, env.universe) { LegalImpliesCleanAfter(db, cmd, after, env.universe); }
      if Clean(after, db.edges, db.positions, env.universe) { CleanAfterImpliesLegal(db, cmd, after, env.universe); }
    }
  }
}
