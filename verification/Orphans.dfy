/** Re-parents that are not well-formed: the handler checks only that the moved ids exist. When an
    applied re-parent, whatever it names, leaves every row with its parent. */
module Orphans {
  import opened Prelude
  import opened Aliases
  import opened GNodes
  import opened Tables
  import opened Validator
  import opened Transactions
  import opened Invariants
  import opened Rewriting
  import opened Reparents
  import Creates
  import opened Runs

  /** No moved id is N's parent or above it. */
  ghost predicate NamesNoAncestor(nodes: map<Id, GNode>, cmd: Command)
    requires cmd.ReparentCmd?
  {
    forall c :: c in cmd.movedChildIds && c in nodes ==> !InSubtree(cmd.newNode.alias, nodes[c].alias)
  }

  ghost predicate AllDotted(nodes: map<Id, GNode>) {
    forall i :: i in nodes ==> Dotted(nodes[i].alias)
  }

  /** One subtree moved: its rows are now strictly below `n`, the others where they were. */
  ghost predicate SubtreeMoved(nodes: map<Id, GNode>, after: map<Id, GNode>, p: Alias, n: Alias) {
    && after == Relocated(nodes, SubtreeIds(nodes, p), p, MovedPrefix(n, p))
    && UniqueAliases(after)
  }

  lemma PrefixMoved(env: Env, w: Work, p: Alias, n: Alias)
    requires ValidEnv(env) && WorkSound(w) && RewritePrefix(env, w, p, MovedPrefix(n, p)).Ok?
    ensures var w' := RewritePrefix(env, w, p, MovedPrefix(n, p)).value;
            WorkSound(w') && SubtreeMoved(w.nodes, w'.nodes, p, n)
  {
    var ids := env.rowOrder(w.nodes, SubtreeIds(w.nodes, p));
    RenameRowsAdvances(w, ids, p, MovedPrefix(n, p));
    RenameRowsResult(w, ids, p, MovedPrefix(n, p));
    assert Members(ids) == SubtreeIds(w.nodes, p);
  }

  lemma MovedRowAlias(nodes: map<Id, GNode>, after: map<Id, GNode>, p: Alias, n: Alias, i: Id)
    requires SubtreeMoved(nodes, after, p, n) && i in SubtreeIds(nodes, p)
    ensures i in after && after[i].alias == RewriteAlias(nodes[i].alias, p, MovedPrefix(n, p))
    ensures Below(after[i].alias, n) && Dotted(after[i].alias) && !InSubtree(n, after[i].alias)
  {
    RewriteInverts(nodes[i].alias, p, MovedPrefix(n, p));
    MovedPrefixIsChild(n, p);
    SubtreeTransitive(after[i].alias, MovedPrefix(n, p), n);
    BelowSuffix(MovedPrefix(n, p), n);
    BelowSuffix(after[i].alias, n);
  }

  lemma DottedAfter(nodes: map<Id, GNode>, after: map<Id, GNode>, p: Alias, n: Alias)
    requires SubtreeMoved(nodes, after, p, n) && AllDotted(nodes)
    ensures AllDotted(after)
  {
    forall i | i in after ensures Dotted(after[i].alias) {
      if i in SubtreeIds(nodes, p) { MovedRowAlias(nodes, after, p, n, i); }
    }
  }

  // ---- moving a subtree that does not hold N ----

  lemma MovedRowHasParent(nodes: map<Id, GNode>, after: map<Id, GNode>, c: Id, n: Alias, i: Id)
    requires c in nodes && SubtreeMoved(nodes, after, nodes[c].alias, n) && UniqueAliases(nodes)
    requires ParentComplete(nodes) && AllDotted(nodes) && RowAt(nodes, n).Some? && !InSubtree(n, nodes[c].alias)
    requires i in SubtreeIds(nodes, nodes[c].alias)
    ensures i in after && RowAt(after, ParentAlias(after[i].alias)).Some?
  {
    var p := nodes[c].alias;
    MovedRowAlias(nodes, after, p, n, i);
    if nodes[i].alias == p {
      MovedPrefixIsChild(n, p);
      assert after[i].alias == MovedPrefix(n, p);
      var k :| k in nodes && nodes[k].alias == n;
      assert k in after && after[k].alias == n;
    } else {
      BelowSuffix(nodes[i].alias, p);
      DottedCount(p);
      BelowIffParentInSubtree(nodes[i].alias, p);
      var j :| j in nodes && nodes[j].alias == ParentAlias(nodes[i].alias);
      RewriteCommutesWithParent(nodes[i].alias, p, MovedPrefix(n, p));
      assert j in SubtreeIds(nodes, p);
      MovedRowAlias(nodes, after, p, n, j);
    }
  }

  lemma UnmovedRowHasParent(nodes: map<Id, GNode>, after: map<Id, GNode>, p: Alias, n: Alias, i: Id)
    requires SubtreeMoved(nodes, after, p, n) && ParentComplete(nodes) && AllDotted(nodes)
    requires i in nodes && i !in SubtreeIds(nodes, p) && !IsForestRoot(nodes[i].alias)
    ensures i in after && after[i] == nodes[i] && RowAt(after, ParentAlias(nodes[i].alias)).Some?
  {
    var j :| j in nodes && nodes[j].alias == ParentAlias(nodes[i].alias);
    BelowIffParentInSubtree(nodes[i].alias, p);
    assert j in after && after[j] == nodes[j];
  }

  lemma MoveKeepsComplete(nodes: map<Id, GNode>, after: map<Id, GNode>, c: Id, n: Alias)
    requires c in nodes && SubtreeMoved(nodes, after, nodes[c].alias, n) && UniqueAliases(nodes)
    requires ParentComplete(nodes) && AllDotted(nodes) && RowAt(nodes, n).Some? && !InSubtree(n, nodes[c].alias)
    ensures ParentComplete(after) && RowAt(after, n).Some?
  {
    forall i | i in after && !IsForestRoot(after[i].alias) ensures RowAt(after, ParentAlias(after[i].alias)).Some? {
      if i in SubtreeIds(nodes, nodes[c].alias) {
        MovedRowHasParent(nodes, after, c, n, i);
      } else {
        UnmovedRowHasParent(nodes, after, nodes[c].alias, n, i);
      }
    }
    var k :| k in nodes && nodes[k].alias == n;
    assert k in after && after[k].alias == n;
  }

  // ---- moving a subtree that holds N ----

  /** Nothing is at `n`, and something is below it. */
  ghost predicate Vacated(nodes: map<Id, GNode>, n: Alias) {
    && (forall i :: i in nodes ==> nodes[i].alias != n)
    && (exists i :: i in nodes && Below(nodes[i].alias, n))
  }

  lemma VacatedIncomplete(nodes: map<Id, GNode>, n: Alias)
    requires Vacated(nodes, n) && Dotted(n)
    ensures !ParentComplete(nodes)
  {
    if ParentComplete(nodes) {
      var i :| i in nodes && Below(nodes[i].alias, n);
      NoneBelowUnheld(nodes, n, i);
      assert false;
    }
  }

  lemma MoveVacates(nodes: map<Id, GNode>, after: map<Id, GNode>, c: Id, n: Alias)
    requires c in nodes && SubtreeMoved(nodes, after, nodes[c].alias, n)
    requires InSubtree(n, nodes[c].alias)
    ensures Vacated(after, n)
  {
    forall i | i in after ensures after[i].alias != n {
      if i in SubtreeIds(nodes, nodes[c].alias) { MovedRowAlias(nodes, after, nodes[c].alias, n, i); }
    }
    MovedRowAlias(nodes, after, nodes[c].alias, n, c);
  }

  lemma VacatedPersists(nodes: map<Id, GNode>, after: map<Id, GNode>, p: Alias, n: Alias)
    requires SubtreeMoved(nodes, after, p, n) && Vacated(nodes, n)
    ensures Vacated(after, n)
  {
    forall i | i in after ensures after[i].alias != n {
      if i in SubtreeIds(nodes, p) { MovedRowAlias(nodes, after, p, n, i); }
    }
    var i :| i in nodes && Below(nodes[i].alias, n);
    if i in SubtreeIds(nodes, p) { MovedRowAlias(nodes, after, p, n, i); }
    assert i in after && Below(after[i].alias, n);
  }

  lemma {:induction false} VacatedToTheEnd(env: Env, w: Work, children: seq<Id>, n: Alias)
    requires ValidEnv(env) && WorkSound(w) && Vacated(w.nodes, n) && MoveChildren(env, w, children, n).Ok?
    ensures Vacated(MoveChildren(env, w, children, n).value.nodes, n)
    decreases |children|
  {
    if children != [] {
      var p := w.nodes[children[0]].alias;
      PrefixMoved(env, w, p, n);
      var w1 := RewritePrefix(env, w, p, MovedPrefix(n, p)).value;
      VacatedPersists(w.nodes, w1.nodes, p, n);
      VacatedToTheEnd(env, w1, children[1..], n);
    }
  }

  // ---- the loop ----

  lemma AncestryKept(nodes: map<Id, GNode>, after: map<Id, GNode>, p: Alias, n: Alias, d: Id)
    requires SubtreeMoved(nodes, after, p, n) && !InSubtree(n, p) && d in nodes
    ensures d in after && (InSubtree(n, after[d].alias) <==> InSubtree(n, nodes[d].alias))
  {
    if d in SubtreeIds(nodes, p) {
      MovedRowAlias(nodes, after, p, n, d);
      if InSubtree(n, nodes[d].alias) { SubtreeTransitive(n, nodes[d].alias, p); }
    }
  }

  lemma {:induction false} MoveChildrenCompleteIff(env: Env, w: Work, children: seq<Id>, n: Alias)
    requires ValidEnv(env) && WorkSound(w) && AllDotted(w.nodes) && ParentComplete(w.nodes)
    requires Dotted(n) && RowAt(w.nodes, n).Some?
    requires MoveChildren(env, w, children, n).Ok?
    ensures ParentComplete(MoveChildren(env, w, children, n).value.nodes) <==>
              forall c :: c in children && c in w.nodes ==> !InSubtree(n, w.nodes[c].alias)
    decreases |children|
  {
    if children != [] {
      var c := children[0];
      var p := w.nodes[c].alias;
      PrefixMoved(env, w, p, n);
      var w1 := RewritePrefix(env, w, p, MovedPrefix(n, p)).value;
      if InSubtree(n, p) {
        MoveVacates(w.nodes, w1.nodes, c, n);
        VacatedToTheEnd(env, w1, children[1..], n);
        VacatedIncomplete(MoveChildren(env, w, children, n).value.nodes, n);
        assert c in children;
      } else {
        MoveKeepsComplete(w.nodes, w1.nodes, c, n);
        DottedAfter(w.nodes, w1.nodes, p, n);
        MoveChildrenCompleteIff(env, w1, children[1..], n);
        forall d | d in w.nodes ensures InSubtree(n, w1.nodes[d].alias) <==> InSubtree(n, w.nodes[d].alias) {
          AncestryKept(w.nodes, w1.nodes, p, n, d);
        }
        assert forall d :: d in children <==> d == c || d in children[1..];
      }
    }
  }

  /** An applied re-parent of a parent-complete registry, whatever ids it names, leaves every
      non-root row with its parent exactly if none of them is N's parent or above it. */
  lemma ReparentKeepsCompleteIff(env: Env, db: Registry, cmd: Command)
    requires ValidEnv(env) && Sound(db) && ParentComplete(db.nodes) && ValidCommand(cmd)
    requires cmd.ReparentCmd? && cmd !in db.log && Step(env, db, cmd).verdict.Applied?
    ensures ParentComplete(Step(env, db, cmd).db.nodes) <==> NamesNoAncestor(db.nodes, cmd)
  {
    AppliedMoves(env, db, cmd);
    var w := InsertedReady(db, cmd.newNode);
    MovesCompleteIff(env, db, cmd, w);
  }

  /** An applied re-parent is an insert and the moves that follow it. */
  lemma AppliedMoves(env: Env, db: Registry, cmd: Command)
    requires ValidEnv(env) && cmd.ReparentCmd? && cmd !in db.log && Step(env, db, cmd).verdict.Applied?
    ensures RowAt(db.nodes, ParentAlias(cmd.newNode.alias)).Some? && Insert(db, cmd.newNode).Ok?
    ensures var moved := MoveChildren(env, Insert(db, cmd.newNode).value, cmd.movedChildIds, cmd.newNode.alias);
            moved.Ok? && Step(env, db, cmd).db.nodes == moved.value.nodes
    ensures forall c :: c in cmd.movedChildIds ==> c in db.nodes
  {
    ReparentApplied(env, db, cmd);
    NamedIdsExist(env, db, cmd);
  }

  lemma MovesCompleteIff(env: Env, db: Registry, cmd: Command, w: Work)
    requires ValidEnv(env) && cmd.ReparentCmd? && Dotted(cmd.newNode.alias)
    requires WorkSound(w) && ParentComplete(w.nodes) && AllDotted(w.nodes) && RowAt(w.nodes, cmd.newNode.alias).Some?
    requires forall i :: i in db.nodes ==> i in w.nodes && w.nodes[i] == db.nodes[i]
    requires forall c :: c in cmd.movedChildIds ==> c in db.nodes
    requires MoveChildren(env, w, cmd.movedChildIds, cmd.newNode.alias).Ok?
    ensures ParentComplete(MoveChildren(env, w, cmd.movedChildIds, cmd.newNode.alias).value.nodes) <==> NamesNoAncestor(db.nodes, cmd)
  {
    MoveChildrenCompleteIff(env, w, cmd.movedChildIds, cmd.newNode.alias);
  }

  lemma InsertedDotted(db: Registry, n: GNode, w: Work)
    requires Sound(db) && Inserted(db, n, w) && ValidGNode(n)
    ensures AllDotted(w.nodes)
  {
    forall i | i in w.nodes ensures Dotted(w.nodes[i].alias) {
      if i != n.id { assert w.nodes[i] == db.nodes[i]; }
    }
  }

  lemma InsertedComplete(db: Registry, n: GNode, w: Work)
    requires ParentComplete(db.nodes) && Inserted(db, n, w)
    requires RowAt(db.nodes, ParentAlias(n.alias)).Some?
    ensures ParentComplete(w.nodes) && RowAt(w.nodes, n.alias).Some?
  {
    assert forall i :: i in db.nodes ==> i in w.nodes && w.nodes[i] == db.nodes[i];
    forall i | i in w.nodes && !IsForestRoot(w.nodes[i].alias) ensures RowAt(w.nodes, ParentAlias(w.nodes[i].alias)).Some? {
      StillHeld(db.nodes, w.nodes, ParentAlias(w.nodes[i].alias));
    }
    assert w.nodes[n.id].alias == n.alias;
  }

  lemma InsertedReady(db: Registry, n: GNode) returns (w: Work)
    requires Sound(db) && ParentComplete(db.nodes) && ValidGNode(n) && Insert(db, n).Ok?
    requires RowAt(db.nodes, ParentAlias(n.alias)).Some?
    ensures Insert(db, n) == Ok(w) && WorkSound(w)
    ensures ParentComplete(w.nodes) && AllDotted(w.nodes) && RowAt(w.nodes, n.alias).Some?
    ensures forall i :: i in db.nodes ==> i in w.nodes && w.nodes[i] == db.nodes[i]
  {
    InsertSound(db, n);
    w := Insert(db, n).value;
    InsertedKeeps(db, n, w);
    InsertedComplete(db, n, w);
    InsertedDotted(db, n, w);
  }

  lemma InsertedKeeps(db: Registry, n: GNode, w: Work)
    requires Inserted(db, n, w)
    ensures forall i :: i in db.nodes ==> i in w.nodes && w.nodes[i] == db.nodes[i]
  {}

  lemma {:induction false} IntendedNamesExist(env: Env, nodes: map<Id, GNode>, children: seq<Id>, n: Alias, acc: map<Alias, Id>)
    requires ValidEnv(env) && Intended(env, nodes, children, n, acc).Ok?
    ensures forall c :: c in children ==> c in nodes
    decreases |children|
  {
    if children != [] {
      var prior := nodes[children[0]].alias;
      var ids := env.rowOrder(nodes, SubtreeIds(nodes, prior));
      IntendedNamesExist(env, nodes, children[1..], n, Predict(nodes, ids, prior, MovedPrefix(n, prior), acc));
    }
  }

  lemma NamedIdsExist(env: Env, db: Registry, cmd: Command)
    requires ValidEnv(env) && cmd.ReparentCmd? && cmd !in db.log && Step(env, db, cmd).verdict.Applied?
    ensures forall c :: c in cmd.movedChildIds ==> c in db.nodes
  {
    ReparentApplied(env, db, cmd);
    IntendedNamesExist(env, db.nodes, cmd.movedChildIds, cmd.newNode.alias, map[cmd.newNode.alias := cmd.newNode.id]);
  }

  // ---- an orphan ----

  /** A Pending copper forest root and a Pending copper node to be placed right under it. */
  ghost predicate RootAndLeaf(root: GNode, leaf: GNode, universe: string) {
    && root == PendingNode(root.id, root.alias) && leaf == PendingNode(leaf.id, leaf.alias) && root.id != leaf.id
    && ValidGNode(root) && ValidGNode(leaf)
    && IsForestRoot(root.alias) && !IsForestRoot(leaf.alias) && ParentAlias(leaf.alias) == root.alias
    && UniverseOf(root.alias) == universe
  }

  function RootCreate(root: GNode): Command { CreateCmd(root, None) }

  /** N under the root, naming the root itself as the child to move. */
  function RootUnderLeaf(root: GNode, leaf: GNode): Command { ReparentCmd(leaf, [root.id], None) }

  /** The registry after creating the root. */
  function OnlyRoot(root: GNode): Registry {
    Registry(map[root.id := root], map[root.alias := root.id], [RootCreate(root)], map[], {})
  }

  lemma OnlyRootReached(env: Env, root: GNode)
    requires ValidEnv(env) && env.proofOk(None) && ValidGNode(root) && root == PendingNode(root.id, root.alias)
    requires IsForestRoot(root.alias) && UniverseOf(root.alias) == env.universe
    ensures Run(env, Empty({}), [RootCreate(root)]) == OnlyRoot(root)
    ensures Sound(OnlyRoot(root)) && ParentComplete(OnlyRoot(root).nodes)
  {
    EmptySound(env, {});
    RootCreateApplies(env, RootCreate(root));
    Creates.NewCreateVerdict(env, Empty({}), RootCreate(root));
    RunOne(env, Empty({}), RootCreate(root));
    StepKeepsSound(env, Empty({}), RootCreate(root));
    StepKeepsComplete(env, Empty({}), RootCreate(root));
  }

  /** A table of Pending copper nodes of one universe, and no edges. */
  lemma PendingCopperClean(nodes: map<Id, GNode>, universe: string)
    requires forall i :: i in nodes ==>
               nodes[i].status.Pending? && nodes[i].baseClass.ConnectivityNode? && UniverseOf(nodes[i].alias) == universe
    ensures Clean(nodes, map[], {}, universe)
  {
    forall i | i in nodes ensures ClassOk(nodes, nodes[i]) {}
  }

  lemma LeafBelowRoot(root: GNode, leaf: GNode, universe: string)
    requires RootAndLeaf(root, leaf, universe)
    ensures Below(leaf.alias, root.alias) && UniverseOf(leaf.alias) == universe
    ensures root.alias != leaf.alias && Dotted(root.alias) && Dotted(leaf.alias)
  {
    BelowIffParentInSubtree(leaf.alias, root.alias);
    BelowSuffix(leaf.alias, root.alias);
    SubtreeUniverse(leaf.alias, root.alias);
  }

  /** Either row after the root's subtree moved under the leaf. */
  lemma RowMovedUnderLeaf(root: GNode, leaf: GNode, universe: string, g: GNode)
    requires RootAndLeaf(root, leaf, universe) && (g == root || g == leaf)
    ensures var r := Renamed(g, root.alias, MovedPrefix(leaf.alias, root.alias));
            ValidGNode(r) && UniverseOf(r.alias) == universe && Below(r.alias, leaf.alias)
  {
    LeafBelowRoot(root, leaf, universe);
    var top, moved := ParentAlias(root.alias), RewriteAlias(g.alias, root.alias, MovedPrefix(leaf.alias, root.alias));
    MovedPrefixIsSwap(g.alias, root.alias, top, leaf.alias);
    RewriteCommutesWithParent(g.alias, top, leaf.alias);
    SplitLast(root.alias);
    BelowSuffix(leaf.alias, root.alias);
    assert moved != g.alias;
    RenameKeepsAxioms(g, top, leaf.alias);
    SubtreeUniverse(moved, leaf.alias);
  }

  function LeafInserted(root: GNode, leaf: GNode): Work {
    Work(map[root.id := root, leaf.id := leaf], map[root.alias := root.id, leaf.alias := leaf.id], [leaf.id])
  }

  lemma BothInSubtree(root: GNode, leaf: GNode, universe: string)
    requires RootAndLeaf(root, leaf, universe)
    ensures SubtreeIds(LeafInserted(root, leaf).nodes, root.alias) == {root.id, leaf.id}
  {
    LeafBelowRoot(root, leaf, universe);
  }

  lemma InsertedWorkSound(root: GNode, leaf: GNode)
    requires root.id != leaf.id && root.alias != leaf.alias
    ensures WorkSound(LeafInserted(root, leaf))
  {
    var w := LeafInserted(root, leaf);
    assert w.updated == [leaf.id] && w.nodes.Keys == {root.id, leaf.id} && w.ledger.Keys == {root.alias, leaf.alias};
  }

  lemma LeafInsert(root: GNode, leaf: GNode, universe: string)
    requires RootAndLeaf(root, leaf, universe)
    ensures Insert(OnlyRoot(root), leaf) == Ok(LeafInserted(root, leaf)) && WorkSound(LeafInserted(root, leaf))
  {
    LeafBelowRoot(root, leaf, universe);
    InsertedWorkSound(root, leaf);
    assert OnlyRoot(root).nodes[leaf.id := leaf] == LeafInserted(root, leaf).nodes;
    assert OnlyRoot(root).ledger[leaf.alias := leaf.id] == LeafInserted(root, leaf).ledger;
  }

  lemma BothRowsMove(env: Env, root: GNode, leaf: GNode)
    requires ValidEnv(env) && RootAndLeaf(root, leaf, env.universe)
    ensures RewritePrefix(env, LeafInserted(root, leaf), root.alias, MovedPrefix(leaf.alias, root.alias)).Ok?
  {
    var w, q := LeafInserted(root, leaf), MovedPrefix(leaf.alias, root.alias);
    LeafInsert(root, leaf, env.universe);
    BothInSubtree(root, leaf, env.universe);
    LeafBelowRoot(root, leaf, env.universe);
    var ids := env.rowOrder(w.nodes, {root.id, leaf.id});
    var root', leaf' := RewriteAlias(root.alias, root.alias, q), RewriteAlias(leaf.alias, root.alias, q);
    NewAliasesNew(root, leaf, env.universe);
    var claims := map[root' := root.id, leaf' := leaf.id];
    BothClaimed(root, leaf, ids, q, claims);
    RenameRowsSucceeds(w, ids, root.alias, q, claims);
  }

  lemma BothClaimed(root: GNode, leaf: GNode, ids: seq<Id>, q: Alias, claims: map<Alias, Id>)
    requires root.id != leaf.id && forall i :: i in ids ==> i == root.id || i == leaf.id
    requires var root', leaf' := RewriteAlias(root.alias, root.alias, q), RewriteAlias(leaf.alias, root.alias, q);
             root' != leaf' && claims == map[root' := root.id, leaf' := leaf.id]
    ensures ClaimedBy(LeafInserted(root, leaf).nodes, ids, root.alias, q, claims)
  {}

  lemma NewAliasesNew(root: GNode, leaf: GNode, universe: string)
    requires RootAndLeaf(root, leaf, universe)
    ensures var q := MovedPrefix(leaf.alias, root.alias);
            var root', leaf' := RewriteAlias(root.alias, root.alias, q), RewriteAlias(leaf.alias, root.alias, q);
            root' != leaf' && root' != root.alias && root' != leaf.alias && leaf' != root.alias && leaf' != leaf.alias
  {
    LeafBelowRoot(root, leaf, universe);
    BelowSuffix(leaf.alias, root.alias);
    RowMovedUnderLeaf(root, leaf, universe, root);
    RowMovedUnderLeaf(root, leaf, universe, leaf);
    var q := MovedPrefix(leaf.alias, root.alias);
    BelowSuffix(RewriteAlias(root.alias, root.alias, q), leaf.alias);
    BelowSuffix(RewriteAlias(leaf.alias, root.alias, q), leaf.alias);
    if RewriteAlias(root.alias, root.alias, q) == RewriteAlias(leaf.alias, root.alias, q) {
      RewriteInjective(root.alias, leaf.alias, root.alias, q);
    }
  }

  lemma CheckPasses(env: Env, root: GNode, leaf: GNode)
    requires ValidEnv(env) && RootAndLeaf(root, leaf, env.universe)
    ensures var p := Prediction(env, OnlyRoot(root), RootUnderLeaf(root, leaf));
            p.Ok? && !Collides(OnlyRoot(root).ledger, p.value)
  {
    var nodes, q := OnlyRoot(root).nodes, MovedPrefix(leaf.alias, root.alias);
    var ids := env.rowOrder(nodes, SubtreeIds(nodes, root.alias));
    PredictIs(nodes, ids, root.alias, q, map[leaf.alias := leaf.id]);
    OneChildPredicted(env, nodes, root.id, leaf.alias, map[leaf.alias := leaf.id]);
    NewAliasesNew(root, leaf, env.universe);
    LeafBelowRoot(root, leaf, env.universe);
  }

  lemma OneChildPredicted(env: Env, nodes: map<Id, GNode>, c: Id, n: Alias, acc: map<Alias, Id>)
    requires ValidEnv(env) && c in nodes
    ensures Intended(env, nodes, [c], n, acc)
            == Ok(Predict(nodes, env.rowOrder(nodes, SubtreeIds(nodes, nodes[c].alias)), nodes[c].alias, MovedPrefix(n, nodes[c].alias), acc))
  {
    assert [c][1..] == [];
  }

  lemma OneChildMoved(env: Env, w: Work, c: Id, n: Alias)
    requires ValidEnv(env) && w.Valid() && c in w.nodes
    ensures MoveChildren(env, w, [c], n) == RewritePrefix(env, w, w.nodes[c].alias, MovedPrefix(n, w.nodes[c].alias))
  {
    assert [c][1..] == [];
  }

  lemma MovedRowIs(root: GNode, leaf: GNode, after: map<Id, GNode>, i: Id) returns (g: GNode)
    requires i in after && SubtreeMoved(LeafInserted(root, leaf).nodes, after, root.alias, leaf.alias)
    requires SubtreeIds(LeafInserted(root, leaf).nodes, root.alias) == {root.id, leaf.id}
    ensures g == root || g == leaf
    ensures after[i] == Renamed(g, root.alias, MovedPrefix(leaf.alias, root.alias))
  {
    g := LeafInserted(root, leaf).nodes[i];
  }

  lemma MovedRowsFine(root: GNode, leaf: GNode, universe: string, after: map<Id, GNode>, i: Id)
    requires RootAndLeaf(root, leaf, universe) && i in after
    requires SubtreeMoved(LeafInserted(root, leaf).nodes, after, root.alias, leaf.alias)
    ensures after[i].status.Pending? && after[i].baseClass.ConnectivityNode? && UniverseOf(after[i].alias) == universe
    ensures ValidGNode(after[i])
  {
    BothInSubtree(root, leaf, universe);
    var g := MovedRowIs(root, leaf, after, i);
    RowMovedUnderLeaf(root, leaf, universe, g);
  }

  /** With no edges, a clean result with valid rows is committed. */
  lemma FinishApplies(env: Env, db: Registry, cmd: Command, w: Work)
    requires ValidEnv(env) && WorkSound(w) && db.edges == map[] && db.positions == {}
    requires Clean(w.nodes, map[], {}, env.universe) && forall i :: i in w.nodes ==> ValidGNode(w.nodes[i])
    ensures FinishReparent(env, db, cmd, w).verdict.Applied?
  {
    RowsAreUpdated(w);
    var chosen := ActiveEdgeIds(db.edges, Members(w.updated));
    assert chosen == {};
    EmptyEnumeration(env.edgeOrder(db.edges, chosen), chosen);
  }

  lemma MoveFinishes(env: Env, root: GNode, leaf: GNode, w: Work)
    requires ValidEnv(env) && RootAndLeaf(root, leaf, env.universe) && WorkSound(w)
    requires SubtreeMoved(LeafInserted(root, leaf).nodes, w.nodes, root.alias, leaf.alias)
    ensures FinishReparent(env, OnlyRoot(root), RootUnderLeaf(root, leaf), w).verdict.Applied?
  {
    forall i | i in w.nodes
      ensures w.nodes[i].status.Pending? && w.nodes[i].baseClass.ConnectivityNode? && UniverseOf(w.nodes[i].alias) == env.universe
      ensures ValidGNode(w.nodes[i])
    {
      MovedRowsFine(root, leaf, env.universe, w.nodes, i);
    }
    PendingCopperClean(w.nodes, env.universe);
    FinishApplies(env, OnlyRoot(root), RootUnderLeaf(root, leaf), w);
  }

  lemma ReparentApplies(env: Env, root: GNode, leaf: GNode)
    requires ValidEnv(env) && env.proofOk(None) && RootAndLeaf(root, leaf, env.universe)
    ensures Step(env, OnlyRoot(root), RootUnderLeaf(root, leaf)).verdict.Applied?
  {
    var db, cmd := OnlyRoot(root), RootUnderLeaf(root, leaf);
    CheckPasses(env, root, leaf);
    LeafBelowRoot(root, leaf, env.universe);
    assert RowAt(db.nodes, Parent(cmd)) == Some(root) by { assert UniqueAliases(db.nodes); RowAtIs(db.nodes, root.id); }
    UnguardedRefused(env, db, cmd);
    LeafInsert(root, leaf, env.universe);
    BothRowsMove(env, root, leaf);
    OneChildMoved(env, LeafInserted(root, leaf), root.id, leaf.alias);
    PrefixMoved(env, LeafInserted(root, leaf), root.alias, leaf.alias);
    MoveFinishes(env, root, leaf, Rewritten(env, db, cmd).value);
  }

  /** Naming N's own parent as a moved child passes every check of the handler and commits a
      registry, two commands from empty, in which that node has no parent. */
  lemma NamingTheParentOrphansIt(env: Env, root: GNode, leaf: GNode)
    requires ValidEnv(env) && env.proofOk(None) && RootAndLeaf(root, leaf, env.universe)
    ensures ValidCommand(RootCreate(root)) && ValidCommand(RootUnderLeaf(root, leaf))
    ensures var db := Run(env, Empty({}), [RootCreate(root)]);
            var r := Step(env, db, RootUnderLeaf(root, leaf));
            ParentComplete(db.nodes) && r.verdict.Applied? && !ParentComplete(r.db.nodes)
  {
    OnlyRootReached(env, root);
    MoveOrphans(env, root, leaf);
  }

  lemma MoveOrphans(env: Env, root: GNode, leaf: GNode)
    requires ValidEnv(env) && env.proofOk(None) && RootAndLeaf(root, leaf, env.universe)
    requires Sound(OnlyRoot(root)) && ParentComplete(OnlyRoot(root).nodes)
    ensures var r := Step(env, OnlyRoot(root), RootUnderLeaf(root, leaf)); r.verdict.Applied? && !ParentComplete(r.db.nodes)
  {
    ReparentApplies(env, root, leaf);
    NamesItsParent(root, leaf, env.universe);
    IsNewReparent(root, leaf, env.universe);
    NamingAncestorOrphans(env, OnlyRoot(root), RootUnderLeaf(root, leaf));
  }

  lemma NamingAncestorOrphans(env: Env, db: Registry, cmd: Command)
    requires ValidEnv(env) && Sound(db) && ParentComplete(db.nodes) && ValidCommand(cmd) && cmd.ReparentCmd? && cmd !in db.log
    requires Step(env, db, cmd).verdict.Applied? && !NamesNoAncestor(db.nodes, cmd)
    ensures !ParentComplete(Step(env, db, cmd).db.nodes)
  {
    ReparentKeepsCompleteIff(env, db, cmd);
  }

  lemma IsNewReparent(root: GNode, leaf: GNode, universe: string)
    requires RootAndLeaf(root, leaf, universe)
    ensures var cmd := RootUnderLeaf(root, leaf); ValidCommand(cmd) && cmd.ReparentCmd? && cmd !in OnlyRoot(root).log
  {}

  lemma NamesItsParent(root: GNode, leaf: GNode, universe: string)
    requires RootAndLeaf(root, leaf, universe)
    ensures !NamesNoAncestor(OnlyRoot(root).nodes, RootUnderLeaf(root, leaf))
  {
    LeafBelowRoot(root, leaf, universe);
    assert root.id in RootUnderLeaf(root, leaf).movedChildIds;
  }

  /** Such a root and leaf exist in the dev universe. */
  lemma DevRootAndLeaf()
    ensures RootAndLeaf(PendingNode("e", "d1.a"), PendingNode("n", "d1.a.n"), "d1")
  {
    DevRootAlias();
    DevLeafAlias();
    PendingNodeValid("e", "d1.a");
    PendingNodeValid("n", "d1.a.n");
  }

  lemma DevLeafAlias()
    ensures LeftRightDot("d1.a.n") && Dotted("d1.a.n") && LastWord("d1.a.n") == "n" && ParentAlias("d1.a.n") == "d1.a"
    ensures !IsForestRoot("d1.a.n")
  {
    JoinLast("d1.a", "n");
    assert "d1.a" + "." + "n" == "d1.a.n";
  }
}
