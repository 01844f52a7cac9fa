/** The hypotheses of the main results can be met: servers exist, and a re-parent that moves a node
    is applied in three commands from empty. */
module Examples {
  import opened Prelude
  import opened Aliases
  import opened GNodes
  import opened Tables
  import opened Validator
  import opened Transactions
  import opened Invariants
  import opened Rewriting
  import opened Reparents
  import opened Creates
  import opened Topology
  import opened Runs
  import opened Orphans
  import opened Restore

  /** Some order of a set of ids. */
  ghost function InSomeOrder(ids: set<Id>): (order: seq<Id>)
    ensures Enumerates(order, ids)
    decreases |ids|
  {
    if ids == {} then []
    else
      var i :| i in ids;
      [i] + InSomeOrder(ids - {i})
  }

  /** A server exists for every universe and every proof gate. */
  lemma ServerExists(universe: string, proofOk: Option<string> -> bool) returns (env: Env)
    ensures ValidEnv(env) && env.universe == universe && env.proofOk == proofOk
  {
    StringLeqOrder();
    env := Env(universe, proofOk, StringLeq, (nodes, ids) => InSomeOrder(ids), (edges, ids) => InSomeOrder(ids));
  }

  /** A root with two nodes to be placed under it, `a` first and `n` above it later. */
  ghost predicate Siblings(root: GNode, a: GNode, n: GNode, universe: string) {
    && RootAndLeaf(root, a, universe) && RootAndLeaf(root, n, universe)
    && a.id != n.id && a.alias != n.alias
  }

  function MoveUnder(a: GNode, n: GNode): Command { ReparentCmd(n, [a.id], None) }

  lemma RootAndLeafComplete(root: GNode, a: GNode, universe: string)
    requires RootAndLeaf(root, a, universe)
    ensures var nodes := RootWithLeaf(root, a).nodes;
            ParentComplete(nodes) && RowAt(nodes, root.alias) == Some(root)
  {
    var nodes := RootWithLeaf(root, a).nodes;
    LeafBelowRoot(root, a, universe);
    TwoRowsUnique(root, a);
    RowAtIs(nodes, root.id);
    forall i | i in nodes && !IsForestRoot(nodes[i].alias) ensures RowAt(nodes, ParentAlias(nodes[i].alias)).Some? {
      assert nodes[i] == a;
    }
  }

  lemma TwoRowsUnique(root: GNode, a: GNode)
    requires root.id != a.id && root.alias != a.alias
    ensures var nodes := RootWithLeaf(root, a).nodes;
            UniqueAliases(nodes) && nodes.Keys == {root.id, a.id} && nodes[root.id] == root && nodes[a.id] == a
  {}

  lemma RootAndLeafClean(root: GNode, a: GNode, universe: string)
    requires RootAndLeaf(root, a, universe)
    ensures Clean(RootWithLeaf(root, a).nodes, map[], {}, universe)
  {
    LeafBelowRoot(root, a, universe);
    PendingCopperClean(RootWithLeaf(root, a).nodes, universe);
  }

  lemma OnlyLeafMoves(root: GNode, a: GNode, universe: string)
    requires RootAndLeaf(root, a, universe)
    ensures MovedIds(RootWithLeaf(root, a).nodes, [a.id]) == {a.id}
  {
    LeafBelowRoot(root, a, universe);
    var nodes := RootWithLeaf(root, a).nodes;
    assert a.id in [a.id] && InSubtree(nodes[a.id].alias, nodes[a.id].alias);
    if InSubtree(root.alias, a.alias) { BelowSuffix(a.alias, root.alias); }
  }

  /** Moving one sibling under another gives it an alias that neither it nor the parent has. */
  lemma MovedAliasIsNew(r: Alias, a: Alias, n: Alias)
    requires Dotted(a) && Dotted(n) && ParentAlias(a) == r && ParentAlias(n) == r && a != n
    ensures n != r && RewriteAlias(a, r, n) != r && RewriteAlias(a, r, n) != a
  {
    BelowOwnParent(a);
    BelowOwnParent(n);
    RewriteCommutesWithParent(a, r, n);
    SiblingsDisjoint(RewriteAlias(a, r, n), n, a);
    BelowSuffix(RewriteAlias(a, r, n), n);
    BelowSuffix(n, r);
  }

  lemma LedgerOfTwo(root: GNode, a: GNode)
    ensures RootWithLeaf(root, a).ledger.Keys == {root.alias, a.alias}
  {}

  /** The aliases a move of `a` under `n` claims are new. */
  lemma ClaimsAreNew(root: GNode, a: GNode, n: GNode, universe: string)
    requires Siblings(root, a, n, universe)
    ensures n.alias !in RootWithLeaf(root, a).ledger
    ensures RewriteAlias(a.alias, root.alias, n.alias) !in RootWithLeaf(root, a).ledger
  {
    MovedAliasIsNew(root.alias, a.alias, n.alias);
    LedgerOfTwo(root, a);
  }

  lemma ClaimsOfOne(m: map<Alias, Id>, nodes: map<Id, GNode>, cmd: Command, i: Id)
    requires cmd.ReparentCmd? && TargetClaims(m, nodes, cmd) && MovedIds(nodes, cmd.movedChildIds) == {i} && i in nodes
    ensures m.Keys <= {cmd.newNode.alias, RewriteAlias(nodes[i].alias, Parent(cmd), cmd.newNode.alias)}
  {}

  lemma ApartNeverCollide(ledger: map<Alias, Id>, claims: map<Alias, Id>)
    requires ledger.Keys !! claims.Keys
    ensures !Collides(ledger, claims)
  {
    forall a | a in claims ensures a !in ledger {
      assert a in claims.Keys;
    }
  }

  lemma OneClaimCollidesNot(ledger: map<Alias, Id>, m: map<Alias, Id>, nodes: map<Id, GNode>, cmd: Command, i: Id)
    requires cmd.ReparentCmd? && TargetClaims(m, nodes, cmd) && MovedIds(nodes, cmd.movedChildIds) == {i} && i in nodes
    requires cmd.newNode.alias !in ledger && RewriteAlias(nodes[i].alias, Parent(cmd), cmd.newNode.alias) !in ledger
    ensures !Collides(ledger, m)
  {
    ClaimsOfOne(m, nodes, cmd, i);
    ApartNeverCollide(ledger, m);
  }

  lemma OneMoveCollidesNot(env: Env, db: Registry, cmd: Command, i: Id)
    requires ValidEnv(env) && Sound(db) && WellFormed(db.nodes, cmd) && ValidCommand(cmd)
    requires MovedIds(db.nodes, cmd.movedChildIds) == {i} && i in db.nodes
    requires cmd.newNode.alias !in db.ledger
    requires RewriteAlias(db.nodes[i].alias, Parent(cmd), cmd.newNode.alias) !in db.ledger
    ensures Prediction(env, db, cmd).Ok? && !Collides(db.ledger, Prediction(env, db, cmd).value)
  {
    PredictionIs(env, db, cmd);
    OneClaimCollidesNot(db.ledger, Prediction(env, db, cmd).value, db.nodes, cmd, i);
  }

  lemma NothingCollides(env: Env, root: GNode, a: GNode, n: GNode)
    requires ValidEnv(env) && env.proofOk(None) && Siblings(root, a, n, env.universe)
    requires Sound(RootWithLeaf(root, a)) && WellFormed(RootWithLeaf(root, a).nodes, MoveUnder(a, n))
    ensures var prediction := Prediction(env, RootWithLeaf(root, a), MoveUnder(a, n));
            prediction.Ok? && !Collides(RootWithLeaf(root, a).ledger, prediction.value)
  {
    OnlyLeafMoves(root, a, env.universe);
    ClaimsAreNew(root, a, n, env.universe);
    OneMoveCollidesNot(env, RootWithLeaf(root, a), MoveUnder(a, n), a.id);
  }

  lemma MoveIsWellFormed(root: GNode, a: GNode, n: GNode, universe: string)
    requires Siblings(root, a, n, universe)
    ensures WellFormed(RootWithLeaf(root, a).nodes, MoveUnder(a, n))
  {
    LeafBelowRoot(root, a, universe);
  }

  lemma MoveGuarded(env: Env, root: GNode, a: GNode, n: GNode)
    requires ValidEnv(env) && env.proofOk(None) && Siblings(root, a, n, env.universe)
    requires Sound(RootWithLeaf(root, a)) && WellFormed(RootWithLeaf(root, a).nodes, MoveUnder(a, n))
    ensures Guarded(env, RootWithLeaf(root, a), MoveUnder(a, n))
  {
    NothingCollides(env, root, a, n);
    RootAndLeafComplete(root, a, env.universe);
    LeafBelowRoot(root, n, env.universe);
  }

  lemma MoveLegal(root: GNode, a: GNode, n: GNode, universe: string)
    requires Siblings(root, a, n, universe)
    ensures Legal(RootWithLeaf(root, a), MoveUnder(a, n), universe)
  {
    RootAndLeafComplete(root, a, universe);
    LeafBelowRoot(root, n, universe);
  }

  /** A new well-formed re-parent, legal where it moves rows. */
  ghost predicate Orderly(db: Registry, cmd: Command, universe: string) {
    && ParentComplete(db.nodes) && Clean(db.nodes, db.edges, db.positions, universe)
    && WellFormed(db.nodes, cmd) && ValidCommand(cmd) && cmd !in db.log && cmd.newNode.positionPointId.None?
    && Legal(db, cmd, universe)
  }

  lemma MoveIsOrderly(root: GNode, a: GNode, n: GNode, universe: string)
    requires Siblings(root, a, n, universe)
    ensures Orderly(RootWithLeaf(root, a), MoveUnder(a, n), universe)
  {
    RootAndLeafComplete(root, a, universe);
    RootAndLeafClean(root, a, universe);
    MoveIsWellFormed(root, a, n, universe);
    MoveLegal(root, a, n, universe);
  }

  lemma OrderlyMoveApplies(env: Env, db: Registry, cmd: Command)
    requires ValidEnv(env) && Sound(db) && Orderly(db, cmd, env.universe) && Guarded(env, db, cmd)
    ensures AppliedReparent(env, db, cmd)
  {
    ReparentDecided(env, db, cmd);
  }

  /** The move of `a` under `n` is applied. */
  lemma MoveApplies(env: Env, root: GNode, a: GNode, n: GNode)
    requires ValidEnv(env) && env.proofOk(None) && Siblings(root, a, n, env.universe)
    requires Sound(RootWithLeaf(root, a))
    ensures AppliedReparent(env, RootWithLeaf(root, a), MoveUnder(a, n)) && ParentComplete(RootWithLeaf(root, a).nodes)
  {
    MoveIsOrderly(root, a, n, env.universe);
    MoveGuarded(env, root, a, n);
    OrderlyMoveApplies(env, RootWithLeaf(root, a), MoveUnder(a, n));
  }

  /** From empty: create a root, create a node under it, move that node under a third one. */
  lemma ThreeCommandsApply(env: Env, root: GNode, a: GNode, n: GNode)
    requires ValidEnv(env) && env.proofOk(None) && Siblings(root, a, n, env.universe)
    ensures var db := Run(env, Empty({}), [RootCreate(root), CreateCmd(a, None)]);
            && AppliedReparent(env, db, MoveUnder(a, n)) && ParentComplete(db.nodes)
  {
    EarlyRuns(env, root, a);
    LeafCreated(env, root, a);
    MoveApplies(env, root, a, n);
  }

  lemma SiblingAlias()
    ensures LeftRightDot("d1.a.c") && Dotted("d1.a.c") && LastWord("d1.a.c") == "c" && ParentAlias("d1.a.c") == "d1.a"
    ensures !IsForestRoot("d1.a.c")
  {
    JoinLast("d1.a", "c");
    assert "d1.a" + "." + "c" == "d1.a.c";
  }

  lemma PendingPair(rootId: Id, root: Alias, leafId: Id, leaf: Alias, universe: string)
    requires rootId != leafId && IsForestRoot(root) && !IsForestRoot(leaf) && ParentAlias(leaf) == root && UniverseOf(root) == universe
    requires ValidGNode(PendingNode(rootId, root)) && ValidGNode(PendingNode(leafId, leaf))
    ensures RootAndLeaf(PendingNode(rootId, root), PendingNode(leafId, leaf), universe)
  {}

  /** Such rows exist in the dev universe. */
  lemma DevSiblings()
    ensures Siblings(PendingNode("e", "d1.a"), PendingNode("c", "d1.a.c"), PendingNode("n", "d1.a.n"), "d1")
  {
    DevRootAndLeaf();
    DevRootAlias();
    SiblingAlias();
    assert "d1.a.c"[5] != "d1.a.n"[5];
    PendingNodeValid("c", "d1.a.c");
    PendingPair("e", "d1.a", "c", "d1.a.c", "d1");
  }
}
