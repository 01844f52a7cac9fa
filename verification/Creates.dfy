/** Creates as whole commands: when they are applied, and that they never fail otherwise. */
module Creates {
  import opened Prelude
  import opened Aliases
  import opened GNodes
  import opened Tables
  import opened Validator
  import opened Transactions
  import opened Invariants
  import opened Rewriting
  import opened Reparents
  import opened ForestReads

  /** The table with one more row. */
  function Added(nodes: map<Id, GNode>, n: GNode): map<Id, GNode> { nodes[n.id := n] }

  /** Everything the create handler checks before it inserts. */
  ghost predicate CreateGuarded(env: Env, db: Registry, cmd: Command) {
    var n := cmd.newNode;
    && env.proofOk(cmd.proof) && UniverseOf(n.alias) == env.universe
    && n.id !in db.nodes && n.alias !in db.ledger
    && (IsForestRoot(n.alias) || ParentAdmits(db.nodes, n.alias))
  }

  lemma GuardedInserts(db: Registry, n: GNode)
    requires Sound(db) && n.id !in db.nodes && n.alias !in db.ledger && n.positionPointId.None?
    ensures Insert(db, n) == Ok(Work(Added(db.nodes, n), db.ledger[n.alias := n.id], [n.id]))
  {
    forall i | i in db.nodes ensures db.nodes[i].alias != n.alias { assert db.nodes[i].alias in db.ledger; }
  }

  lemma NewCreateVerdict(env: Env, db: Registry, cmd: Command)
    requires ValidEnv(env) && Sound(db) && ValidCommand(cmd) && cmd.CreateCmd? && cmd !in db.log
    ensures var r, n := Step(env, db, cmd), cmd.newNode;
            && !r.verdict.Aborted?
            && (r.verdict.Applied? <==>
                  CreateGuarded(env, db, cmd) && Clean(Added(db.nodes, n), db.edges, db.positions, env.universe))
            && (r.verdict.Applied? ==>
                  && r.db == db.(nodes := Added(db.nodes, n), ledger := db.ledger[n.alias := n.id], log := db.log + [cmd])
                  && r.verdict.forest == Forest([n.alias], [n], []))
  {
    if CreateGuarded(env, db, cmd) { GuardedCreate(env, db, cmd); } else { UnguardedCreateRefused(env, db, cmd); }
  }

  lemma UnguardedCreateRefused(env: Env, db: Registry, cmd: Command)
    requires ValidEnv(env) && Sound(db) && cmd.CreateCmd? && cmd !in db.log && !CreateGuarded(env, db, cmd)
    ensures Step(env, db, cmd) == Result(db, Refused)
  {
    var n := cmd.newNode;
    if n.alias in db.ledger { assert db.ledger[n.alias] in db.nodes; }
  }

  lemma GuardedCreate(env: Env, db: Registry, cmd: Command)
    requires ValidEnv(env) && Sound(db) && ValidCommand(cmd) && cmd.CreateCmd? && cmd !in db.log && CreateGuarded(env, db, cmd)
    ensures var n := cmd.newNode;
            Step(env, db, cmd)
            == if Clean(Added(db.nodes, n), db.edges, db.positions, env.universe)
               then Result(db.(nodes := Added(db.nodes, n), ledger := db.ledger[n.alias := n.id], log := db.log + [cmd]),
                      Applied(Forest([n.alias], [n], [])))
               else Result(db, Refused)
  {
    GuardedInserts(db, cmd.newNode);
  }

  /** A command already applied is answered, never failed, and changes nothing. */
  lemma RepeatAnswers(env: Env, db: Registry, cmd: Command)
    requires ValidEnv(env) && Sound(db) && cmd in db.log && env.proofOk(cmd.proof)
    ensures GetForest(env, db, [cmd.newNode.alias]).Some?
    ensures Step(env, db, cmd) == Result(db, Applied(GetForest(env, db, [cmd.newNode.alias]).value))
  {
    GetForestLists(env, db, [cmd.newNode.alias]);
  }

  /** On every sound registry a create is applied or refused with its own error, nothing else. */
  lemma CreateNeverAborts(env: Env, db: Registry, cmd: Command)
    requires ValidEnv(env) && Sound(db) && ValidCommand(cmd) && cmd.CreateCmd?
    ensures !Step(env, db, cmd).verdict.Aborted?
  {
    if cmd in db.log {
      if env.proofOk(cmd.proof) { RepeatAnswers(env, db, cmd); }
    } else {
      NewCreateVerdict(env, db, cmd);
    }
  }

  // ---- the parent's status ----

  /** A create that finds its alias-parent Suspended or PermanentlyDeactivated is refused, whatever
      else holds, and changes nothing. */
  lemma RetiredParentRefuses(env: Env, db: Registry, cmd: Command, p: Id)
    requires ValidEnv(env) && Sound(db) && cmd.CreateCmd? && cmd !in db.log && !IsForestRoot(cmd.newNode.alias)
    requires p in db.nodes && db.nodes[p].alias == ParentAlias(cmd.newNode.alias)
    requires db.nodes[p].status.Suspended? || db.nodes[p].status.PermanentlyDeactivated?
    ensures Step(env, db, cmd) == Result(db, Refused)
  {
    RowAtIs(db.nodes, p);
    UnguardedCreateRefused(env, db, cmd);
  }

  /** Whatever non-root a create plants, it plants under a row that was there and is Pending or
      Active. */
  lemma PlantedUnderLiveParent(env: Env, db: Registry, cmd: Command)
    requires ValidEnv(env) && Sound(db) && ValidCommand(cmd) && cmd.CreateCmd? && cmd !in db.log
    requires Step(env, db, cmd).verdict.Applied? && !IsForestRoot(cmd.newNode.alias)
    ensures exists p :: p in db.nodes && db.nodes[p].alias == ParentAlias(cmd.newNode.alias)
                        && (db.nodes[p].status.Pending? || db.nodes[p].status.Active?)
  {
    NewCreateVerdict(env, db, cmd);
    var e := RowAt(db.nodes, ParentAlias(cmd.newNode.alias));
    var p :| p in db.nodes && db.nodes[p] == e.value && e.value.alias == ParentAlias(cmd.newNode.alias);
  }

  /** A Pending parent will do for a Pending child: on a clean, parent-complete registry such a create,
      proven, new and of a class that may hang there, is applied. */
  lemma PendingUnderPending(env: Env, db: Registry, cmd: Command, p: Id)
    requires ValidEnv(env) && Sound(db) && ValidCommand(cmd) && cmd.CreateCmd? && cmd !in db.log
    requires ParentComplete(db.nodes) && Clean(db.nodes, db.edges, db.positions, env.universe)
    requires env.proofOk(cmd.proof) && UniverseOf(cmd.newNode.alias) == env.universe
    requires cmd.newNode.id !in db.nodes && cmd.newNode.alias !in db.ledger && !IsForestRoot(cmd.newNode.alias)
    requires p in db.nodes && db.nodes[p].alias == ParentAlias(cmd.newNode.alias)
    requires db.nodes[p].status.Pending? && cmd.newNode.status.Pending? && ParentClassOk(cmd.newNode, db.nodes[p].baseClass)
    ensures Step(env, db, cmd).verdict.Applied?
  {
    RowAtIs(db.nodes, p);
    CreateDecided(env, db, cmd);
  }

  // ---- the tree after a create ----

  /** A row whose id and alias the tables do not know. */
  ghost predicate Fresh(nodes: map<Id, GNode>, n: GNode) {
    n.id !in nodes && forall j :: j in nodes ==> nodes[j].alias != n.alias
  }

  lemma UnownedIsFresh(db: Registry, n: GNode)
    requires Sound(db) && n.id !in db.nodes && n.alias !in db.ledger
    ensures Fresh(db.nodes, n) && UniqueAliases(Added(db.nodes, n))
  {
    forall j | j in db.nodes ensures db.nodes[j].alias != n.alias { assert db.nodes[j].alias in db.ledger; }
  }

  /** Adding a leaf to a parent-complete table: what was above a row stays above it. */
  lemma ParentStays(nodes: map<Id, GNode>, n: GNode, i: Id)
    requires UniqueAliases(nodes) && UniqueAliases(Added(nodes, n)) && Fresh(nodes, n)
    requires i in nodes && ParentOf(nodes, i).Some?
    ensures ParentOf(Added(nodes, n), i) == ParentOf(nodes, i)
  {
    var p :| p in nodes && nodes[p].alias == ParentAlias(nodes[i].alias);
    RowAtIs(nodes, p);
    RowAtIs(Added(nodes, n), p);
  }

  lemma LeafParent(nodes: map<Id, GNode>, n: GNode)
    requires UniqueAliases(nodes) && UniqueAliases(Added(nodes, n)) && Fresh(nodes, n)
    requires RowAt(nodes, ParentAlias(n.alias)).Some?
    ensures ParentOf(Added(nodes, n), n.id) == RowAt(nodes, ParentAlias(n.alias))
  {
    var p :| p in nodes && nodes[p].alias == ParentAlias(n.alias);
    RowAtIs(nodes, p);
    RowAtIs(Added(nodes, n), p);
  }

  ghost predicate LegalLeaf(db: Registry, n: GNode) {
    if IsForestRoot(n.alias) then RootClassOk(n)
    else
      var e := RowAt(db.nodes, ParentAlias(n.alias));
      e.Some? && (n.status.Active? ==> e.value.status.Active?) && ParentClassOk(n, e.value.baseClass)
  }

  lemma LeafEdgesNonTree(db: Registry, n: GNode)
    requires n.id !in db.nodes && EdgesNonTree(db.nodes, db.edges)
    ensures EdgesNonTree(Added(db.nodes, n), db.edges)
  {
    forall k | k in db.edges && db.edges[k].status.Active? ensures EdgeOk(Added(db.nodes, n), db.edges[k]) {
      EdgeStaysNonTree(db.nodes, n, db.edges[k]);
    }
  }

  lemma EdgeStaysNonTree(nodes: map<Id, GNode>, n: GNode, e: Edge)
    requires n.id !in nodes && EdgeOk(nodes, e)
    ensures EdgeOk(Added(nodes, n), e)
  {
    assert Added(nodes, n)[e.fromId] == nodes[e.fromId] && Added(nodes, n)[e.toId] == nodes[e.toId];
  }

  lemma OldRowCleanAfterLeaf(nodes: map<Id, GNode>, n: GNode, i: Id)
    requires UniqueAliases(nodes) && UniqueAliases(Added(nodes, n)) && Fresh(nodes, n) && ParentComplete(nodes)
    requires i in nodes && ParentActive(nodes, nodes[i]) && ClassOk(nodes, nodes[i])
    ensures ParentActive(Added(nodes, n), nodes[i]) && ClassOk(Added(nodes, n), nodes[i])
  {
    if !IsForestRoot(nodes[i].alias) { ParentStays(nodes, n, i); }
  }

  lemma OldRowsCleanAfterLeaf(nodes: map<Id, GNode>, n: GNode)
    requires UniqueAliases(nodes) && UniqueAliases(Added(nodes, n)) && Fresh(nodes, n) && ParentComplete(nodes)
    requires ParentClosed(nodes) && ClassesOk(nodes)
    ensures forall i :: i in nodes ==> Added(nodes, n)[i] == nodes[i]
    ensures forall i :: i in nodes ==> ParentActive(Added(nodes, n), nodes[i]) && ClassOk(Added(nodes, n), nodes[i])
  {
    forall i | i in nodes ensures ParentActive(Added(nodes, n), nodes[i]) && ClassOk(Added(nodes, n), nodes[i]) {
      OldRowCleanAfterLeaf(nodes, n, i);
    }
  }

  lemma LeafSound(db: Registry, n: GNode)
    requires Sound(db) && n.id !in db.nodes && n.alias !in db.ledger
    requires !IsForestRoot(n.alias) ==> RowAt(db.nodes, ParentAlias(n.alias)).Some?
    ensures var after := Added(db.nodes, n); ParentActive(after, n) && ClassOk(after, n) <==> LegalLeaf(db, n)
  {
    UnownedIsFresh(db, n);
    if !IsForestRoot(n.alias) { LeafParent(db.nodes, n); }
  }

  lemma LeafClean(env: Env, db: Registry, n: GNode)
    requires Sound(db) && ParentComplete(db.nodes) && Clean(db.nodes, db.edges, db.positions, env.universe)
    requires n.id !in db.nodes && n.alias !in db.ledger && ValidGNode(n) && n.positionPointId.None?
    requires UniverseOf(n.alias) == env.universe
    requires !IsForestRoot(n.alias) ==> RowAt(db.nodes, ParentAlias(n.alias)).Some?
    ensures Clean(Added(db.nodes, n), db.edges, db.positions, env.universe) <==> LegalLeaf(db, n)
  {
    var after := Added(db.nodes, n);
    LeafEdgesNonTree(db, n);
    LeafSound(db, n);
    UnownedIsFresh(db, n);
    OldRowsCleanAfterLeaf(db.nodes, n);
    RowsClean(after, n, env.universe, db.positions);
  }

  /** The per-row invariants of a table whose other rows satisfy them. */
  lemma RowsClean(after: map<Id, GNode>, n: GNode, universe: string, positions: set<Id>)
    requires n.id in after && after[n.id] == n
    requires forall i :: i in after && i != n.id ==>
               && UniverseOf(after[i].alias) == universe && PositionHeld(after[i], positions)
               && ParentActive(after, after[i]) && ClassOk(after, after[i])
    requires UniverseOf(n.alias) == universe && PositionHeld(n, positions)
    ensures UniverseScoped(after, universe) && PositionsHeld(after, positions)
    ensures ParentClosed(after) && ClassesOk(after) <==> ParentActive(after, n) && ClassOk(after, n)
  {}

  /** On a clean, parent-complete registry a create is applied exactly if its guards pass and the
      new leaf's class and activity are legal where it hangs. */
  lemma CreateDecided(env: Env, db: Registry, cmd: Command)
    requires ValidEnv(env) && Sound(db) && ValidCommand(cmd) && cmd.CreateCmd? && cmd !in db.log
    requires ParentComplete(db.nodes) && Clean(db.nodes, db.edges, db.positions, env.universe)
    ensures Step(env, db, cmd).verdict.Applied? <==> CreateGuarded(env, db, cmd) && LegalLeaf(db, cmd.newNode)
  {
    NewCreateVerdict(env, db, cmd);
    if CreateGuarded(env, db, cmd) { LeafClean(env, db, cmd.newNode); }
  }

  lemma CreateKeepsComplete(env: Env, db: Registry, cmd: Command)
    requires ValidEnv(env) && Sound(db) && ValidCommand(cmd) && cmd.CreateCmd? && cmd !in db.log
    requires ParentComplete(db.nodes) && Step(env, db, cmd).verdict.Applied?
    ensures ParentComplete(Step(env, db, cmd).db.nodes)
  {
    NewCreateVerdict(env, db, cmd);
    AddedComplete(db.nodes, cmd.newNode);
  }

  lemma AddedComplete(nodes: map<Id, GNode>, n: GNode)
    requires ParentComplete(nodes) && n.id !in nodes && (IsForestRoot(n.alias) || ParentAdmits(nodes, n.alias))
    ensures ParentComplete(Added(nodes, n))
  {
    var after := Added(nodes, n);
    forall i | i in after && !IsForestRoot(after[i].alias) ensures RowAt(after, ParentAlias(after[i].alias)).Some? {
      StillHeld(nodes, after, ParentAlias(after[i].alias));
    }
  }

  /** Nothing is at or below a fresh alias but the new row itself. */
  lemma LeafSubtree(db: Registry, n: GNode, g: GNode)
    requires Sound(db) && ParentComplete(db.nodes) && Dotted(n.alias) && Fresh(db.nodes, n)
    ensures g.id in Added(db.nodes, n) && Added(db.nodes, n)[g.id] == g && InSubtree(g.alias, n.alias) <==> g == n
  {
    if g.id in db.nodes { NoneBelowUnheld(db.nodes, n.alias, g.id); }
  }

  lemma RequestedOne(a: Alias, root: Alias)
    ensures Requested(a, [root]) <==> InSubtree(a, root)
  {
    assert root in [root];
  }

  /** The broadcast of a create is what reading its root gives afterwards. */
  lemma CreateBroadcastIsForest(env: Env, db: Registry, cmd: Command)
    requires ValidEnv(env) && Sound(db) && ValidCommand(cmd) && cmd.CreateCmd? && cmd !in db.log
    requires ParentComplete(db.nodes) && Step(env, db, cmd).verdict.Applied?
    ensures var r := Step(env, db, cmd);
            var read := GetForest(env, r.db, [cmd.newNode.alias]);
            read.Some? && SameContent(r.verdict.forest, read.value)
  {
    NewCreateVerdict(env, db, cmd);
    StepKeepsSound(env, db, cmd);
    LeafForest(env, db, cmd.newNode, Step(env, db, cmd).db);
  }

  lemma LeafForest(env: Env, db: Registry, n: GNode, db': Registry)
    requires ValidEnv(env) && Sound(db) && Sound(db') && ParentComplete(db.nodes) && ValidGNode(n)
    requires n.id !in db.nodes && n.alias !in db.ledger && db'.nodes == Added(db.nodes, n) && db'.edges == db.edges
    ensures GetForest(env, db', [n.alias]).Some?
    ensures SameContent(Forest([n.alias], [n], []), GetForest(env, db', [n.alias]).value)
  {
    GetForestLists(env, db', [n.alias]);
    var read := GetForest(env, db', [n.alias]).value;
    UnownedIsFresh(db, n);
    forall g ensures g in read.nodes <==> g == n {
      RequestedOne(g.alias, n.alias);
      LeafSubtree(db, n, g);
    }
    NoEdgeAtFreshNode(db, n, read);
  }

  lemma NoEdgeAtFreshNode(db: Registry, n: GNode, f: Forest)
    requires Constraints(db) && n.id !in db.nodes && forall g :: g in f.nodes <==> g in [n]
    requires forall e :: e in f.edges ==> e.id in db.edges && db.edges[e.id] == e && e.fromId in RowIds(f.nodes)
    ensures forall e :: e !in f.edges
  {}
}
