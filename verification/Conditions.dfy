/** When the two commands are applied, in terms a caller can read off the tables beforehand: words,
    statuses, classes and owners. */
module Conditions {
  import opened Prelude
  import opened Aliases
  import opened Paths
  import opened GNodes
  import opened Tables
  import opened Validator
  import opened Transactions
  import opened Invariants
  import opened Rewriting
  import opened Reparents
  import opened Creates
  import opened Audit

  /** A row above `g` that is fit to be its parent: of a class `g` may hang under, Active if `g` is, and,
      where `live` is asked for, Pending or Active. */
  ghost predicate Hosted(nodes: map<Id, GNode>, g: GNode, live: bool) {
    exists p :: p in nodes && Above(nodes[p], g) && (live ==> nodes[p].status.Pending? || nodes[p].status.Active?)
                && (g.status.Active? ==> nodes[p].status.Active?) && MayHang(g, nodes[p].baseClass)
  }

  lemma HostedIff(nodes: map<Id, GNode>, g: GNode, live: bool)
    requires UniqueAliases(nodes) && ValidGNode(g)
    ensures var e := RowAt(nodes, ParentAlias(g.alias));
            Hosted(nodes, g, live) <==>
              && e.Some? && (live ==> e.value.status.Pending? || e.value.status.Active?)
              && (g.status.Active? ==> e.value.status.Active?) && ParentClassOk(g, e.value.baseClass)
  {
    if RowAt(nodes, ParentAlias(g.alias)).Some? {
      var p := FoundIsAbove(nodes, g);
      ParentClassIs(g, nodes[p].baseClass);
    }
    forall p | p in nodes && Above(nodes[p], g) ensures RowAt(nodes, ParentAlias(g.alias)) == Some(nodes[p]) {
      AboveIsFound(nodes, g, p);
    }
  }

  lemma LeafPlaced(db: Registry, n: GNode)
    requires UniqueAliases(db.nodes) && ValidGNode(n)
    ensures (IsForestRoot(n.alias) || ParentAdmits(db.nodes, n.alias)) && LegalLeaf(db, n) <==>
              if |Split(n.alias)| == 2 then
                !n.baseClass.TerminalAsset? && !n.baseClass.LeafTransactiveNode? && n.gNodeClass != "Scada"
              else Hosted(db.nodes, n, true)
  {
    ParentIsAllButLast(n.alias);
    HostedIff(db.nodes, n, true);
    ParentClassIs(n, Logical);
  }

  /** On a clean, parent-complete registry a new create is applied exactly if it is proven and in the
      universe, its id and its alias are new, and it is a root that may be one or hangs under a
      Pending or Active row of the right class, an Active one if it is Active itself. */
  lemma CreateAppliedIff(env: Env, db: Registry, cmd: Command)
    requires ValidEnv(env) && Sound(db) && ValidCommand(cmd) && cmd.CreateCmd? && cmd !in db.log
    requires ParentComplete(db.nodes) && Clean(db.nodes, db.edges, db.positions, env.universe)
    ensures var n := cmd.newNode;
            Step(env, db, cmd).verdict.Applied? <==>
              && env.proofOk(cmd.proof) && Split(n.alias)[0] == env.universe
              && n.id !in db.nodes && n.alias !in db.ledger
              && if |Split(n.alias)| == 2 then
                   !n.baseClass.TerminalAsset? && !n.baseClass.LeafTransactiveNode? && n.gNodeClass != "Scada"
                 else Hosted(db.nodes, n, true)
  {
    CreateDecided(env, db, cmd);
    ParentIsAllButLast(cmd.newNode.alias);
    LeafPlaced(db, cmd.newNode);
  }

  // ---- re-parents ----

  /** The words of a row's alias with as many as N's parent has replaced by N's. */
  function NewWords(n: GNode, g: GNode): Path
    requires |Split(n.alias)| - 1 <= |Split(g.alias)|
  {
    Split(n.alias) + Split(g.alias)[|Split(n.alias)| - 1..]
  }

  /** Row `i` is at or below a named child, and `a` is spelled as its alias would be. */
  ghost predicate WouldTake(nodes: map<Id, GNode>, cmd: Command, i: Id, a: Alias)
    requires cmd.ReparentCmd? && i in nodes
  {
    && (exists c :: c in cmd.movedChildIds && c in nodes && Split(nodes[c].alias) <= Split(nodes[i].alias))
    && |Split(cmd.newNode.alias)| - 1 <= |Split(nodes[i].alias)| && Split(a) == NewWords(cmd.newNode, nodes[i])
  }

  /** Nobody owns N's alias, and nobody but the row itself the alias a moved row would take. */
  ghost predicate NoneForeign(db: Registry, cmd: Command)
    requires cmd.ReparentCmd?
  {
    && cmd.newNode.alias !in db.ledger
    && forall i, a :: i in db.nodes && a in db.ledger && WouldTake(db.nodes, cmd, i, a) ==> db.ledger[a] == i
  }

  lemma MovedWords(nodes: map<Id, GNode>, cmd: Command, i: Id)
    requires WellFormed(nodes, cmd) && Dotted(cmd.newNode.alias) && i in MovedIds(nodes, cmd.movedChildIds)
    ensures |Split(cmd.newNode.alias)| - 1 <= |Split(nodes[i].alias)|
    ensures Split(RewriteAlias(nodes[i].alias, Parent(cmd), cmd.newNode.alias)) == NewWords(cmd.newNode, nodes[i])
  {
    MovedRowsBelow(nodes, cmd.movedChildIds, Parent(cmd));
    RewriteReplacesPrefix(nodes[i].alias, Parent(cmd), cmd.newNode.alias);
    ParentIsAllButLast(cmd.newNode.alias);
  }

  lemma MovedIffWords(nodes: map<Id, GNode>, cmd: Command, i: Id)
    requires cmd.ReparentCmd? && i in nodes
    ensures i in MovedIds(nodes, cmd.movedChildIds)
            <==> exists c :: c in cmd.movedChildIds && c in nodes && Split(nodes[c].alias) <= Split(nodes[i].alias)
  {
    forall c | c in nodes { InSubtreeIsPrefix(nodes[i].alias, nodes[c].alias); }
  }

  lemma TakesIff(nodes: map<Id, GNode>, cmd: Command, i: Id, a: Alias)
    requires WellFormed(nodes, cmd) && Dotted(cmd.newNode.alias) && i in nodes
    ensures WouldTake(nodes, cmd, i, a)
            <==> i in MovedIds(nodes, cmd.movedChildIds) && a == RewriteAlias(nodes[i].alias, Parent(cmd), cmd.newNode.alias)
  {
    MovedIffWords(nodes, cmd, i);
    if i in MovedIds(nodes, cmd.movedChildIds) {
      MovedWords(nodes, cmd, i);
      if WouldTake(nodes, cmd, i, a) { SplitInjective(a, RewriteAlias(nodes[i].alias, Parent(cmd), cmd.newNode.alias)); }
    }
  }

  lemma AgreeingClaimsOwn(db: Registry, cmd: Command, m: map<Alias, Id>)
    requires Sound(db) && WellFormed(db.nodes, cmd) && Dotted(cmd.newNode.alias) && TargetClaims(m, db.nodes, cmd)
    requires Agree(db.ledger, m)
    ensures NoneForeign(db, cmd)
  {
    forall i, a | i in db.nodes && a in db.ledger && WouldTake(db.nodes, cmd, i, a) ensures db.ledger[a] == i {
      TakesIff(db.nodes, cmd, i, a);
    }
  }

  lemma OwnedClaimsAgree(db: Registry, cmd: Command, m: map<Alias, Id>)
    requires WellFormed(db.nodes, cmd) && Dotted(cmd.newNode.alias) && TargetClaims(m, db.nodes, cmd)
    requires NoneForeign(db, cmd)
    ensures Agree(db.ledger, m)
  {
    forall a | a in db.ledger && a in m ensures db.ledger[a] == m[a] {
      var i :| i in MovedIds(db.nodes, cmd.movedChildIds) && a == RewriteAlias(db.nodes[i].alias, Parent(cmd), cmd.newNode.alias);
      TakesIff(db.nodes, cmd, i, a);
    }
  }

  lemma GuardsMean(env: Env, db: Registry, cmd: Command)
    requires ValidEnv(env) && Sound(db) && WellFormed(db.nodes, cmd) && ValidCommand(cmd)
    ensures Guarded(env, db, cmd) <==>
              && env.proofOk(cmd.proof) && Split(cmd.newNode.alias)[0] == env.universe && |Split(cmd.newNode.alias)| != 2
              && RowAt(db.nodes, Parent(cmd)).Some? && NoneForeign(db, cmd)
  {
    ParentIsAllButLast(cmd.newNode.alias);
    PredictionIs(env, db, cmd);
    AgreeIffNoCollision(db.ledger, Prediction(env, db, cmd).value);
    if NoneForeign(db, cmd) { OwnedClaimsAgree(db, cmd, Prediction(env, db, cmd).value); }
    if Agree(db.ledger, Prediction(env, db, cmd).value) { AgreeingClaimsOwn(db, cmd, Prediction(env, db, cmd).value); }
  }

  /** Every named child may hang under N, an Active one only if N is Active. */
  ghost predicate ChildrenSuit(nodes: map<Id, GNode>, cmd: Command)
    requires WellFormed(nodes, cmd)
  {
    forall c :: c in cmd.movedChildIds ==>
      (nodes[c].status.Active? ==> cmd.newNode.status.Active?) && MayHang(nodes[c], cmd.newNode.baseClass)
  }

  /** The same in the validator's terms. */
  ghost predicate ChildrenPass(nodes: map<Id, GNode>, cmd: Command)
    requires cmd.ReparentCmd?
  {
    forall c :: c in cmd.movedChildIds && c in nodes ==>
      (nodes[c].status.Active? ==> cmd.newNode.status.Active?) && ParentClassOk(nodes[c], cmd.newNode.baseClass)
  }

  lemma ChildrenSuitIff(nodes: map<Id, GNode>, cmd: Command)
    requires RowsValid(nodes) && WellFormed(nodes, cmd)
    ensures ChildrenSuit(nodes, cmd) <==> ChildrenPass(nodes, cmd)
  {
    forall c | c in cmd.movedChildIds
      ensures c in nodes && (ParentClassOk(nodes[c], cmd.newNode.baseClass) <==> MayHang(nodes[c], cmd.newNode.baseClass))
    {
      ParentClassIs(nodes[c], cmd.newNode.baseClass);
    }
  }

  lemma LegalIs(db: Registry, cmd: Command, universe: string)
    requires cmd.ReparentCmd?
    ensures var n, e := cmd.newNode, RowAt(db.nodes, Parent(cmd));
            Legal(db, cmd, universe) <==>
              && e.Some? && UniverseOf(n.alias) == universe && (n.status.Active? ==> e.value.status.Active?)
              && ParentClassOk(n, e.value.baseClass) && ChildrenPass(db.nodes, cmd)
  {}

  lemma PlacesLegal(db: Registry, cmd: Command, universe: string)
    requires Sound(db) && WellFormed(db.nodes, cmd) && ValidCommand(cmd)
    ensures Legal(db, cmd, universe) <==>
              Split(cmd.newNode.alias)[0] == universe && Hosted(db.nodes, cmd.newNode, false) && ChildrenSuit(db.nodes, cmd)
  {
    ParentIsAllButLast(cmd.newNode.alias);
    HostedIff(db.nodes, cmd.newNode, false);
    ChildrenSuitIff(db.nodes, cmd);
    LegalIs(db, cmd, universe);
  }

  /** On a clean, parent-complete registry a new well-formed re-parent is applied exactly if it is
      proven and in the universe; N is no root, hangs under a row of the right class, whatever that
      row's status unless N is Active, and has a known position if any; each named child may hang
      under N, an Active one only under an Active N; and no alias it would give out has another owner. */
  lemma ReparentAppliedIff(env: Env, db: Registry, cmd: Command)
    requires ValidEnv(env) && Sound(db) && WellFormed(db.nodes, cmd) && ValidCommand(cmd) && cmd !in db.log
    requires ParentComplete(db.nodes) && Clean(db.nodes, db.edges, db.positions, env.universe)
    ensures var n := cmd.newNode;
            Step(env, db, cmd).verdict.Applied? <==>
              && env.proofOk(cmd.proof) && Split(n.alias)[0] == env.universe && |Split(n.alias)| >= 3
              && (n.positionPointId.Some? ==> n.positionPointId.value in db.positions)
              && Hosted(db.nodes, n, false) && ChildrenSuit(db.nodes, cmd) && NoneForeign(db, cmd)
  {
    ReparentDecided(env, db, cmd);
    GuardsMean(env, db, cmd);
    PlacesLegal(db, cmd, env.universe);
    DottedIffWords(cmd.newNode.alias);
  }

  // ---- what is turned away whatever else holds ----

  /** Without a proof that passes, no command does anything, not even one that is in the log. */
  lemma UnprovenRefused(env: Env, db: Registry, cmd: Command)
    requires ValidEnv(env) && !env.proofOk(cmd.proof)
    ensures Step(env, db, cmd) == Result(db, Refused)
  {}

  lemma {:induction false} UnknownChildStops(env: Env, nodes: map<Id, GNode>, children: seq<Id>, n: Alias,
      intended: map<Alias, Id>, c: Id)
    requires ValidEnv(env) && c in children && c !in nodes
    ensures Intended(env, nodes, children, n, intended).Refuse?
    decreases |children|
  {
    if children[0] in nodes {
      var prior := nodes[children[0]].alias;
      var ids := env.rowOrder(nodes, SubtreeIds(nodes, prior));
      UnknownChildStops(env, nodes, children[1..], n, Predict(nodes, ids, prior, MovedPrefix(n, prior), intended), c);
    }
  }

  /** A new re-parent that names an id without a row, N's own included, is refused. */
  lemma UnknownChildRefused(env: Env, db: Registry, cmd: Command, c: Id)
    requires ValidEnv(env) && cmd.ReparentCmd? && cmd !in db.log && c in cmd.movedChildIds && c !in db.nodes
    ensures Step(env, db, cmd) == Result(db, Refused)
  {
    UnknownChildStops(env, db.nodes, cmd.movedChildIds, cmd.newNode.alias, map[cmd.newNode.alias := cmd.newNode.id], c);
    UnguardedRefused(env, db, cmd);
  }

  /** A new re-parent whose N has the id of a row gets past the guards unseen and then fails: it is
      aborted exactly if no guard refuses it. */
  lemma TakenIdAborts(env: Env, db: Registry, cmd: Command)
    requires ValidEnv(env) && cmd.ReparentCmd? && cmd !in db.log && cmd.newNode.id in db.nodes
    ensures Step(env, db, cmd) == Result(db, if Guarded(env, db, cmd) then Aborted else Refused)
  {
    UnguardedRefused(env, db, cmd);
  }
}
