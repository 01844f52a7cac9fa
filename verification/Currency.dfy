/** When a root's forest still reads as it did: exactly as long as no command has planted a new node
    in its subtree. */
module Currency {
  import opened Prelude
  import opened Aliases
  import opened GNodes
  import opened Tables
  import opened Validator
  import opened Transactions
  import opened Invariants
  import opened Rewriting
  import opened Reparents
  import opened ForestReads
  import opened Creates
  import opened Topology
  import opened Runs

  /** A first application whose new node is at or below `root`. */
  ghost predicate Plants(env: Env, db: Registry, cmd: Command, root: Alias)
    requires ValidEnv(env)
  {
    Step(env, db, cmd).verdict.Applied? && cmd !in db.log && InSubtree(cmd.newNode.alias, root)
  }

  /** No command of a run plants a node in the subtree of `root`. */
  ghost predicate Quiet(env: Env, db: Registry, cmds: seq<Command>, root: Alias)
    requires ValidEnv(env)
    decreases |cmds|
  {
    cmds != [] ==> !Plants(env, db, cmds[0], root) && Quiet(env, Step(env, db, cmds[0]).db, cmds[1..], root)
  }

  // ---- equal subtrees read the same ----

  ghost predicate SameSubtree(nodes: map<Id, GNode>, nodes': map<Id, GNode>, root: Alias) {
    && SubtreeIds(nodes', root) == SubtreeIds(nodes, root)
    && (forall i :: i in SubtreeIds(nodes, root) ==> nodes'[i] == nodes[i])
  }

  lemma SameSubtreeSameRows(env: Env, nodes: map<Id, GNode>, nodes': map<Id, GNode>, root: Alias)
    requires ValidEnv(env) && KeyedById(nodes) && KeyedById(nodes') && UniqueAliases(nodes)
    requires SameSubtree(nodes, nodes', root)
    ensures SubtreeRows(env, nodes, root) == SubtreeRows(env, nodes', root)
  {
    var chosen := SubtreeIds(nodes, root);
    var rows, rows' := Rows(nodes, env.rowOrder(nodes, chosen)), Rows(nodes', env.rowOrder(nodes', chosen));
    EnumeratedRows(nodes, env.rowOrder(nodes, chosen), chosen);
    EnumeratedRows(nodes', env.rowOrder(nodes', chosen), chosen);
    BagOfEnumerations(rows, rows');
    SortedAlike(rows, rows', ByAlias(env));
  }

  lemma OneRootRows(env: Env, nodes: map<Id, GNode>, root: Alias)
    requires ValidEnv(env)
    ensures ForestRows(env, nodes, [root], {}) == NewRows(SubtreeRows(env, nodes, root), {})
  {
    assert [root][1..] == [];
  }

  lemma SameSubtreeSameForest(env: Env, db: Registry, db': Registry, root: Alias)
    requires ValidEnv(env) && Constraints(db) && Constraints(db') && db'.edges == db.edges
    requires SameSubtree(db.nodes, db'.nodes, root)
    ensures GetForest(env, db', [root]) == GetForest(env, db, [root])
  {
    SameSubtreeSameRows(env, db.nodes, db'.nodes, root);
    OneRootRows(env, db.nodes, root);
    OneRootRows(env, db'.nodes, root);
  }

  lemma ForestHolds(env: Env, db: Registry, root: Alias, i: Id)
    requires ValidEnv(env) && Sound(db) && i in db.nodes
    ensures GetForest(env, db, [root]).Some?
    ensures InSubtree(db.nodes[i].alias, root) <==> exists g :: g in GetForest(env, db, [root]).value.nodes && g.id == i
  {
    GetForestLists(env, db, [root]);
    RequestedOne(db.nodes[i].alias, root);
    var f := GetForest(env, db, [root]).value;
    if g :| g in f.nodes && g.id == i { assert g == db.nodes[i]; }
    if InSubtree(db.nodes[i].alias, root) { assert db.nodes[i] in f.nodes; }
  }

  /** A registry in which `root`'s subtree holds a row that it did not hold before reads differently. */
  lemma GainedReadsDifferently(env: Env, db: Registry, db': Registry, root: Alias, i: Id)
    requires ValidEnv(env) && Sound(db) && Sound(db') && i !in db.nodes
    requires i in db'.nodes && InSubtree(db'.nodes[i].alias, root)
    ensures GetForest(env, db', [root]) != GetForest(env, db, [root])
  {
    ForestHolds(env, db', root, i);
    GetForestLists(env, db, [root]);
  }

  // ---- one command ----

  lemma BelowOutsider(a: Alias, p: Alias, root: Alias)
    requires IsForestRoot(root) && Dotted(p) && !InSubtree(p, root) && InSubtree(a, p)
    ensures !InSubtree(a, root)
  {
    if InSubtree(a, root) {
      if |root| <= |p| {
        SubtreesNest(a, root, p);
      } else {
        SubtreesNest(a, p, root);
        DottedCount(p);
        BelowSuffix(root, p);
      }
    }
  }

  lemma ParentOutside(n: Alias, root: Alias)
    requires Dotted(n) && !IsForestRoot(n) && IsForestRoot(root)
    ensures InSubtree(n, root) <==> InSubtree(ParentAlias(n), root)
  {
    BelowIffParentInSubtree(n, root);
  }

  /** A re-parent outside a root's subtree leaves the subtree alone, row by row. */
  lemma RowOutside(db: Registry, cmd: Command, after: map<Id, GNode>, root: Alias, i: Id)
    requires Rebuilt(db, cmd, after) && IsForestRoot(root) && !InSubtree(cmd.newNode.alias, root) && i in db.nodes
    requires Dotted(cmd.newNode.alias) && Dotted(Parent(cmd))
    ensures i in after && (InSubtree(after[i].alias, root) <==> InSubtree(db.nodes[i].alias, root))
    ensures InSubtree(db.nodes[i].alias, root) ==> after[i] == db.nodes[i]
  {
    AliasesAfter(db, cmd, after, i);
    if i in MovedIds(db.nodes, cmd.movedChildIds) {
      ParentOutside(cmd.newNode.alias, root);
      BelowOutsider(db.nodes[i].alias, Parent(cmd), root);
      BelowOutsider(after[i].alias, cmd.newNode.alias, root);
    }
  }

  lemma ParentDotted(db: Registry, cmd: Command, after: map<Id, GNode>)
    requires Rebuilt(db, cmd, after)
    ensures Dotted(cmd.newNode.alias) && Dotted(Parent(cmd))
  {
    var p :| p in db.nodes && db.nodes[p].alias == Parent(cmd);
  }

  lemma SubtreeOutside(db: Registry, cmd: Command, after: map<Id, GNode>, root: Alias)
    requires Rebuilt(db, cmd, after) && IsForestRoot(root) && !InSubtree(cmd.newNode.alias, root)
    ensures SameSubtree(db.nodes, after, root)
  {
    RowsAfter(db, cmd, after);
    ParentDotted(db, cmd, after);
    forall i | i in db.nodes
      ensures i in after && (InSubtree(after[i].alias, root) <==> InSubtree(db.nodes[i].alias, root))
      ensures InSubtree(db.nodes[i].alias, root) ==> after[i] == db.nodes[i]
    {
      RowOutside(db, cmd, after, root, i);
    }
    SameSubtreeOf(db.nodes, after, cmd.newNode, root);
  }

  lemma SameSubtreeOf(nodes: map<Id, GNode>, after: map<Id, GNode>, n: GNode, root: Alias)
    requires after.Keys == nodes.Keys + {n.id} && after[n.id] == n && n.id !in nodes && !InSubtree(n.alias, root)
    requires forall i :: i in nodes ==>
               && (InSubtree(after[i].alias, root) <==> InSubtree(nodes[i].alias, root))
               && (InSubtree(nodes[i].alias, root) ==> after[i] == nodes[i])
    ensures SameSubtree(nodes, after, root)
  {}

  /** Rows inside a root's subtree stay inside. */
  lemma SubtreeStays(env: Env, db: Registry, cmd: Command, root: Alias, i: Id)
    requires ValidEnv(env) && Sound(db) && ParentComplete(db.nodes) && Proper(db, cmd) && IsForestRoot(root)
    requires i in db.nodes && InSubtree(db.nodes[i].alias, root)
    ensures var after := Step(env, db, cmd).db.nodes; i in after && InSubtree(after[i].alias, root)
  {
    NotAppliedUnchanged(env, db, cmd);
    if Step(env, db, cmd).verdict.Applied? {
      if cmd in db.log {
        AppliedRepeat(env, db, cmd);
      } else if cmd.CreateCmd? {
        CreateStays(env, db, cmd, i);
      } else {
        AppliedRebuilt(env, db, cmd);
        ReparentStays(db, cmd, Step(env, db, cmd).db.nodes, root, i);
      }
    }
  }

  lemma CreateStays(env: Env, db: Registry, cmd: Command, i: Id)
    requires ValidEnv(env) && Sound(db) && ValidCommand(cmd) && cmd.CreateCmd? && cmd !in db.log
    requires Step(env, db, cmd).verdict.Applied? && i in db.nodes
    ensures var after := Step(env, db, cmd).db.nodes; i in after && after[i] == db.nodes[i]
  {
    CreateAdds(env, db, cmd);
  }

  lemma ReparentStays(db: Registry, cmd: Command, after: map<Id, GNode>, root: Alias, i: Id)
    requires Rebuilt(db, cmd, after) && IsForestRoot(root) && i in db.nodes && InSubtree(db.nodes[i].alias, root)
    ensures i in after && InSubtree(after[i].alias, root)
  {
    ParentDotted(db, cmd, after);
    AliasesAfter(db, cmd, after, i);
    if i in MovedIds(db.nodes, cmd.movedChildIds) {
      ParentOutside(cmd.newNode.alias, root);
      if !InSubtree(Parent(cmd), root) { BelowOutsider(db.nodes[i].alias, Parent(cmd), root); }
      SubtreeTransitive(after[i].alias, cmd.newNode.alias, root);
    }
  }

  lemma AddedOutside(nodes: map<Id, GNode>, n: GNode, root: Alias)
    requires n.id !in nodes && !InSubtree(n.alias, root)
    ensures SameSubtree(nodes, Added(nodes, n), root)
  {
    SameSubtreeOf(nodes, Added(nodes, n), n, root);
  }

  lemma CreateAdds(env: Env, db: Registry, cmd: Command)
    requires ValidEnv(env) && Sound(db) && ValidCommand(cmd) && cmd.CreateCmd? && cmd !in db.log
    requires Step(env, db, cmd).verdict.Applied?
    ensures cmd.newNode.id !in db.nodes && Step(env, db, cmd).db.nodes == Added(db.nodes, cmd.newNode)
  {
    NewCreateVerdict(env, db, cmd);
  }

  lemma UnplantedSame(env: Env, db: Registry, cmd: Command, root: Alias)
    requires ValidEnv(env) && Sound(db) && ParentComplete(db.nodes) && Proper(db, cmd) && IsForestRoot(root)
    requires Step(env, db, cmd).verdict.Applied? && cmd !in db.log && !InSubtree(cmd.newNode.alias, root)
    ensures SameSubtree(db.nodes, Step(env, db, cmd).db.nodes, root)
  {
    if cmd.CreateCmd? {
      CreateAdds(env, db, cmd);
      AddedOutside(db.nodes, cmd.newNode, root);
    } else {
      AppliedRebuilt(env, db, cmd);
      SubtreeOutside(db, cmd, Step(env, db, cmd).db.nodes, root);
    }
  }

  lemma PlantedGains(env: Env, db: Registry, cmd: Command, root: Alias)
    requires ValidEnv(env) && Sound(db) && ParentComplete(db.nodes) && Proper(db, cmd) && Plants(env, db, cmd, root)
    ensures var after, n := Step(env, db, cmd).db.nodes, cmd.newNode;
            n.id !in db.nodes && n.id in after && InSubtree(after[n.id].alias, root)
  {
    if cmd.CreateCmd? {
      CreateAdds(env, db, cmd);
    } else {
      AppliedRebuilt(env, db, cmd);
      RowsAfter(db, cmd, Step(env, db, cmd).db.nodes);
    }
  }

  /** One command changes what reading a root gives exactly if it plants a node under it. */
  lemma StepReadsTheSameIff(env: Env, db: Registry, cmd: Command, root: Alias)
    requires ValidEnv(env) && Sound(db) && ParentComplete(db.nodes) && Proper(db, cmd) && IsForestRoot(root)
    ensures GetForest(env, Step(env, db, cmd).db, [root]) == GetForest(env, db, [root]) <==> !Plants(env, db, cmd, root)
  {
    var r := Step(env, db, cmd);
    StepKeepsSound(env, db, cmd);
    if Plants(env, db, cmd, root) {
      PlantedGains(env, db, cmd, root);
      GainedReadsDifferently(env, db, r.db, root, cmd.newNode.id);
    } else if r.verdict.Applied? && cmd !in db.log {
      UnplantedSame(env, db, cmd, root);
      SameSubtreeSameForest(env, db, r.db, root);
    } else {
      NotAppliedUnchanged(env, db, cmd);
      if r.verdict.Applied? { AppliedRepeat(env, db, cmd); }
    }
  }

  // ---- a run ----

  lemma {:induction false} RunSubtreeStays(env: Env, db: Registry, cmds: seq<Command>, root: Alias, i: Id)
    requires ValidEnv(env) && Sound(db) && ParentComplete(db.nodes) && WellFormedRun(env, db, cmds) && IsForestRoot(root)
    requires i in db.nodes && InSubtree(db.nodes[i].alias, root)
    ensures var after := Run(env, db, cmds).nodes; i in after && InSubtree(after[i].alias, root)
    decreases |cmds|
  {
    if cmds != [] {
      StepKeepsSound(env, db, cmds[0]);
      StepKeepsComplete(env, db, cmds[0]);
      SubtreeStays(env, db, cmds[0], root, i);
      RunSubtreeStays(env, Step(env, db, cmds[0]).db, cmds[1..], root, i);
    }
  }

  lemma PlantedForGood(env: Env, db: Registry, cmds: seq<Command>, root: Alias)
    requires ValidEnv(env) && Sound(db) && ParentComplete(db.nodes) && WellFormedRun(env, db, cmds) && IsForestRoot(root)
    requires cmds != [] && Plants(env, db, cmds[0], root)
    ensures GetForest(env, Run(env, db, cmds), [root]) != GetForest(env, db, [root])
  {
    var next, id := Step(env, db, cmds[0]).db, cmds[0].newNode.id;
    StepKeepsSound(env, db, cmds[0]);
    StepKeepsComplete(env, db, cmds[0]);
    PlantedGains(env, db, cmds[0], root);
    RunSubtreeStays(env, next, cmds[1..], root, id);
    RunKeepsSound(env, next, cmds[1..]);
    GainedReadsDifferently(env, db, Run(env, next, cmds[1..]), root, id);
  }

  /** A well-formed run changes what reading a root gives exactly if some command of it plants a node
      under the root: what was planted stays, so the old read never comes back. */
  lemma {:induction false} RunReadsTheSameIff(env: Env, db: Registry, cmds: seq<Command>, root: Alias)
    requires ValidEnv(env) && Sound(db) && ParentComplete(db.nodes) && WellFormedRun(env, db, cmds) && IsForestRoot(root)
    ensures GetForest(env, Run(env, db, cmds), [root]) == GetForest(env, db, [root]) <==> Quiet(env, db, cmds, root)
    decreases |cmds|
  {
    if cmds != [] {
      if Plants(env, db, cmds[0], root) {
        PlantedForGood(env, db, cmds, root);
      } else {
        StepKeepsSound(env, db, cmds[0]);
        StepKeepsComplete(env, db, cmds[0]);
        StepReadsTheSameIff(env, db, cmds[0], root);
        RunReadsTheSameIff(env, Step(env, db, cmds[0]).db, cmds[1..], root);
      }
    }
  }

  lemma {:induction false} WellFormedRunSplits(env: Env, db: Registry, xs: seq<Command>, ys: seq<Command>)
    requires ValidEnv(env) && WellFormedRun(env, db, xs + ys)
    ensures WellFormedRun(env, db, xs) && WellFormedRun(env, Run(env, db, xs), ys)
    decreases |xs|
  {
    if xs == [] {
      assert xs + ys == ys;
    } else {
      assert (xs + ys)[0] == xs[0] && (xs + ys)[1..] == xs[1..] + ys;
      WellFormedRunSplits(env, Step(env, db, xs[0]).db, xs[1..], ys);
    }
  }

  /** A forest read after `v` commands of a well-formed run is what the registry would answer after
      `i` of them exactly if none in between planted a node under its root. */
  lemma ReadStillCurrentIff(env: Env, db: Registry, cmds: seq<Command>, v: nat, i: nat, root: Alias)
    requires ValidEnv(env) && Sound(db) && ParentComplete(db.nodes) && WellFormedRun(env, db, cmds) && IsForestRoot(root)
    requires v <= i <= |cmds|
    ensures GetForest(env, Run(env, db, cmds[..i]), [root]) == GetForest(env, Run(env, db, cmds[..v]), [root])
            <==> Quiet(env, Run(env, db, cmds[..v]), cmds[v..i], root)
  {
    assert cmds == cmds[..v] + cmds[v..] && cmds[v..] == cmds[v..i] + cmds[i..] && cmds[..i] == cmds[..v] + cmds[v..i];
    WellFormedRunSplits(env, db, cmds[..v], cmds[v..]);
    WellFormedRunSplits(env, Run(env, db, cmds[..v]), cmds[v..i], cmds[i..]);
    RunKeepsSound(env, db, cmds[..v]);
    WellFormedRunKeepsComplete(env, db, cmds[..v]);
    RunAppends(env, db, cmds[..v], cmds[v..i]);
    RunReadsTheSameIff(env, Run(env, db, cmds[..v]), cmds[v..i], root);
  }
}
