/** Whole runs: what holds in every reachable registry, what aliases mean through time, and what
    the command log is worth. */
module Runs {
  import opened Prelude
  import opened Aliases
  import opened GNodes
  import opened Tables
  import opened Validator
  import opened Transactions
  import opened Invariants
  import opened Rewriting
  import opened Reparents
  import opened ForestReads
  import opened Creates
  import opened Topology

  /** The registry after a list of commands, whatever their verdicts. */
  ghost function Run(env: Env, db: Registry, cmds: seq<Command>): Registry
    requires ValidEnv(env)
    decreases |cmds|
  {
    if cmds == [] then db else Run(env, Step(env, db, cmds[0]).db, cmds[1..])
  }

  ghost function Verdicts(env: Env, db: Registry, cmds: seq<Command>): seq<Verdict>
    requires ValidEnv(env)
    decreases |cmds|
  {
    if cmds == [] then []
    else
      var r := Step(env, db, cmds[0]);
      [r.verdict] + Verdicts(env, r.db, cmds[1..])
  }

  lemma {:induction false} RunAppends(env: Env, db: Registry, xs: seq<Command>, ys: seq<Command>)
    requires ValidEnv(env)
    ensures Run(env, db, xs + ys) == Run(env, Run(env, db, xs), ys)
    decreases |xs|
  {
    if xs == [] {
      assert xs + ys == ys;
    } else {
      assert (xs + ys)[1..] == xs[1..] + ys;
      RunAppends(env, Step(env, db, xs[0]).db, xs[1..], ys);
    }
  }

  lemma RunOne(env: Env, db: Registry, cmd: Command)
    requires ValidEnv(env)
    ensures Run(env, db, [cmd]) == Step(env, db, cmd).db
  {
    assert [cmd][1..] == [];
    assert Run(env, Step(env, db, cmd).db, []) == Step(env, db, cmd).db;
  }

  // ---- invariants ----

  ghost predicate IsClean(env: Env, db: Registry) {
    Clean(db.nodes, db.edges, db.positions, env.universe)
  }

  lemma EmptySound(env: Env, positions: set<Id>)
    ensures Sound(Empty(positions)) && IsClean(env, Empty(positions)) && ParentComplete(Empty(positions).nodes)
  {}

  lemma StepKeepsClean(env: Env, db: Registry, cmd: Command)
    requires ValidEnv(env) && IsClean(env, db)
    ensures IsClean(env, Step(env, db, cmd).db)
  {
    var r := Step(env, db, cmd);
    NotAppliedUnchanged(env, db, cmd);
    if r.verdict.Applied? {
      if cmd in db.log {
        AppliedRepeat(env, db, cmd);
      } else if cmd.CreateCmd? {
        CreateApplied(env, db, cmd);
      } else {
        ReparentApplied(env, db, cmd);
      }
    }
  }

  /** Whatever commands arrive, every reachable registry is sound and clean; no row, no owner and no
      log entry is ever lost, and a row's id, class, status and position never change. */
  lemma {:induction false} RunKeepsSound(env: Env, db: Registry, cmds: seq<Command>)
    requires ValidEnv(env) && Sound(db)
    ensures Sound(Run(env, db, cmds)) && Extends(db, Run(env, db, cmds))
    ensures IsClean(env, db) ==> IsClean(env, Run(env, db, cmds))
    decreases |cmds|
  {
    if cmds != [] {
      StepKeepsSound(env, db, cmds[0]);
      if IsClean(env, db) { StepKeepsClean(env, db, cmds[0]); }
      RunKeepsSound(env, Step(env, db, cmds[0]).db, cmds[1..]);
      ExtendsTransitive(db, Step(env, db, cmds[0]).db, Run(env, db, cmds));
    }
  }

  /** A decoded command; a re-parent that is not a repeat is well-formed. */
  ghost predicate Proper(db: Registry, cmd: Command) {
    ValidCommand(cmd) && (cmd.ReparentCmd? && cmd !in db.log ==> WellFormed(db.nodes, cmd))
  }

  /** Commands each of which is proper in the registry it meets. */
  ghost predicate WellFormedRun(env: Env, db: Registry, cmds: seq<Command>)
    requires ValidEnv(env)
    decreases |cmds|
  {
    cmds != [] ==> Proper(db, cmds[0]) && WellFormedRun(env, Step(env, db, cmds[0]).db, cmds[1..])
  }

  lemma StepKeepsComplete(env: Env, db: Registry, cmd: Command)
    requires ValidEnv(env) && Sound(db) && ParentComplete(db.nodes) && Proper(db, cmd)
    ensures ParentComplete(Step(env, db, cmd).db.nodes)
  {
    NotAppliedUnchanged(env, db, cmd);
    if Step(env, db, cmd).verdict.Applied? {
      if cmd in db.log {
        AppliedRepeat(env, db, cmd);
      } else if cmd.CreateCmd? {
        CreateKeepsComplete(env, db, cmd);
      } else {
        ReparentKeepsComplete(env, db, cmd);
      }
    }
  }

  /** Under creates and well-formed re-parents every non-root's parent row exists. */
  lemma {:induction false} WellFormedRunKeepsComplete(env: Env, db: Registry, cmds: seq<Command>)
    requires ValidEnv(env) && Sound(db) && ParentComplete(db.nodes) && WellFormedRun(env, db, cmds)
    ensures ParentComplete(Run(env, db, cmds).nodes)
    decreases |cmds|
  {
    if cmds != [] {
      StepKeepsSound(env, db, cmds[0]);
      StepKeepsComplete(env, db, cmds[0]);
      WellFormedRunKeepsComplete(env, Step(env, db, cmds[0]).db, cmds[1..]);
    }
  }

  /** Every position the commands name is registered. */
  ghost predicate PositionsResolve(db: Registry, cmds: seq<Command>) {
    forall c :: c in cmds ==> PositionResolves(db, c.newNode)
  }

  ghost predicate NoneAborted(verdicts: seq<Verdict>) {
    forall v :: v in verdicts ==> !v.Aborted?
  }

  /** And then nothing ever aborts, provided the positions named are registered. */
  lemma {:induction false} WellFormedRunNeverAborts(env: Env, db: Registry, cmds: seq<Command>)
    requires ValidEnv(env) && Sound(db) && WellFormedRun(env, db, cmds) && PositionsResolve(db, cmds)
    ensures NoneAborted(Verdicts(env, db, cmds))
    decreases |cmds|
  {
    if cmds != [] {
      assert cmds[0] in cmds;
      StepKeepsSound(env, db, cmds[0]);
      NeverAborts(env, db, cmds[0]);
      assert forall c :: c in cmds[1..] ==> c in cmds;
      WellFormedRunNeverAborts(env, Step(env, db, cmds[0]).db, cmds[1..]);
    }
  }

  lemma NeverAborts(env: Env, db: Registry, cmd: Command)
    requires ValidEnv(env) && Sound(db) && Proper(db, cmd) && PositionResolves(db, cmd.newNode)
    ensures !Step(env, db, cmd).verdict.Aborted?
  {
    if cmd.CreateCmd? {
      CreateNeverAborts(env, db, cmd);
    } else if cmd in db.log {
      if env.proofOk(cmd.proof) { RepeatAnswers(env, db, cmd); }
    } else {
      WellFormedVerdict(env, db, cmd);
    }
  }

  // ---- aliases through time ----

  /** `resolve_alias`: the live row, or else the current row of the alias's recorded owner. */
  ghost function ResolveAlias(db: Registry, a: Alias): Option<GNode> {
    var live := RowAt(db.nodes, a);
    if live.Some? then live
    else if a in db.ledger && db.ledger[a] in db.nodes then Some(db.nodes[db.ledger[a]])
    else None
  }

  /** The live-row branch and the ledger branch never disagree: an alias resolves to its owner. */
  lemma ResolvesToOwner(db: Registry, a: Alias)
    requires Sound(db)
    ensures ResolveAlias(db, a) == if a in db.ledger then Some(db.nodes[db.ledger[a]]) else None
  {
    var live := RowAt(db.nodes, a);
    if live.Some? {
      var i :| i in db.nodes && db.nodes[i] == live.value && live.value.alias == a;
      assert db.ledger[db.nodes[i].alias] == i;
    }
  }

  /** Once an alias resolves to a node, it resolves to that node's current row for ever. */
  lemma AliasPermanent(env: Env, db: Registry, cmds: seq<Command>, a: Alias)
    requires ValidEnv(env) && Sound(db) && ResolveAlias(db, a).Some?
    ensures var g, later := ResolveAlias(db, a).value, Run(env, db, cmds);
            g.id in later.nodes && ResolveAlias(later, a) == Some(later.nodes[g.id])
  {
    RunKeepsSound(env, db, cmds);
    ResolvesToOwner(db, a);
    ResolvesToOwner(Run(env, db, cmds), a);
  }

  /** Every alias a row ever held still resolves to it. */
  lemma HeldAliasResolves(env: Env, db: Registry, i: Id, cmds: seq<Command>)
    requires ValidEnv(env) && Sound(db) && i in db.nodes
    ensures var later := Run(env, db, cmds);
            i in later.nodes && ResolveAlias(later, db.nodes[i].alias) == Some(later.nodes[i])
  {
    RowAtIs(db.nodes, i);
    AliasPermanent(env, db, cmds, db.nodes[i].alias);
  }

  // ---- the log ----

  /** The state is a projection of the log: replaying the logged commands, in order, from the empty
      registry gives the registry that logged them, refusals and repeats notwithstanding. */
  lemma {:induction false} LogProjection(env: Env, positions: set<Id>, cmds: seq<Command>)
    requires ValidEnv(env)
    ensures var db := Run(env, Empty(positions), cmds); Run(env, Empty(positions), db.log) == db
    decreases |cmds|
  {
    EmptySound(env, positions);
    ProjectionFrom(env, positions, Empty(positions), cmds);
  }

  lemma {:induction false} ProjectionFrom(env: Env, positions: set<Id>, db: Registry, cmds: seq<Command>)
    requires ValidEnv(env) && Sound(db) && Run(env, Empty(positions), db.log) == db
    ensures var later := Run(env, db, cmds); Run(env, Empty(positions), later.log) == later
    decreases |cmds|
  {
    if cmds != [] {
      var r := Step(env, db, cmds[0]);
      StepKeepsSound(env, db, cmds[0]);
      if r.verdict.Applied? && cmds[0] !in db.log {
        RunAppends(env, Empty(positions), db.log, [cmds[0]]);
        RunOne(env, db, cmds[0]);
      } else if r.verdict.Applied? {
        AppliedRepeat(env, db, cmds[0]);
      }
      ProjectionFrom(env, positions, r.db, cmds[1..]);
    }
  }

  /** `ys` is `xs` with extra deliveries of commands already in the log when they arrive. */
  ghost predicate Redelivers(env: Env, db: Registry, xs: seq<Command>, ys: seq<Command>)
    requires ValidEnv(env)
    decreases |ys|
  {
    if ys == [] then xs == []
    else
      || (ys[0] in db.log && Redelivers(env, db, xs, ys[1..]))
      || (xs != [] && xs[0] == ys[0] && Redelivers(env, Step(env, db, xs[0]).db, xs[1..], ys[1..]))
  }

  lemma LoggedChangesNothing(env: Env, db: Registry, cmd: Command)
    requires ValidEnv(env) && cmd in db.log
    ensures Step(env, db, cmd).db == db
  {}

  /** At-least-once delivery is safe: redelivering applied commands, anywhere later, any number of
      times, leads to the same registry. */
  lemma {:induction false} RedeliveryChangesNothing(env: Env, db: Registry, xs: seq<Command>, ys: seq<Command>)
    requires ValidEnv(env) && Redelivers(env, db, xs, ys)
    ensures Run(env, db, xs) == Run(env, db, ys)
    decreases |ys|
  {
    if ys != [] {
      if ys[0] in db.log && Redelivers(env, db, xs, ys[1..]) {
        LoggedChangesNothing(env, db, ys[0]);
        RedeliveryChangesNothing(env, db, xs, ys[1..]);
      } else {
        RedeliveryChangesNothing(env, Step(env, db, xs[0]).db, xs[1..], ys[1..]);
      }
    }
  }

  // ---- row order ----

  predicate SameKind(v: Verdict, u: Verdict) { v.Applied? == u.Applied? && v.Refused? == u.Refused? }

  predicate SameKinds(vs: seq<Verdict>, us: seq<Verdict>) {
    |us| == |vs| && forall k :: 0 <= k < |vs| ==> SameKind(vs[k], us[k])
  }

  lemma SameKindsCons(v: Verdict, u: Verdict, vs: seq<Verdict>, us: seq<Verdict>)
    requires SameKind(v, u) && SameKinds(vs, us)
    ensures SameKinds([v] + vs, [u] + us)
  {}

  /** The order in which tables return rows decides neither a proper command's outcome nor its
      effect. */
  lemma StepOrderIndependent(env: Env, env': Env, db: Registry, cmd: Command)
    requires SameServer(env, env') && Sound(db) && Proper(db, cmd)
    ensures var r, r' := Step(env, db, cmd), Step(env', db, cmd); r'.db == r.db && SameKind(r.verdict, r'.verdict)
  {
    if cmd in db.log {
      GetForestDeterministic(env, env', db, [cmd.newNode.alias]);
    } else if cmd.ReparentCmd? {
      ReparentOrderIndependent(env, env', db, cmd, cmd);
      WellFormedVerdict(env, db, cmd);
      WellFormedVerdict(env', db, cmd);
      NotAppliedUnchanged(env, db, cmd);
      NotAppliedUnchanged(env', db, cmd);
    }
  }

  /** A well-formed run leaves the same rows, ledger and log, and gets answers of the same kinds, in
      whatever order tables return rows. */
  lemma {:induction false} RunOrderIndependent(env: Env, env': Env, db: Registry, cmds: seq<Command>)
    requires SameServer(env, env') && Sound(db) && WellFormedRun(env, db, cmds)
    ensures Run(env', db, cmds) == Run(env, db, cmds)
    ensures SameKinds(Verdicts(env, db, cmds), Verdicts(env', db, cmds))
    decreases |cmds|
  {
    if cmds != [] {
      var r, r' := Step(env, db, cmds[0]), Step(env', db, cmds[0]);
      StepOrderIndependent(env, env', db, cmds[0]);
      StepKeepsSound(env, db, cmds[0]);
      RunOrderIndependent(env, env', r.db, cmds[1..]);
      SameKindsCons(r.verdict, r'.verdict, Verdicts(env, r.db, cmds[1..]), Verdicts(env', r.db, cmds[1..]));
    }
  }

  // ---- the proof gate ----

  /** The server a rebuild runs: the same, without the proof gate. */
  function Ungated(env: Env): Env { env.(proofOk := _ => true) }

  lemma UngatedValid(env: Env)
    requires ValidEnv(env)
    ensures ValidEnv(Ungated(env))
  {}

  lemma {:induction false} UngatedIntended(env: Env, nodes: map<Id, GNode>, children: seq<Id>, n: Alias, acc: map<Alias, Id>)
    requires ValidEnv(env) && ValidEnv(Ungated(env))
    ensures Intended(Ungated(env), nodes, children, n, acc) == Intended(env, nodes, children, n, acc)
    decreases |children|
  {
    if children != [] && children[0] in nodes {
      var prior := nodes[children[0]].alias;
      var ids := env.rowOrder(nodes, SubtreeIds(nodes, prior));
      UngatedIntended(env, nodes, children[1..], n, Predict(nodes, ids, prior, MovedPrefix(n, prior), acc));
    }
  }

  lemma {:induction false} UngatedMoveChildren(env: Env, w: Work, children: seq<Id>, n: Alias)
    requires ValidEnv(env) && ValidEnv(Ungated(env)) && w.Valid()
    ensures MoveChildren(Ungated(env), w, children, n) == MoveChildren(env, w, children, n)
    decreases |children|
  {
    if children != [] && children[0] in w.nodes {
      var prior := w.nodes[children[0]].alias;
      var r := RewritePrefix(env, w, prior, MovedPrefix(n, prior));
      assert r == RewritePrefix(Ungated(env), w, prior, MovedPrefix(n, prior));
      if r.Ok? { UngatedMoveChildren(env, r.value, children[1..], n); }
    }
  }

  /** A command that passes the gate does the same with and without it. */
  lemma UngatedStep(env: Env, db: Registry, cmd: Command)
    requires ValidEnv(env) && Constraints(db) && env.proofOk(cmd.proof)
    ensures ValidEnv(Ungated(env)) && Step(Ungated(env), db, cmd) == Step(env, db, cmd)
  {
    UngatedValid(env);
    if cmd in db.log {
      GetForestDeterministic(env, Ungated(env), db, [cmd.newNode.alias]);
    } else if cmd.ReparentCmd? {
      var n := cmd.newNode;
      UngatedIntended(env, db.nodes, cmd.movedChildIds, n.alias, map[n.alias := n.id]);
      if Insert(db, n).Ok? { UngatedMoveChildren(env, Insert(db, n).value, cmd.movedChildIds, n.alias); }
      UngatedFinish(env, db, cmd);
    }
  }

  lemma UngatedFinish(env: Env, db: Registry, cmd: Command)
    requires ValidEnv(env) && ValidEnv(Ungated(env)) && cmd.ReparentCmd?
    ensures forall w: Work :: w.Valid() ==> FinishReparent(Ungated(env), db, cmd, w) == FinishReparent(env, db, cmd, w)
  {}

  /** Without the gate, no command the gate turns away would get further than a refusal. */
  ghost predicate TurnedAwayRefused(env: Env, db: Registry, cmds: seq<Command>)
    requires ValidEnv(env) && ValidEnv(Ungated(env))
    decreases |cmds|
  {
    cmds != [] ==>
      && (!env.proofOk(cmds[0].proof) ==> Step(Ungated(env), db, cmds[0]).verdict.Refused?)
      && TurnedAwayRefused(env, Step(env, db, cmds[0]).db, cmds[1..])
  }

  /** A server without the gate gives the same verdicts to a stream of commands exactly if each one
      the gate turns away is refused without it too; and then it ends in the same registry. */
  lemma {:induction false} UngatedAgreesIffRefused(env: Env, db: Registry, cmds: seq<Command>)
    requires ValidEnv(env) && Sound(db)
    ensures ValidEnv(Ungated(env))
    ensures Verdicts(Ungated(env), db, cmds) == Verdicts(env, db, cmds) <==> TurnedAwayRefused(env, db, cmds)
    ensures TurnedAwayRefused(env, db, cmds) ==> Run(Ungated(env), db, cmds) == Run(env, db, cmds)
    decreases |cmds|
  {
    UngatedValid(env);
    if cmds != [] {
      var r, u := Step(env, db, cmds[0]), Step(Ungated(env), db, cmds[0]);
      if env.proofOk(cmds[0].proof) { UngatedStep(env, db, cmds[0]); }
      StepKeepsSound(env, db, cmds[0]);
      NotAppliedUnchanged(Ungated(env), db, cmds[0]);
      UngatedAgreesIffRefused(env, r.db, cmds[1..]);
      var vs, us := Verdicts(env, db, cmds), Verdicts(Ungated(env), db, cmds);
      assert vs[0] == r.verdict && vs[1..] == Verdicts(env, r.db, cmds[1..]);
      assert us[0] == u.verdict && us[1..] == Verdicts(Ungated(env), u.db, cmds[1..]);
      assert vs == [vs[0]] + vs[1..] && us == [us[0]] + us[1..];
    }
  }

  /** A new command's guards, or its place in the tree, tell it will be refused. */
  ghost predicate RefusedByGuards(env: Env, db: Registry, cmd: Command)
    requires ValidEnv(env)
  {
    if cmd.CreateCmd? then !CreateGuarded(env, db, cmd) || !LegalLeaf(db, cmd.newNode)
    else !Guarded(env, db, cmd) || (PositionResolves(db, cmd.newNode) && !Legal(db, cmd, env.universe))
  }

  /** On a clean, parent-complete registry a new proper command is refused exactly if its guards say
      so. */
  lemma RefusedIffGuards(env: Env, db: Registry, cmd: Command)
    requires ValidEnv(env) && Sound(db) && ParentComplete(db.nodes) && IsClean(env, db)
    requires Proper(db, cmd) && cmd !in db.log
    ensures Step(env, db, cmd).verdict.Refused? <==> RefusedByGuards(env, db, cmd)
  {
    if cmd.CreateCmd? {
      CreateDecided(env, db, cmd);
      CreateNeverAborts(env, db, cmd);
    } else {
      WellFormedVerdict(env, db, cmd);
      ReparentDecided(env, db, cmd);
    }
  }

  /** Every logged command passed the gate. */
  ghost predicate Proven(env: Env, log: seq<Command>) {
    forall c :: c in log ==> env.proofOk(c.proof)
  }

  lemma StepKeepsProven(env: Env, db: Registry, cmd: Command)
    requires ValidEnv(env) && Sound(db) && Proven(env, db.log)
    ensures Proven(env, Step(env, db, cmd).db.log)
    ensures !env.proofOk(cmd.proof) ==> Step(env, db, cmd) == Result(db, Refused)
  {
    StepKeepsSound(env, db, cmd);
  }

  /** The gate turns away only commands whose own guards, or whose place in the tree, would have
      them refused. */
  ghost predicate GateIdle(env: Env, db: Registry, cmds: seq<Command>)
    requires ValidEnv(env) && ValidEnv(Ungated(env))
    decreases |cmds|
  {
    cmds != [] ==>
      && (!env.proofOk(cmds[0].proof) ==> RefusedByGuards(Ungated(env), db, cmds[0]))
      && GateIdle(env, Step(env, db, cmds[0]).db, cmds[1..])
  }

  /** A registry a gated server reaches under proper commands. */
  ghost predicate Kept(env: Env, db: Registry) {
    Sound(db) && ParentComplete(db.nodes) && IsClean(env, db) && Proven(env, db.log)
  }

  lemma StepKeepsKept(env: Env, db: Registry, cmd: Command)
    requires ValidEnv(env) && Kept(env, db) && Proper(db, cmd)
    ensures Kept(env, Step(env, db, cmd).db)
  {
    StepKeepsSound(env, db, cmd);
    StepKeepsComplete(env, db, cmd);
    StepKeepsClean(env, db, cmd);
    StepKeepsProven(env, db, cmd);
  }

  lemma {:induction false} TurnedAwayRefusedIffGateIdle(env: Env, db: Registry, cmds: seq<Command>)
    requires ValidEnv(env) && ValidEnv(Ungated(env)) && Kept(env, db) && WellFormedRun(env, db, cmds)
    ensures TurnedAwayRefused(env, db, cmds) <==> GateIdle(env, db, cmds)
    decreases |cmds|
  {
    if cmds != [] {
      if !env.proofOk(cmds[0].proof) {
        assert cmds[0] !in db.log;
        RefusedIffGuards(Ungated(env), db, cmds[0]);
      }
      StepKeepsKept(env, db, cmds[0]);
      TurnedAwayRefusedIffGateIdle(env, Step(env, db, cmds[0]).db, cmds[1..]);
    }
  }

  /** On a well-formed run a server without the gate answers like the gated one exactly if the gate
      was idle; and then it ends in the same registry. */
  lemma UngatedAgreesIffGateIdle(env: Env, db: Registry, cmds: seq<Command>)
    requires ValidEnv(env) && Kept(env, db) && WellFormedRun(env, db, cmds)
    ensures ValidEnv(Ungated(env))
    ensures Verdicts(Ungated(env), db, cmds) == Verdicts(env, db, cmds) <==> GateIdle(env, db, cmds)
    ensures GateIdle(env, db, cmds) ==> Run(Ungated(env), db, cmds) == Run(env, db, cmds)
  {
    UngatedAgreesIffRefused(env, db, cmds);
    TurnedAwayRefusedIffGateIdle(env, db, cmds);
  }

  lemma {:induction false} RunKeepsProven(env: Env, db: Registry, cmds: seq<Command>)
    requires ValidEnv(env) && Sound(db) && Proven(env, db.log)
    ensures Proven(env, Run(env, db, cmds).log)
    decreases |cmds|
  {
    if cmds != [] {
      StepKeepsSound(env, db, cmds[0]);
      StepKeepsProven(env, db, cmds[0]);
      RunKeepsProven(env, Step(env, db, cmds[0]).db, cmds[1..]);
    }
  }

  /** A registry whose log holds an unproven command keeps it there. */
  lemma UnprovenForGood(env: Env, db: Registry, cmds: seq<Command>)
    requires ValidEnv(env) && Sound(db) && !Proven(env, db.log)
    ensures !Proven(env, Run(Ungated(env), db, cmds).log)
  {
    UngatedValid(env);
    RunKeepsSound(Ungated(env), db, cmds);
    var c :| c in db.log && !env.proofOk(c.proof);
    assert c in Run(Ungated(env), db, cmds).log;
  }

  /** Without the gate, an unproven command that is neither refused nor aborted enters the log. */
  lemma UnprovenEnters(env: Env, db: Registry, cmd: Command)
    requires ValidEnv(env) && Sound(db) && Proven(env, db.log) && !env.proofOk(cmd.proof)
    ensures ValidEnv(Ungated(env))
    ensures Step(Ungated(env), db, cmd).verdict.Applied? ==> !Proven(env, Step(Ungated(env), db, cmd).db.log)
  {
    UngatedValid(env);
    StepKeepsSound(Ungated(env), db, cmd);
    assert cmd !in db.log;
    assert cmd in db.log + [cmd];
  }

  /** A server without the gate that aborts nothing ends in the gated server's registry exactly if
      each command the gate turned away is refused without it. */
  lemma {:induction false} UngatedRestoresIffRefused(env: Env, db: Registry, cmds: seq<Command>)
    requires ValidEnv(env) && Sound(db) && Proven(env, db.log) && NoneAborted(Verdicts(env, db, cmds))
    ensures ValidEnv(Ungated(env))
    ensures NoneAborted(Verdicts(Ungated(env), db, cmds)) && Run(Ungated(env), db, cmds) == Run(env, db, cmds)
            <==> TurnedAwayRefused(env, db, cmds)
    decreases |cmds|
  {
    UngatedValid(env);
    UngatedAgreesIffRefused(env, db, cmds);
    if cmds != [] {
      var r, u := Step(env, db, cmds[0]), Step(Ungated(env), db, cmds[0]);
      StepKeepsSound(env, db, cmds[0]);
      StepKeepsProven(env, db, cmds[0]);
      FirstVerdict(env, db, cmds);
      FirstVerdict(Ungated(env), db, cmds);
      if env.proofOk(cmds[0].proof) {
        UngatedStep(env, db, cmds[0]);
      } else if u.verdict.Applied? {
        UnprovenEnters(env, db, cmds[0]);
        StepKeepsSound(Ungated(env), db, cmds[0]);
        UnprovenForGood(env, u.db, cmds[1..]);
        RunKeepsProven(env, db, cmds);
      } else {
        NotAppliedUnchanged(Ungated(env), db, cmds[0]);
      }
      UngatedRestoresIffRefused(env, r.db, cmds[1..]);
    }
  }

  lemma FirstVerdict(env: Env, db: Registry, cmds: seq<Command>)
    requires ValidEnv(env) && cmds != []
    ensures var r := Step(env, db, cmds[0]);
            NoneAborted(Verdicts(env, db, cmds)) <==> !r.verdict.Aborted? && NoneAborted(Verdicts(env, r.db, cmds[1..]))
  {
    var r := Step(env, db, cmds[0]);
    var vs, rest := Verdicts(env, db, cmds), Verdicts(env, r.db, cmds[1..]);
    assert vs == [r.verdict] + rest;
    assert vs[0] == r.verdict && forall v :: v in vs <==> v == r.verdict || v in rest;
  }

  /** A Pending copper node of the dev universe. */
  function PendingNode(id: Id, alias: Alias): GNode {
    GNode(id, alias, None, ConnectivityNode, "ConnectivityNode", Pending, None, None)
  }

  lemma PendingNodeValid(id: Id, alias: Alias)
    requires LeftRightDot(alias) && Dotted(alias) && LastWord(alias) != "ta" && LastWord(alias) != "scada"
    ensures ValidGNode(PendingNode(id, alias))
  {
    if EndsWith(alias, "." + "ta") { SuffixIsLastWord(alias, "ta"); }
    if EndsWith(alias, "." + "scada") { SuffixIsLastWord(alias, "scada"); }
    assert "." + "ta" == ".ta" && "." + "scada" == ".scada";
  }

  lemma DevRootAlias()
    ensures LeftRightDot("d1.a") && Dotted("d1.a") && LastWord("d1.a") == "a" && ParentAlias("d1.a") == "d1"
    ensures UniverseOf("d1.a") == "d1" && IsForestRoot("d1.a")
  {
    JoinLast("d1", "a");
    assert "d1" + "." + "a" == "d1.a";
    assert "d1.a"[2] == '.' && FirstDot("d1.a") == 2;
  }

  /** A forest root without a proof: refused live, applied by a server without the gate. */
  lemma UnprovenCreateAppliesUngated(env: Env)
    requires ValidEnv(env) && env.universe == "d1" && !env.proofOk(None)
    ensures ValidEnv(Ungated(env))
    ensures var cmd := CreateCmd(PendingNode("n1", "d1.a"), None);
            && ValidCommand(cmd)
            && Step(env, Empty({}), cmd).verdict.Refused?
            && Step(Ungated(env), Empty({}), cmd).verdict.Applied?
  {
    UngatedValid(env);
    var cmd := CreateCmd(PendingNode("n1", "d1.a"), None);
    DevRootAlias();
    PendingNodeValid("n1", "d1.a");
    EmptySound(Ungated(env), {});
    RootCreateApplies(Ungated(env), cmd);
  }

  lemma RootCreateApplies(env: Env, cmd: Command)
    requires ValidEnv(env) && ValidCommand(cmd) && cmd.CreateCmd? && env.proofOk(cmd.proof)
    requires UniverseOf(cmd.newNode.alias) == env.universe && IsForestRoot(cmd.newNode.alias) && RootClassOk(cmd.newNode)
    ensures Step(env, Empty({}), cmd).verdict.Applied?
  {
    EmptySound(env, {});
    CreateDecided(env, Empty({}), cmd);
  }
}
