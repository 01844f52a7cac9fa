/** What a whole turn of either thread publishes: nothing read is dropped, nothing is published twice,
    and no turn can get stuck. */
module Rounds {
  import opened Prelude
  import opened Aliases
  import opened GNodes
  import opened Tables
  import opened Transactions
  import opened Invariants
  import opened ForestReads
  import opened Topology
  import opened Runs
  import opened Protocol
  import opened Rabbit

  // ---- the change broadcasts ----

  function ChangeIn(m: Message): seq<Forest> { if m.Change? then [m.forest] else [] }

  function AnsweredBy(v: Verdict): seq<Forest> { if v.Applied? then [v.forest] else [] }

  /** The forest the consumer is about to publish. */
  function Unpublished(c: Consumer): seq<Forest> { if c.Publishing? then [c.forest] else [] }

  lemma {:induction false} VerdictsSnoc(env: Env, db: Registry, cmds: seq<Command>, cmd: Command)
    requires ValidEnv(env)
    ensures Verdicts(env, db, cmds + [cmd]) == Verdicts(env, db, cmds) + [Step(env, Run(env, db, cmds), cmd).verdict]
    decreases |cmds|
  {
    if cmds == [] {
      assert [] + [cmd] == [cmd] && [cmd][1..] == [];
    } else {
      assert (cmds + [cmd])[1..] == cmds[1..] + [cmd];
      VerdictsSnoc(env, Step(env, db, cmds[0]).db, cmds[1..], cmd);
    }
  }

  lemma FlatMapOne<S, T>(f: S -> seq<T>, xs: seq<S>, x: S)
    ensures FlatMap(f, xs + [x]) == FlatMap(f, xs) + f(x)
  {
    FlatMapAppends(f, xs, [x]);
    assert [x][1..] == [];
  }

  /** The changes published, and the one about to be, are the forests of the commands applied. */
  ghost predicate ChangesKeepUp(env: Env, db0: Registry, s: Sys)
    requires ValidEnv(env)
  {
    FlatMap(ChangeIn, s.published) + Unpublished(s.consumer) == FlatMap(AnsweredBy, Verdicts(env, db0, s.done))
  }

  lemma AppliesKeepsUp(env: Env, db0: Registry, s: Sys, s': Sys)
    requires ValidEnv(env) && Grounded(env, db0, s) && ChangesKeepUp(env, db0, s) && ConsumerApplies(env, s, s')
    ensures ChangesKeepUp(env, db0, s')
  {
    VerdictsSnoc(env, db0, s.done, s.consumer.cmd);
    FlatMapOne(AnsweredBy, Verdicts(env, db0, s.done), Step(env, s.db, s.consumer.cmd).verdict);
  }

  lemma PublishesKeepsUp(env: Env, db0: Registry, s: Sys, s': Sys)
    requires ValidEnv(env) && ChangesKeepUp(env, db0, s) && ConsumerPublishes(s, s')
    ensures ChangesKeepUp(env, db0, s')
  {
    FlatMapOne(ChangeIn, s.published, Change(|s.done|, s.consumer.forest));
  }

  lemma SendKeepsUp(env: Env, db0: Registry, s: Sys, s': Sys)
    requires ValidEnv(env) && ChangesKeepUp(env, db0, s) && SnapshotsSend(s, s')
    ensures ChangesKeepUp(env, db0, s')
  {
    FlatMapOne(ChangeIn, s.published, Snapshot(s.snapshots.version, s.snapshots.root, s.snapshots.forest));
  }

  lemma OthersKeepUp(env: Env, s: Sys, s': Sys)
    requires ValidEnv(env) && Next(env, s, s')
    requires !ConsumerApplies(env, s, s') && !ConsumerPublishes(s, s') && !SnapshotsSend(s, s')
    ensures s'.published == s.published && s'.done == s.done && Unpublished(s'.consumer) == Unpublished(s.consumer)
  {}

  lemma NextKeepsUp(env: Env, db0: Registry, s: Sys, s': Sys)
    requires ValidEnv(env) && Grounded(env, db0, s) && ChangesKeepUp(env, db0, s) && Next(env, s, s')
    ensures ChangesKeepUp(env, db0, s')
  {
    if ConsumerApplies(env, s, s') {
      AppliesKeepsUp(env, db0, s, s');
    } else if ConsumerPublishes(s, s') {
      PublishesKeepsUp(env, db0, s, s');
    } else if SnapshotsSend(s, s') {
      SendKeepsUp(env, db0, s, s');
    } else {
      OthersKeepUp(env, s, s');
    }
  }

  /** In every behaviour the change broadcasts in the queue, in order, are exactly the forests of the
      applied commands, in order; only the one whose command was applied last can still be missing,
      and only while the lock is held. */
  lemma {:induction false} ChangesAreAnswers(env: Env, db0: Registry, trace: seq<Sys>, k: nat)
    requires ValidEnv(env) && Sound(db0) && Behaviour(env, db0, trace) && k < |trace|
    ensures ChangesKeepUp(env, db0, trace[k])
    ensures trace[k].lock.Free? ==>
              FlatMap(ChangeIn, trace[k].published) == FlatMap(AnsweredBy, Verdicts(env, db0, trace[k].done))
  {
    BehaviourInv(env, db0, trace, k);
    if k > 0 {
      ChangesAreAnswers(env, db0, trace, k - 1);
      BehaviourInv(env, db0, trace, k - 1);
      NextKeepsUp(env, db0, trace[k - 1], trace[k]);
    }
  }

  // ---- the snapshots of one round ----

  function RootIn(m: Message): seq<Alias> { if m.Snapshot? then [m.root] else [] }

  function RadioOf(m: Message): seq<Send> { if m.Snapshot? then [Radio(m.root, m.forest)] else [] }

  /** What the queue got from one state to a later one. */
  function Since(s: Sys, s': Sys): seq<Message> {
    if |s.published| <= |s'.published| then s'.published[|s.published|..] else []
  }

  lemma SinceOne(s: Sys, s': Sys, m: Message)
    requires s'.published == s.published + [m]
    ensures Since(s, s') == [m] && FlatMap(RootIn, Since(s, s')) == RootIn(m) && FlatMap(RadioOf, Since(s, s')) == RadioOf(m)
  {
    assert [m][1..] == [];
  }

  lemma SinceThen(s: Sys, s': Sys, s'': Sys)
    requires s.published <= s'.published <= s''.published
    ensures Since(s, s'') == Since(s, s') + Since(s', s'')
    ensures FlatMap(RootIn, Since(s, s'')) == FlatMap(RootIn, Since(s, s')) + FlatMap(RootIn, Since(s', s''))
    ensures FlatMap(RadioOf, Since(s, s'')) == FlatMap(RadioOf, Since(s, s')) + FlatMap(RadioOf, Since(s', s''))
  {
    FlatMapAppends(RootIn, Since(s, s'), Since(s', s''));
    FlatMapAppends(RadioOf, Since(s, s'), Since(s', s''));
  }

  /** From `s` to `s'` the roots ahead shrink by exactly the roots whose snapshots were published. */
  ghost predicate Spends(s: Sys, s': Sys) {
    s.published <= s'.published && FlatMap(RootIn, Since(s, s')) + Ahead(s'.snapshots) == Ahead(s.snapshots)
  }

  lemma PublishingSpends(s: Sys, s': Sys, m: Message)
    requires s'.published == s.published + [m] && RootIn(m) + Ahead(s'.snapshots) == Ahead(s.snapshots)
    ensures Spends(s, s')
  {
    SinceOne(s, s', m);
  }

  lemma QuietSpends(s: Sys, s': Sys)
    requires s'.published == s.published && Ahead(s'.snapshots) == Ahead(s.snapshots)
    ensures Spends(s, s')
  {}

  lemma ConsumerSpends(env: Env, s: Sys, s': Sys)
    requires ValidEnv(env) && ConsumerNext(env, s, s')
    ensures Spends(s, s')
  {
    if ConsumerPublishes(s, s') {
      PublishingSpends(s, s', Change(|s.done|, s.consumer.forest));
    } else {
      QuietSpends(s, s');
    }
  }

  lemma SnapshotsSpend(env: Env, s: Sys, s': Sys)
    requires ValidEnv(env) && Sound(s.db) && SnapshotsNext(env, s, s') && !s.snapshots.Asleep?
    ensures Spends(s, s')
  {
    if SnapshotsSend(s, s') {
      PublishingSpends(s, s', Snapshot(s.snapshots.version, s.snapshots.root, s.snapshots.forest));
    } else {
      if s.snapshots.Reading? { GetForestLists(env, s.db, [s.snapshots.root]); }
      QuietSpends(s, s');
    }
  }

  /** Whatever step is taken, the roots ahead shrink by exactly the roots whose snapshots it published. */
  lemma StepSpendsRoots(env: Env, s: Sys, s': Sys)
    requires ValidEnv(env) && Sound(s.db) && Next(env, s, s') && !s.snapshots.Asleep?
    ensures Spends(s, s')
  {
    if ConsumerNext(env, s, s') { ConsumerSpends(env, s, s'); } else { SnapshotsSpend(env, s, s'); }
  }

  lemma StepWakes(env: Env, s: Sys, s': Sys)
    requires ValidEnv(env) && Next(env, s, s') && s.snapshots.Asleep? && !s'.snapshots.Asleep?
    ensures s'.published == s.published && s'.db == s.db && Ahead(s'.snapshots) == ForestRoots(env, s.db.nodes)
  {}

  /** `trace[j]` is the last state of the snapshot thread's sleep before the round that is under way,
      or just over, at `k`. */
  ghost predicate RoundFrom(trace: seq<Sys>, j: nat, k: nat) {
    && j < k < |trace| && trace[j].snapshots.Asleep? && !trace[j + 1].snapshots.Asleep?
    && (forall i :: j < i < k ==> !trace[i].snapshots.Asleep?)
  }

  lemma Regroup<T>(x: seq<T>, y: seq<T>, z: seq<T>, rest: seq<T>, all: seq<T>)
    requires x + rest == all && y + z == rest
    ensures (x + y) + z == all
  {}

  /** The roots whose snapshots were published since `s`, and those ahead at `s'`, are `roots`. */
  ghost predicate Spent(s: Sys, s': Sys, roots: seq<Alias>) {
    s.published <= s'.published && FlatMap(RootIn, Since(s, s')) + Ahead(s'.snapshots) == roots
  }

  lemma SpendsOn(s0: Sys, s: Sys, s': Sys, roots: seq<Alias>)
    requires Spent(s0, s, roots) && Spends(s, s')
    ensures Spent(s0, s', roots)
  {
    SinceThen(s0, s, s');
    Regroup(FlatMap(RootIn, Since(s0, s)), FlatMap(RootIn, Since(s, s')), Ahead(s'.snapshots), Ahead(s.snapshots), roots);
  }

  lemma WakeSpends(env: Env, s: Sys, s': Sys)
    requires ValidEnv(env) && Next(env, s, s') && s.snapshots.Asleep? && !s'.snapshots.Asleep?
    ensures Spent(s, s', ForestRoots(env, s.db.nodes))
  {
    StepWakes(env, s, s');
  }

  ghost predicate SpendsAt(trace: seq<Sys>, i: nat) {
    i + 1 < |trace| && Spends(trace[i], trace[i + 1])
  }

  lemma {:induction false} SpentAlong(trace: seq<Sys>, j: nat, k: nat, roots: seq<Alias>)
    requires j < k < |trace| && Spent(trace[j], trace[j + 1], roots)
    requires forall i :: j < i < k ==> SpendsAt(trace, i)
    ensures Spent(trace[j], trace[k], roots)
    decreases k
  {
    if k > j + 1 {
      SpentAlong(trace, j, k - 1, roots);
      assert SpendsAt(trace, k - 1);
      SpendsOn(trace[j], trace[k - 1], trace[k], roots);
    }
  }

  lemma StepsSpend(env: Env, db0: Registry, trace: seq<Sys>, j: nat, k: nat)
    requires ValidEnv(env) && Sound(db0) && Behaviour(env, db0, trace) && RoundFrom(trace, j, k)
    ensures Spent(trace[j], trace[j + 1], ForestRoots(env, trace[j].db.nodes))
    ensures forall i :: j < i < k ==> SpendsAt(trace, i)
  {
    WakeSpends(env, trace[j], trace[j + 1]);
    forall i | j < i < k ensures SpendsAt(trace, i) {
      BehaviourInv(env, db0, trace, i);
      StepSpendsRoots(env, trace[i], trace[i + 1]);
    }
  }

  /** In every behaviour, at every point of a round: the roots of the snapshots published since the
      thread woke, followed by the roots still ahead, are exactly the forest roots there were when it
      woke. So when the round is over each of them, in order, has one published snapshot. */
  lemma RoundPublishesRoots(env: Env, db0: Registry, trace: seq<Sys>, j: nat, k: nat)
    requires ValidEnv(env) && Sound(db0) && Behaviour(env, db0, trace) && RoundFrom(trace, j, k)
    ensures trace[j].published <= trace[k].published
    ensures FlatMap(RootIn, Since(trace[j], trace[k])) + Ahead(trace[k].snapshots) == ForestRoots(env, trace[j].db.nodes)
    ensures trace[k].snapshots.Asleep? ==> FlatMap(RootIn, Since(trace[j], trace[k])) == ForestRoots(env, trace[j].db.nodes)
  {
    StepsSpend(env, db0, trace, j, k);
    SpentAlong(trace, j, k, ForestRoots(env, trace[j].db.nodes));
  }

  // ---- what the snapshots show ----

  /** One message at most, and current if it is a snapshot. */
  ghost predicate PublishesCurrent(env: Env, s: Sys, s': Sys)
    requires ValidEnv(env)
  {
    s'.published == s.published
    || (|s'.published| == |s.published| + 1 && s'.published[..|s.published|] == s.published
        && var m := s'.published[|s.published|];
           m.Snapshot? ==> s'.db == s.db && GetForest(env, s.db, [m.root]) == Some(m.forest))
  }

  lemma ConsumerPublishesCurrent(env: Env, s: Sys, s': Sys)
    requires ValidEnv(env) && ConsumerNext(env, s, s')
    ensures PublishesCurrent(env, s, s')
  {}

  lemma SendPublishesCurrent(env: Env, s: Sys, s': Sys)
    requires ValidEnv(env) && SnapshotsSend(s, s') && GetForest(env, s.db, [s.snapshots.root]) == Some(s.snapshots.forest)
    ensures PublishesCurrent(env, s, s')
  {}

  lemma OthersPublishNothing(env: Env, s: Sys, s': Sys)
    requires ValidEnv(env) && SnapshotsNext(env, s, s') && !SnapshotsSend(s, s')
    ensures s'.published == s.published
  {}

  lemma SendingIsCurrent(env: Env, db0: Registry, s: Sys)
    requires ValidEnv(env) && Queued(env, db0, s) && s.snapshots.Sending?
    ensures GetForest(env, s.db, [s.snapshots.root]) == Some(s.snapshots.forest)
  {}

  lemma SnapshotsPublishCurrent(env: Env, s: Sys, s': Sys)
    requires ValidEnv(env) && SnapshotsNext(env, s, s')
    requires s.snapshots.Sending? ==> GetForest(env, s.db, [s.snapshots.root]) == Some(s.snapshots.forest)
    ensures PublishesCurrent(env, s, s')
  {
    if SnapshotsSend(s, s') { SendPublishesCurrent(env, s, s'); } else { OthersPublishNothing(env, s, s'); }
  }

  lemma StepPublishesCurrent(env: Env, db0: Registry, s: Sys, s': Sys)
    requires ValidEnv(env) && Queued(env, db0, s) && Next(env, s, s')
    ensures PublishesCurrent(env, s, s')
  {
    if ConsumerNext(env, s, s') {
      ConsumerPublishesCurrent(env, s, s');
    } else {
      if s.snapshots.Sending? { SendingIsCurrent(env, db0, s); }
      SnapshotsPublishCurrent(env, s, s');
    }
  }

  /** In every behaviour a step publishes at most one message, and a snapshot shows what its root reads
      at the very moment it is published. */
  lemma PublishedWhileCurrent(env: Env, db0: Registry, trace: seq<Sys>, i: nat)
    requires ValidEnv(env) && Sound(db0) && Behaviour(env, db0, trace) && i + 1 < |trace|
    ensures var s, s' := trace[i], trace[i + 1];
            s'.published == s.published
            || (|s'.published| == |s.published| + 1 && s'.published[..|s.published|] == s.published
                && var m := s'.published[|s.published|];
                   m.Snapshot? ==> s'.db == s.db && GetForest(env, s.db, [m.root]) == Some(m.forest))
  {
    BehaviourInv(env, db0, trace, i);
    StepPublishesCurrent(env, db0, trace[i], trace[i + 1]);
  }

  /** The snapshots among `messages` show what their roots read in `db`. */
  ghost predicate Show(env: Env, db: Registry, messages: seq<Message>)
    requires ValidEnv(env)
  {
    forall m :: m in messages && m.Snapshot? ==> GetForest(env, db, [m.root]) == Some(m.forest)
  }

  lemma FirstSend(env: Env, db: Registry, root: Alias, f: Forest, rest: seq<Alias>)
    requires ValidEnv(env) && GetForest(env, db, [root]) == Some(f)
    ensures SnapshotSends(env, db, [root] + rest) == [Radio(root, f)] + SnapshotSends(env, db, rest)
  {
    assert ([root] + rest)[0] == root && ([root] + rest)[1..] == rest;
  }

  lemma {:induction false} SendsOfRoots(env: Env, db: Registry, messages: seq<Message>)
    requires ValidEnv(env) && Show(env, db, messages)
    ensures FlatMap(RadioOf, messages) == SnapshotSends(env, db, FlatMap(RootIn, messages))
  {
    if messages != [] {
      var m := messages[0];
      assert m in messages && forall x :: x in messages[1..] ==> x in messages;
      SendsOfRoots(env, db, messages[1..]);
      if m.Snapshot? {
        FirstSend(env, db, m.root, m.forest, FlatMap(RootIn, messages[1..]));
      } else {
        assert FlatMap(RadioOf, messages) == FlatMap(RadioOf, messages[1..]);
        assert FlatMap(RootIn, messages) == FlatMap(RootIn, messages[1..]);
      }
    }
  }

  lemma ShowOneMore(env: Env, db: Registry, messages: seq<Message>, more: seq<Message>)
    requires ValidEnv(env) && Show(env, db, messages) && Show(env, db, more)
    ensures Show(env, db, messages + more)
  {}

  ghost predicate AddsCurrent(env: Env, s: Sys, s': Sys)
    requires ValidEnv(env)
  {
    s.published <= s'.published && Show(env, s.db, Since(s, s'))
  }

  ghost predicate AddsCurrentAt(env: Env, trace: seq<Sys>, i: nat)
    requires ValidEnv(env)
  {
    i + 1 < |trace| && AddsCurrent(env, trace[i], trace[i + 1])
  }

  lemma PublishingAddsCurrent(env: Env, s: Sys, s': Sys)
    requires ValidEnv(env) && PublishesCurrent(env, s, s')
    ensures AddsCurrent(env, s, s')
  {
    if s'.published != s.published {
      var m := s'.published[|s.published|];
      assert s'.published == s.published + [m];
      SinceOne(s, s', m);
    }
  }

  lemma StepAddsCurrent(env: Env, db0: Registry, trace: seq<Sys>, i: nat)
    requires ValidEnv(env) && Sound(db0) && Behaviour(env, db0, trace) && i + 1 < |trace|
    ensures AddsCurrentAt(env, trace, i)
  {
    PublishedWhileCurrent(env, db0, trace, i);
    PublishingAddsCurrent(env, trace[i], trace[i + 1]);
  }

  lemma AddsOn(env: Env, s0: Sys, s: Sys, s': Sys)
    requires ValidEnv(env) && s0.published <= s.published && Show(env, s0.db, Since(s0, s))
    requires s.db == s0.db && AddsCurrent(env, s, s')
    ensures s0.published <= s'.published && Show(env, s0.db, Since(s0, s'))
  {
    SinceThen(s0, s, s');
    ShowOneMore(env, s0.db, Since(s0, s), Since(s, s'));
  }

  lemma {:induction false} ShownAlong(env: Env, trace: seq<Sys>, j: nat, k: nat)
    requires ValidEnv(env) && j <= k < |trace|
    requires forall i :: j <= i < k ==> AddsCurrentAt(env, trace, i)
    requires forall i :: j <= i <= k ==> trace[i].db == trace[j].db
    ensures trace[j].published <= trace[k].published && Show(env, trace[j].db, Since(trace[j], trace[k]))
    decreases k
  {
    if k > j {
      ShownAlong(env, trace, j, k - 1);
      assert AddsCurrentAt(env, trace, k - 1);
      AddsOn(env, trace[j], trace[k - 1], trace[k]);
    }
  }

  /** A round during which the registry did not change publishes, whatever else goes on, exactly what
      one call of `BroadcastAllSnapshots` sends. */
  lemma UndisturbedRound(env: Env, db0: Registry, trace: seq<Sys>, j: nat, k: nat)
    requires ValidEnv(env) && Sound(db0) && Behaviour(env, db0, trace) && RoundFrom(trace, j, k)
    requires trace[k].snapshots.Asleep? && forall i :: j <= i <= k ==> trace[i].db == trace[j].db
    ensures FlatMap(RadioOf, Since(trace[j], trace[k]))
            == SnapshotSends(env, trace[j].db, ForestRoots(env, trace[j].db.nodes))
  {
    RoundPublishesRoots(env, db0, trace, j, k);
    forall i | j <= i < k ensures AddsCurrentAt(env, trace, i) { StepAddsCurrent(env, db0, trace, i); }
    ShownAlong(env, trace, j, k);
    SendsOfRoots(env, trace[j].db, Since(trace[j], trace[k]));
  }

  // ---- no turn gets stuck ----

  /** The snapshot thread can take a step unless it waits for the lock: it wakes whoever holds it. */
  lemma SnapshotsBlockedIff(env: Env, s: Sys)
    requires ValidEnv(env)
    ensures (exists s' :: SnapshotsNext(env, s, s'))
            <==> !(s.snapshots.Looping? && s.snapshots.roots != [] && !s.lock.Free?)
  {
    if !(s.snapshots.Looping? && s.snapshots.roots != [] && !s.lock.Free?) {
      var f := if s.snapshots.Reading? then GetForest(env, s.db, [s.snapshots.root]) else None;
      var s' := match s.snapshots
        case Asleep => s.(snapshots := Looping(ForestRoots(env, s.db.nodes)))
        case Looping(roots) =>
          if roots == [] then s.(snapshots := Asleep)
          else s.(lock := HeldBySnapshots, snapshots := Reading(roots[0], roots[1..]))
        case Reading(root, rest) =>
          if f.Some? then s.(snapshots := Sending(root, |s.done|, f.value, rest)) else s.(lock := Free, snapshots := Asleep)
        case Sending(root, version, forest, rest) =>
          s.(published := s.published + [Snapshot(version, root, forest)], snapshots := Unlocking(rest))
        case Unlocking(rest) => s.(lock := Free, snapshots := Looping(rest));
      assert SnapshotsNext(env, s, s');
    }
  }

  /** And so can the consumer; idle, it receives whatever command comes. */
  lemma ConsumerBlockedIff(env: Env, s: Sys, cmd: Command)
    requires ValidEnv(env)
    ensures (exists s' :: ConsumerNext(env, s, s')) <==> !(s.consumer.Waiting? && !s.lock.Free?)
    ensures s.consumer.Idle? ==> ConsumerNext(env, s, s.(consumer := Waiting(cmd)))
  {
    if s.consumer.Idle? { assert Receive(s, s.(consumer := Waiting(cmd)), cmd); }
    if !(s.consumer.Waiting? && !s.lock.Free?) {
      var s' := match s.consumer
        case Idle => s.(consumer := Waiting(cmd))
        case Waiting(c) => s.(lock := HeldByConsumer, consumer := Applying(c))
        case Applying(c) =>
          var r := Step(env, s.db, c);
          s.(db := r.db, done := s.done + [c], consumer := if r.verdict.Applied? then Publishing(r.verdict.forest) else Leaving)
        case Publishing(forest) => s.(published := s.published + [Change(|s.done|, forest)], consumer := Leaving)
        case Leaving => s.(lock := Free, consumer := Idle);
      assert ConsumerNext(env, s, s');
    }
  }

  /** No deadlock: in every behaviour the thread that holds the lock can go on, and with the lock free
      both can. */
  lemma NeverDeadlocked(env: Env, db0: Registry, trace: seq<Sys>, k: nat, cmd: Command)
    requires ValidEnv(env) && Sound(db0) && Behaviour(env, db0, trace) && k < |trace|
    ensures !trace[k].lock.HeldBySnapshots? ==> exists s' :: ConsumerNext(env, trace[k], s')
    ensures !trace[k].lock.HeldByConsumer? ==> exists s' :: SnapshotsNext(env, trace[k], s')
  {
    BehaviourInv(env, db0, trace, k);
    ConsumerBlockedIff(env, trace[k], cmd);
    SnapshotsBlockedIff(env, trace[k]);
  }

  // ---- undisturbed turns ----

  ghost predicate IsRun(env: Env, trace: seq<Sys>)
    requires ValidEnv(env)
  {
    trace != [] && forall k :: 0 <= k < |trace| - 1 ==> Next(env, trace[k], trace[k + 1])
  }

  /** Some run of steps leads from `s` to `s'`. */
  ghost predicate Leads(env: Env, s: Sys, s': Sys)
    requires ValidEnv(env)
  {
    exists trace :: IsRun(env, trace) && trace[0] == s && trace[|trace| - 1] == s'
  }

  lemma LeadsOne(env: Env, s: Sys, s': Sys)
    requires ValidEnv(env) && Next(env, s, s')
    ensures Leads(env, s, s')
  {
    var trace := [s, s'];
    assert IsRun(env, trace);
  }

  lemma LeadsOn(env: Env, s: Sys, s': Sys, s'': Sys)
    requires ValidEnv(env) && Leads(env, s, s') && Next(env, s', s'')
    ensures Leads(env, s, s'')
  {
    var trace :| IsRun(env, trace) && trace[0] == s && trace[|trace| - 1] == s';
    var longer := trace + [s''];
    assert IsRun(env, longer) && longer[0] == s && longer[|longer| - 1] == s'';
  }

  /** The state after one command, taken with nobody in the way. */
  ghost function Answered(env: Env, s: Sys, cmd: Command): Sys
    requires ValidEnv(env)
  {
    var r := Step(env, s.db, cmd);
    s.(db := r.db, done := s.done + [cmd],
       published := s.published + if r.verdict.Applied? then [Change(|s.done| + 1, r.verdict.forest)] else [])
  }

  lemma AppliedTurn(env: Env, s: Sys, s': Sys, cmd: Command)
    requires ValidEnv(env) && s.lock.Free? && s.consumer.Idle? && Leads(env, s, s')
    requires Step(env, s.db, cmd).verdict.Applied?
    requires s' == s.(db := Step(env, s.db, cmd).db, done := s.done + [cmd], lock := HeldByConsumer,
                      consumer := Publishing(Step(env, s.db, cmd).verdict.forest))
    ensures Leads(env, s, Answered(env, s, cmd))
  {
    var a := Answered(env, s, cmd).(lock := HeldByConsumer, consumer := Leaving);
    assert ConsumerPublishes(s', a);
    LeadsOn(env, s, s', a);
    assert ConsumerLeaves(a, Answered(env, s, cmd));
    LeadsOn(env, s, a, Answered(env, s, cmd));
  }

  lemma OtherTurn(env: Env, s: Sys, s': Sys, cmd: Command)
    requires ValidEnv(env) && s.lock.Free? && s.consumer.Idle? && Leads(env, s, s')
    requires !Step(env, s.db, cmd).verdict.Applied?
    requires s' == s.(db := Step(env, s.db, cmd).db, done := s.done + [cmd], lock := HeldByConsumer, consumer := Leaving)
    ensures Leads(env, s, Answered(env, s, cmd))
  {
    assert s.published + [] == s.published;
    assert ConsumerLeaves(s', Answered(env, s, cmd));
    LeadsOn(env, s, s', Answered(env, s, cmd));
  }

  /** From any state with the lock free and the consumer idle, whatever command comes can be taken all
      the way: the registry is what one step makes of it, and the forest of an applied command, and
      nothing else, joins the queue. */
  lemma CommandTurn(env: Env, s: Sys, cmd: Command)
    requires ValidEnv(env) && s.lock.Free? && s.consumer.Idle?
    ensures Leads(env, s, Answered(env, s, cmd))
  {
    var waiting := s.(consumer := Waiting(cmd));
    var applying := s.(lock := HeldByConsumer, consumer := Applying(cmd));
    var r := Step(env, s.db, cmd);
    var after := applying.(db := r.db, done := s.done + [cmd],
                           consumer := if r.verdict.Applied? then Publishing(r.verdict.forest) else Leaving);
    assert Receive(s, waiting, cmd);
    LeadsOne(env, s, waiting);
    assert ConsumerLocks(waiting, applying);
    LeadsOn(env, s, waiting, applying);
    assert ConsumerApplies(env, applying, after);
    LeadsOn(env, s, applying, after);
    if r.verdict.Applied? { AppliedTurn(env, s, after, cmd); } else { OtherTurn(env, s, after, cmd); }
  }

  /** One root's turn: lock, read, send, unlock. */
  lemma RootTurn(env: Env, s0: Sys, s: Sys, f: Forest)
    requires ValidEnv(env) && s.lock.Free? && s.snapshots.Looping? && s.snapshots.roots != [] && Leads(env, s0, s)
    requires GetForest(env, s.db, [s.snapshots.roots[0]]) == Some(f)
    ensures Leads(env, s0, s.(published := s.published + [Snapshot(|s.done|, s.snapshots.roots[0], f)],
                              snapshots := Looping(s.snapshots.roots[1..])))
  {
    var root, rest := s.snapshots.roots[0], s.snapshots.roots[1..];
    var reading := s.(lock := HeldBySnapshots, snapshots := Reading(root, rest));
    var sending := reading.(snapshots := Sending(root, |s.done|, f, rest));
    var sent := sending.(published := s.published + [Snapshot(|s.done|, root, f)], snapshots := Unlocking(rest));
    assert SnapshotsLock(s, reading);
    LeadsOn(env, s0, s, reading);
    assert SnapshotsRead(env, reading, sending);
    LeadsOn(env, s0, reading, sending);
    assert SnapshotsSend(sending, sent);
    LeadsOn(env, s0, sending, sent);
    assert SnapshotsUnlock(sent, sent.(lock := Free, snapshots := Looping(rest)));
    LeadsOn(env, s0, sent, sent.(lock := Free, snapshots := Looping(rest)));
  }

  /** A snapshot of `root` as `db` reads. */
  ghost predicate Shot(env: Env, db: Registry, version: nat, root: Alias, m: Message)
    requires ValidEnv(env)
  {
    m.Snapshot? && m.version == version && m.root == root && GetForest(env, db, [root]) == Some(m.forest)
  }

  /** One snapshot a root, in order, all of one registry. */
  ghost predicate OnePerRoot(env: Env, db: Registry, version: nat, roots: seq<Alias>, messages: seq<Message>)
    requires ValidEnv(env)
  {
    |messages| == |roots| && forall k :: 0 <= k < |roots| ==> Shot(env, db, version, roots[k], messages[k])
  }

  lemma OnePerRootCons(env: Env, db: Registry, version: nat, roots: seq<Alias>, m: Message, rest: seq<Message>)
    requires ValidEnv(env) && roots != [] && Shot(env, db, version, roots[0], m)
    requires OnePerRoot(env, db, version, roots[1..], rest)
    ensures OnePerRoot(env, db, version, roots, [m] + rest)
  {
    var all := [m] + rest;
    forall k | 0 <= k < |roots| ensures Shot(env, db, version, roots[k], all[k]) {
      if k > 0 { assert roots[k] == roots[1..][k - 1] && all[k] == rest[k - 1]; }
    }
  }

  lemma OnePerRootTail(env: Env, db: Registry, version: nat, roots: seq<Alias>, messages: seq<Message>)
    requires ValidEnv(env) && roots != [] && OnePerRoot(env, db, version, roots, messages)
    ensures Shot(env, db, version, roots[0], messages[0]) && OnePerRoot(env, db, version, roots[1..], messages[1..])
  {}

  /** `s` after a loop that published `sent`. */
  function LoopedThrough(s: Sys, sent: seq<Message>): Sys {
    s.(published := s.published + sent, snapshots := Asleep)
  }

  lemma LoopEnds(env: Env, s0: Sys, s: Sys)
    requires ValidEnv(env) && s.snapshots == Looping([]) && Leads(env, s0, s)
    ensures Leads(env, s0, LoopedThrough(s, []))
  {
    assert s.published + [] == s.published;
    assert SnapshotsSleep(s, LoopedThrough(s, []));
    LeadsOn(env, s0, s, LoopedThrough(s, []));
  }

  lemma LoopedCons(s: Sys, m: Message, t: Snapshots, rest: seq<Message>)
    ensures LoopedThrough(s.(published := s.published + [m], snapshots := t), rest) == LoopedThrough(s, [m] + rest)
  {
    assert (s.published + [m]) + rest == s.published + ([m] + rest);
  }

  lemma {:induction false} LoopTurn(env: Env, s0: Sys, s: Sys) returns (sent: seq<Message>)
    requires ValidEnv(env) && Sound(s.db) && s.lock.Free? && s.snapshots.Looping? && Leads(env, s0, s)
    ensures OnePerRoot(env, s.db, |s.done|, s.snapshots.roots, sent)
    ensures Leads(env, s0, LoopedThrough(s, sent))
    decreases |s.snapshots.roots|
  {
    var roots := s.snapshots.roots;
    if roots == [] {
      sent := [];
      LoopEnds(env, s0, s);
    } else {
      ReadSucceeds(env, s.db, roots[0]);
      var f := GetForest(env, s.db, [roots[0]]).value;
      var m := Snapshot(|s.done|, roots[0], f);
      RootTurn(env, s0, s, f);
      var rest := LoopTurn(env, s0, s.(published := s.published + [m], snapshots := Looping(roots[1..])));
      sent := [m] + rest;
      OnePerRootCons(env, s.db, |s.done|, roots, m, rest);
      LoopedCons(s, m, Looping(roots[1..]), rest);
    }
  }

  lemma AllRead(env: Env, db: Registry, version: nat, roots: seq<Alias>, sent: seq<Message>)
    requires ValidEnv(env) && OnePerRoot(env, db, version, roots, sent)
    ensures forall r :: r in roots ==> GetForest(env, db, [r]).Some?
  {
    forall r | r in roots ensures GetForest(env, db, [r]).Some? {
      var k :| 0 <= k < |roots| && roots[k] == r;
      assert Shot(env, db, version, roots[k], sent[k]);
    }
  }

  lemma OnePerRootFront(env: Env, db: Registry, version: nat, roots: seq<Alias>, sent: seq<Message>)
    requires ValidEnv(env) && OnePerRoot(env, db, version, roots, sent) && roots != []
    ensures var last := |roots| - 1;
            && OnePerRoot(env, db, version, roots[..last], sent[..last])
            && GetForest(env, db, [roots[last]]).Some?
            && sent == sent[..last] + [Snapshot(version, roots[last], GetForest(env, db, [roots[last]]).value)]
  {
    assert Shot(env, db, version, roots[|roots| - 1], sent[|roots| - 1]);
  }

  /** The round that bootstraps a follower is this one. */
  lemma {:induction false} RoundIs(env: Env, db: Registry, version: nat, roots: seq<Alias>, sent: seq<Message>)
    requires ValidEnv(env) && Constraints(db) && OnePerRoot(env, db, version, roots, sent)
    ensures forall r :: r in roots ==> GetForest(env, db, [r]).Some?
    ensures Round(env, db, version, roots) == sent
    decreases |roots|
  {
    AllRead(env, db, version, roots, sent);
    if roots != [] {
      OnePerRootFront(env, db, version, roots, sent);
      RoundIs(env, db, version, roots[..|roots| - 1], sent[..|roots| - 1]);
    }
  }

  lemma {:induction false} RootsSent(sent: seq<Message>, roots: seq<Alias>, env: Env, db: Registry, version: nat)
    requires ValidEnv(env) && OnePerRoot(env, db, version, roots, sent)
    ensures FlatMap(RootIn, sent) == roots
    decreases |roots|
  {
    if roots != [] {
      OnePerRootTail(env, db, version, roots, sent);
      RootsSent(sent[1..], roots[1..], env, db, version);
      assert RootIn(sent[0]) == [roots[0]];
    }
  }

  lemma SentShow(sent: seq<Message>, roots: seq<Alias>, env: Env, db: Registry, version: nat)
    requires ValidEnv(env) && OnePerRoot(env, db, version, roots, sent)
    ensures Show(env, db, sent)
  {
    forall m | m in sent && m.Snapshot? ensures GetForest(env, db, [m.root]) == Some(m.forest) {
      var k :| 0 <= k < |sent| && sent[k] == m;
      assert Shot(env, db, version, roots[k], sent[k]);
    }
  }

  /** From any state with the lock free and the snapshot thread asleep, a whole round can be run: one
      snapshot of each forest root joins the queue, in order, and everything else stays. */
  lemma SnapshotTurns(env: Env, s: Sys) returns (sent: seq<Message>)
    requires ValidEnv(env) && Sound(s.db) && s.lock.Free? && s.snapshots.Asleep?
    ensures OnePerRoot(env, s.db, |s.done|, ForestRoots(env, s.db.nodes), sent)
    ensures FlatMap(RadioOf, sent) == SnapshotSends(env, s.db, ForestRoots(env, s.db.nodes))
    ensures forall r :: r in ForestRoots(env, s.db.nodes) ==> GetForest(env, s.db, [r]).Some?
    ensures sent == Round(env, s.db, |s.done|, ForestRoots(env, s.db.nodes))
    ensures Leads(env, s, s.(published := s.published + sent))
  {
    var roots := ForestRoots(env, s.db.nodes);
    var looping := s.(snapshots := Looping(roots));
    assert SnapshotsWake(env, s, looping);
    LeadsOne(env, s, looping);
    sent := LoopTurn(env, s, looping);
    RootsSent(sent, roots, env, s.db, |s.done|);
    SentShow(sent, roots, env, s.db, |s.done|);
    SendsOfRoots(env, s.db, sent);
    RoundIs(env, s.db, |s.done|, roots, sent);
  }
}
