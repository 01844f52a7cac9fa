/** Two threads, one lock: the consumer that applies commands and the snapshot loop, interleaved
    step by step, and what a listener to their publish queue can rely on. */
module Protocol {
  import opened Prelude
  import opened Aliases
  import opened GNodes
  import opened Tables
  import opened Transactions
  import opened Invariants
  import opened ForestReads
  import opened Topology
  import opened Runs

  /** A published forest, with the number of commands the registry had processed when it was made. */
  datatype Message =
    | Change(version: nat, forest: Forest)
    | Snapshot(version: nat, root: Alias, forest: Forest)

  datatype Lock = Free | HeldByConsumer | HeldBySnapshots

  datatype Consumer =
    | Idle
    | Waiting(cmd: Command)
    | Applying(cmd: Command)
    | Publishing(forest: Forest)
    | Leaving

  datatype Snapshots =
    | Asleep
    | Looping(roots: seq<Alias>)
    | Reading(root: Alias, rest: seq<Alias>)
    | Sending(root: Alias, version: nat, forest: Forest, rest: seq<Alias>)
    | Unlocking(rest: seq<Alias>)

  /** `done` is a history variable: the commands processed so far. */
  datatype Sys = Sys(
    db: Registry,
    done: seq<Command>,
    lock: Lock,
    consumer: Consumer,
    snapshots: Snapshots,
    published: seq<Message>)

  ghost predicate Init(db0: Registry, s: Sys) {
    s == Sys(db0, [], Free, Idle, Asleep, [])
  }

  // ---- the consumer's steps ----

  ghost predicate Receive(s: Sys, s': Sys, cmd: Command) {
    s.consumer.Idle? && s' == s.(consumer := Waiting(cmd))
  }

  ghost predicate ConsumerLocks(s: Sys, s': Sys) {
    s.consumer.Waiting? && s.lock.Free? && s' == s.(lock := HeldByConsumer, consumer := Applying(s.consumer.cmd))
  }

  /** The command's transaction commits, is refused, or fails with another exception. */
  ghost predicate ConsumerApplies(env: Env, s: Sys, s': Sys)
    requires ValidEnv(env)
  {
    && s.consumer.Applying?
    && var r := Step(env, s.db, s.consumer.cmd);
       s' == s.(db := r.db, done := s.done + [s.consumer.cmd],
                consumer := if r.verdict.Applied? then Publishing(r.verdict.forest) else Leaving)
  }

  ghost predicate ConsumerPublishes(s: Sys, s': Sys) {
    && s.consumer.Publishing?
    && s' == s.(published := s.published + [Change(|s.done|, s.consumer.forest)], consumer := Leaving)
  }

  ghost predicate ConsumerLeaves(s: Sys, s': Sys) {
    s.consumer.Leaving? && s' == s.(lock := Free, consumer := Idle)
  }

  // ---- the snapshot thread's steps ----

  /** The roots are read outside the lock. */
  ghost predicate SnapshotsWake(env: Env, s: Sys, s': Sys)
    requires ValidEnv(env)
  {
    s.snapshots.Asleep? && s' == s.(snapshots := Looping(ForestRoots(env, s.db.nodes)))
  }

  ghost predicate SnapshotsLock(s: Sys, s': Sys) {
    && s.snapshots.Looping? && s.snapshots.roots != [] && s.lock.Free?
    && s' == s.(lock := HeldBySnapshots, snapshots := Reading(s.snapshots.roots[0], s.snapshots.roots[1..]))
  }

  /** A read that raises ends the round; leaving the lock's block releases it. */
  ghost predicate SnapshotsRead(env: Env, s: Sys, s': Sys)
    requires ValidEnv(env)
  {
    && s.snapshots.Reading?
    && var f := GetForest(env, s.db, [s.snapshots.root]);
       if f.Some? then s' == s.(snapshots := Sending(s.snapshots.root, |s.done|, f.value, s.snapshots.rest))
       else s' == s.(lock := Free, snapshots := Asleep)
  }

  ghost predicate SnapshotsSend(s: Sys, s': Sys) {
    && s.snapshots.Sending?
    && s' == s.(published := s.published + [Snapshot(s.snapshots.version, s.snapshots.root, s.snapshots.forest)],
                snapshots := Unlocking(s.snapshots.rest))
  }

  ghost predicate SnapshotsUnlock(s: Sys, s': Sys) {
    s.snapshots.Unlocking? && s' == s.(lock := Free, snapshots := Looping(s.snapshots.rest))
  }

  ghost predicate SnapshotsSleep(s: Sys, s': Sys) {
    s.snapshots.Looping? && s.snapshots.roots == [] && s' == s.(snapshots := Asleep)
  }

  ghost predicate ConsumerNext(env: Env, s: Sys, s': Sys)
    requires ValidEnv(env)
  {
    || (exists cmd :: Receive(s, s', cmd)) || ConsumerLocks(s, s') || ConsumerApplies(env, s, s')
    || ConsumerPublishes(s, s') || ConsumerLeaves(s, s')
  }

  ghost predicate SnapshotsNext(env: Env, s: Sys, s': Sys)
    requires ValidEnv(env)
  {
    || SnapshotsWake(env, s, s') || SnapshotsLock(s, s') || SnapshotsRead(env, s, s')
    || SnapshotsSend(s, s') || SnapshotsUnlock(s, s') || SnapshotsSleep(s, s')
  }

  ghost predicate Next(env: Env, s: Sys, s': Sys)
    requires ValidEnv(env)
  {
    ConsumerNext(env, s, s') || SnapshotsNext(env, s, s')
  }

  /** Any interleaving of the two threads. */
  ghost predicate Behaviour(env: Env, db0: Registry, trace: seq<Sys>)
    requires ValidEnv(env)
  {
    && trace != [] && Init(db0, trace[0])
    && forall k :: 0 <= k < |trace| - 1 ==> Next(env, trace[k], trace[k + 1])
  }

  // ---- what the processed commands emitted ----

  /** The forests emitted by a run: one for each applied command, in order. */
  ghost function Emissions(env: Env, db: Registry, cmds: seq<Command>): seq<Forest>
    requires ValidEnv(env)
    decreases |cmds|
  {
    if cmds == [] then []
    else
      var last := |cmds| - 1;
      var r := Step(env, Run(env, db, cmds[..last]), cmds[last]);
      Emissions(env, db, cmds[..last]) + if r.verdict.Applied? then [r.verdict.forest] else []
  }

  function Changes(messages: seq<Message>): nat {
    if messages == [] then 0
    else Changes(messages[..|messages| - 1]) + if messages[|messages| - 1].Change? then 1 else 0
  }

  /** One message, where it stands in the queue: a change broadcast is the next emission, made by
      the command it counts last; a snapshot is a read of the registry after `version` commands, all
      of whose emissions, and no others, precede it. */
  ghost predicate InPlace(env: Env, db0: Registry, done: seq<Command>, before: seq<Message>, m: Message)
    requires ValidEnv(env)
  {
    && m.version <= |done|
    && match m
       case Change(v, f) =>
         && v > 0 && Changes(before) == |Emissions(env, db0, done[..v - 1])|
         && Step(env, Run(env, db0, done[..v - 1]), done[v - 1]).verdict == Applied(f)
       case Snapshot(v, root, f) =>
         && Changes(before) == |Emissions(env, db0, done[..v])|
         && GetForest(env, Run(env, db0, done[..v]), [root]) == Some(f)
  }

  ghost predicate PublishedInOrder(env: Env, db0: Registry, done: seq<Command>, published: seq<Message>)
    requires ValidEnv(env)
  {
    forall k :: 0 <= k < |published| ==> InPlace(env, db0, done, published[..k], published[k])
  }

  ghost predicate VersionsAscend(published: seq<Message>) {
    forall k, l :: 0 <= k < l < |published| ==> published[k].version <= published[l].version
  }

  // ---- a follower ----

  /** Upserting a forest's nodes by id. */
  function Upsert(known: map<Id, GNode>, rows: seq<GNode>): map<Id, GNode>
    decreases |rows|
  {
    if rows == [] then known else Upsert(known[rows[0].id := rows[0]], rows[1..])
  }

  function Followed(published: seq<Message>): map<Id, GNode> {
    if published == [] then map[]
    else
      var last := |published| - 1;
      Upsert(Followed(published[..last]), published[last].forest.nodes)
  }

  lemma {:induction false} UpsertIs(known: map<Id, GNode>, rows: seq<GNode>)
    ensures forall i :: i in Upsert(known, rows) <==> i in known || exists g :: g in rows && g.id == i
    ensures forall i :: i in Upsert(known, rows) ==>
              (i in known && Upsert(known, rows)[i] == known[i] && forall g :: g in rows ==> g.id != i)
              || (Upsert(known, rows)[i] in rows && Upsert(known, rows)[i].id == i)
    decreases |rows|
  {
    if rows != [] {
      UpsertIs(known[rows[0].id := rows[0]], rows[1..]);
      assert forall g :: g in rows <==> g == rows[0] || g in rows[1..];
    }
  }

  /** Everything the follower knows is current, but for rows the forest `pending` will bring. */
  ghost predicate UpToDate(known: map<Id, GNode>, db: Registry, pending: seq<GNode>) {
    && (forall i :: i in known ==> i in db.nodes && (known[i] == db.nodes[i] || db.nodes[i] in pending))
    && (forall g :: g in pending ==> g.id in db.nodes && db.nodes[g.id] == g)
  }

  /** Every row added since the start is known, or about to be. */
  ghost predicate Covered(known: map<Id, GNode>, db0: Registry, db: Registry, pending: seq<GNode>) {
    forall i :: i in db.nodes ==> i in db0.nodes || i in known || db.nodes[i] in pending
  }

  lemma UpsertCatchesUp(known: map<Id, GNode>, db0: Registry, db: Registry, pending: seq<GNode>)
    requires KeyedById(db.nodes) && UpToDate(known, db, pending) && Covered(known, db0, db, pending)
    ensures UpToDate(Upsert(known, pending), db, []) && Covered(Upsert(known, pending), db0, db, [])
  {
    UpsertIs(known, pending);
  }

  // ---- the invariant ----

  ghost predicate Mutex(s: Sys) {
    && (s.lock.HeldByConsumer? <==> s.consumer.Applying? || s.consumer.Publishing? || s.consumer.Leaving?)
    && (s.lock.HeldBySnapshots? <==> s.snapshots.Reading? || s.snapshots.Sending? || s.snapshots.Unlocking?)
  }

  /** The rows the consumer is about to publish. */
  function Pending(s: Sys): seq<GNode> {
    if s.consumer.Publishing? then s.consumer.forest.nodes else []
  }

  ghost predicate Grounded(env: Env, db0: Registry, s: Sys)
    requires ValidEnv(env)
  {
    Sound(s.db) && s.db == Run(env, db0, s.done) && Mutex(s)
  }

  /** The queue is in order, and what is about to join it will be in place. */
  ghost predicate Queued(env: Env, db0: Registry, s: Sys)
    requires ValidEnv(env)
  {
    && PublishedInOrder(env, db0, s.done, s.published) && VersionsAscend(s.published)
    && (!s.consumer.Publishing? ==> Changes(s.published) == |Emissions(env, db0, s.done)|)
    && (s.consumer.Publishing? ==>
          && s.done != []
          && InPlace(env, db0, s.done, s.published, Change(|s.done|, s.consumer.forest)))
    && (s.snapshots.Sending? ==>
          && s.snapshots.version == |s.done|
          && GetForest(env, s.db, [s.snapshots.root]) == Some(s.snapshots.forest))
  }

  ghost predicate FollowersKnow(db0: Registry, s: Sys) {
    UpToDate(Followed(s.published), s.db, Pending(s)) && Covered(Followed(s.published), db0, s.db, Pending(s))
  }

  ghost predicate Inv(env: Env, db0: Registry, s: Sys)
    requires ValidEnv(env)
  {
    Grounded(env, db0, s) && Queued(env, db0, s) && FollowersKnow(db0, s)
  }

  lemma EmissionsSnoc(env: Env, db: Registry, cmds: seq<Command>, cmd: Command)
    requires ValidEnv(env)
    ensures var r := Step(env, Run(env, db, cmds), cmd);
            && Run(env, db, cmds + [cmd]) == r.db
            && Emissions(env, db, cmds + [cmd]) == Emissions(env, db, cmds) + if r.verdict.Applied? then [r.verdict.forest] else []
  {
    assert (cmds + [cmd])[..|cmds|] == cmds;
    RunAppends(env, db, cmds, [cmd]);
    RunOne(env, Run(env, db, cmds), cmd);
  }

  lemma InPlaceKept(env: Env, db0: Registry, done: seq<Command>, cmd: Command, before: seq<Message>, m: Message)
    requires ValidEnv(env) && InPlace(env, db0, done, before, m)
    ensures InPlace(env, db0, done + [cmd], before, m)
  {
    assert (done + [cmd])[..m.version] == done[..m.version];
    if m.Change? {
      assert (done + [cmd])[..m.version - 1] == done[..m.version - 1];
    }
  }

  lemma PublishedKept(env: Env, db0: Registry, done: seq<Command>, cmd: Command, published: seq<Message>)
    requires ValidEnv(env) && PublishedInOrder(env, db0, done, published)
    ensures PublishedInOrder(env, db0, done + [cmd], published)
  {
    forall k | 0 <= k < |published| ensures InPlace(env, db0, done + [cmd], published[..k], published[k]) {
      InPlaceKept(env, db0, done, cmd, published[..k], published[k]);
    }
  }

  /** Publishing a message that is in place and no older than the newest. */
  lemma PublishOne(env: Env, db0: Registry, done: seq<Command>, published: seq<Message>, m: Message)
    requires ValidEnv(env) && PublishedInOrder(env, db0, done, published) && VersionsAscend(published)
    requires InPlace(env, db0, done, published, m) && m.version == |done|
    ensures PublishedInOrder(env, db0, done, published + [m]) && VersionsAscend(published + [m])
    ensures Changes(published + [m]) == Changes(published) + if m.Change? then 1 else 0
    ensures Followed(published + [m]) == Upsert(Followed(published), m.forest.nodes)
  {
    var p := published + [m];
    assert p[..|published|] == published;
    forall k | 0 <= k < |p| ensures InPlace(env, db0, done, p[..k], p[k]) {
      if k < |published| { assert p[..k] == published[..k]; }
    }
    forall k, l | 0 <= k < l < |p| ensures p[k].version <= p[l].version {
      assert InPlace(env, db0, done, published[..k], published[k]);
    }
  }

  /** An applied command's forest is in place to be published next. */
  lemma AppliedInPlace(env: Env, db0: Registry, done: seq<Command>, cmd: Command, published: seq<Message>, f: Forest)
    requires ValidEnv(env) && Changes(published) == |Emissions(env, db0, done)|
    requires Step(env, Run(env, db0, done), cmd).verdict == Applied(f)
    ensures InPlace(env, db0, done + [cmd], published, Change(|done| + 1, f))
  {
    assert (done + [cmd])[..|done|] == done;
  }

  lemma RefusedEmitsNothing(env: Env, db0: Registry, done: seq<Command>, cmd: Command)
    requires ValidEnv(env) && !Step(env, Run(env, db0, done), cmd).verdict.Applied?
    ensures |Emissions(env, db0, done + [cmd])| == |Emissions(env, db0, done)|
  {
    EmissionsSnoc(env, db0, done, cmd);
  }

  lemma AppliesGrounded(env: Env, db0: Registry, s: Sys, s': Sys)
    requires ValidEnv(env) && Grounded(env, db0, s) && ConsumerApplies(env, s, s')
    ensures Grounded(env, db0, s')
  {
    StepKeepsSound(env, s.db, s.consumer.cmd);
    EmissionsSnoc(env, db0, s.done, s.consumer.cmd);
  }

  lemma AppliesQueued(env: Env, db0: Registry, s: Sys, s': Sys)
    requires ValidEnv(env) && Grounded(env, db0, s) && Queued(env, db0, s) && ConsumerApplies(env, s, s')
    ensures Queued(env, db0, s')
  {
    var cmd, v := s.consumer.cmd, Step(env, s.db, s.consumer.cmd).verdict;
    PublishedKept(env, db0, s.done, cmd, s.published);
    if v.Applied? {
      AppliedInPlace(env, db0, s.done, cmd, s.published, v.forest);
    } else {
      RefusedEmitsNothing(env, db0, s.done, cmd);
    }
  }

  lemma AppliesKnown(env: Env, db0: Registry, s: Sys, s': Sys)
    requires ValidEnv(env) && Sound(s.db) && FollowersKnow(db0, s) && ConsumerApplies(env, s, s')
    ensures FollowersKnow(db0, s')
  {
    StepKeepsSound(env, s.db, s.consumer.cmd);
    AppliesUpToDate(s.db, s'.db, Step(env, s.db, s.consumer.cmd).verdict, Followed(s.published), db0);
  }

  lemma AppliesKeepsInv(env: Env, db0: Registry, s: Sys, s': Sys)
    requires ValidEnv(env) && Inv(env, db0, s) && ConsumerApplies(env, s, s')
    ensures Inv(env, db0, s')
  {
    AppliesGrounded(env, db0, s, s');
    AppliesQueued(env, db0, s, s');
    AppliesKnown(env, db0, s, s');
  }

  lemma AppliesUpToDate(db: Registry, db': Registry, verdict: Verdict, known: map<Id, GNode>, db0: Registry)
    requires UpToDate(known, db, []) && Covered(known, db0, db, []) && Extends(db, db')
    requires if verdict.Applied? then Shows(verdict.forest, db, db') else db' == db
    ensures var pending := if verdict.Applied? then verdict.forest.nodes else [];
            UpToDate(known, db', pending) && Covered(known, db0, db', pending)
  {}

  /** A change broadcast that is in place at the end of the queue is the last emission. */
  lemma LastEmission(env: Env, db0: Registry, done: seq<Command>, published: seq<Message>, f: Forest)
    requires ValidEnv(env) && done != [] && InPlace(env, db0, done, published, Change(|done|, f))
    ensures Changes(published) + 1 == |Emissions(env, db0, done)|
  {
    var front := done[..|done| - 1];
    assert done == front + [done[|done| - 1]];
    EmissionsSnoc(env, db0, front, done[|done| - 1]);
  }

  /** Publishing brings a follower up to date with the pending rows. */
  lemma PublishedKnown(db0: Registry, s: Sys, s': Sys, m: Message)
    requires KeyedById(s.db.nodes) && s'.db == s.db && Pending(s') == []
    requires Followed(s'.published) == Upsert(Followed(s.published), m.forest.nodes)
    requires UpToDate(Followed(s.published), s.db, m.forest.nodes) && Covered(Followed(s.published), db0, s.db, m.forest.nodes)
    ensures FollowersKnow(db0, s')
  {
    UpsertCatchesUp(Followed(s.published), db0, s.db, m.forest.nodes);
  }

  lemma PublishesKeepsInv(env: Env, db0: Registry, s: Sys, s': Sys)
    requires ValidEnv(env) && Inv(env, db0, s) && ConsumerPublishes(s, s')
    ensures Inv(env, db0, s')
  {
    var m := Change(|s.done|, s.consumer.forest);
    PublishOne(env, db0, s.done, s.published, m);
    PublishedKnown(db0, s, s', m);
    LastEmission(env, db0, s.done, s.published, s.consumer.forest);
  }

  lemma SendKeepsInv(env: Env, db0: Registry, s: Sys, s': Sys)
    requires ValidEnv(env) && Inv(env, db0, s) && SnapshotsSend(s, s')
    ensures Inv(env, db0, s')
  {
    assert s.done[..|s.done|] == s.done;
    var m := Snapshot(s.snapshots.version, s.snapshots.root, s.snapshots.forest);
    PublishOne(env, db0, s.done, s.published, m);
    ForestShows(env, s.db, [s.snapshots.root]);
    PublishedKnown(db0, s, s', m);
  }

  /** A step that only takes or leaves the lock, or moves a thread along. */
  lemma QuietKeepsInv(env: Env, db0: Registry, s: Sys, s': Sys)
    requires ValidEnv(env) && Inv(env, db0, s)
    requires s' == s.(lock := s'.lock, consumer := s'.consumer, snapshots := s'.snapshots) && Mutex(s')
    requires s'.consumer == s.consumer || (!s.consumer.Publishing? && !s'.consumer.Publishing?)
    requires s'.snapshots.Sending? ==>
               s'.snapshots == s.snapshots
               || (s'.snapshots.version == |s.done| && GetForest(env, s.db, [s'.snapshots.root]) == Some(s'.snapshots.forest))
    ensures Inv(env, db0, s')
  {}

  lemma ConsumerKeepsInv(env: Env, db0: Registry, s: Sys, s': Sys)
    requires ValidEnv(env) && Inv(env, db0, s) && ConsumerNext(env, s, s')
    ensures Inv(env, db0, s')
  {
    if ConsumerApplies(env, s, s') {
      AppliesKeepsInv(env, db0, s, s');
    } else if ConsumerPublishes(s, s') {
      PublishesKeepsInv(env, db0, s, s');
    } else {
      QuietKeepsInv(env, db0, s, s');
    }
  }

  lemma SnapshotsMoveAlong(env: Env, s: Sys, s': Sys)
    requires ValidEnv(env) && Mutex(s) && SnapshotsNext(env, s, s') && !SnapshotsSend(s, s')
    ensures s' == s.(lock := s'.lock, snapshots := s'.snapshots) && Mutex(s')
    ensures s'.snapshots.Sending? ==>
              s'.snapshots.version == |s.done| && GetForest(env, s.db, [s'.snapshots.root]) == Some(s'.snapshots.forest)
  {}

  lemma SnapshotsKeepInv(env: Env, db0: Registry, s: Sys, s': Sys)
    requires ValidEnv(env) && Inv(env, db0, s) && SnapshotsNext(env, s, s')
    ensures Inv(env, db0, s')
  {
    if SnapshotsSend(s, s') {
      SendKeepsInv(env, db0, s, s');
    } else {
      SnapshotsMoveAlong(env, s, s');
      QuietKeepsInv(env, db0, s, s');
    }
  }

  lemma NextKeepsInv(env: Env, db0: Registry, s: Sys, s': Sys)
    requires ValidEnv(env) && Inv(env, db0, s) && Next(env, s, s')
    ensures Inv(env, db0, s')
  {
    if ConsumerNext(env, s, s') {
      ConsumerKeepsInv(env, db0, s, s');
    } else {
      SnapshotsKeepInv(env, db0, s, s');
    }
  }

  lemma InitInv(env: Env, db0: Registry, s: Sys)
    requires ValidEnv(env) && Sound(db0) && Init(db0, s)
    ensures Inv(env, db0, s)
  {}

  lemma {:induction false} BehaviourInv(env: Env, db0: Registry, trace: seq<Sys>, k: nat)
    requires ValidEnv(env) && Sound(db0) && Behaviour(env, db0, trace) && k < |trace|
    ensures Inv(env, db0, trace[k])
  {
    if k == 0 {
      InitInv(env, db0, trace[0]);
    } else {
      BehaviourInv(env, db0, trace, k - 1);
      NextKeepsInv(env, db0, trace[k - 1], trace[k]);
    }
  }

  /** Publish-order safety, over every interleaving: forests are published in the order of the
      states they show, change broadcasts in apply order, and no snapshot read before a write is
      published after that write's change broadcast. */
  lemma PublishOrderSafe(env: Env, db0: Registry, trace: seq<Sys>, k: nat)
    requires ValidEnv(env) && Sound(db0) && Behaviour(env, db0, trace) && k < |trace|
    ensures VersionsAscend(trace[k].published)
    ensures PublishedInOrder(env, db0, trace[k].done, trace[k].published)
  {
    BehaviourInv(env, db0, trace, k);
  }

  lemma KnownAgrees(db0: Registry, s: Sys)
    requires FollowersKnow(db0, s) && Pending(s) == []
    ensures var known := Followed(s.published);
            && (forall i :: i in known ==> i in s.db.nodes && known[i] == s.db.nodes[i])
            && (forall i :: i in s.db.nodes && i !in db0.nodes ==> i in known)
            && (db0.nodes == map[] ==> known == s.db.nodes)
  {}

  /** Whenever the lock is free, a follower that upserts nodes by id in publish order agrees with
      the registry on every id ever published, and knows every row added since the start. */
  lemma FollowerAgrees(env: Env, db0: Registry, trace: seq<Sys>, k: nat)
    requires ValidEnv(env) && Sound(db0) && Behaviour(env, db0, trace) && k < |trace| && trace[k].lock.Free?
    ensures var known, db := Followed(trace[k].published), trace[k].db;
            && (forall i :: i in known ==> i in db.nodes && known[i] == db.nodes[i])
            && (forall i :: i in db.nodes && i !in db0.nodes ==> i in known)
            && (db0.nodes == map[] ==> known == db.nodes)
  {
    BehaviourInv(env, db0, trace, k);
    KnownAgrees(db0, trace[k]);
  }

  // ---- what snapshots are of ----

  /** Every snapshot is of a forest root. */
  ghost predicate OfRoots(published: seq<Message>) {
    forall k :: 0 <= k < |published| && published[k].Snapshot? ==> IsForestRoot(published[k].root)
  }

  /** The roots the snapshot thread still has before it. */
  function Ahead(t: Snapshots): seq<Alias> {
    match t
    case Asleep => []
    case Looping(roots) => roots
    case Reading(root, rest) => [root] + rest
    case Sending(root, _, _, rest) => [root] + rest
    case Unlocking(rest) => rest
  }

  ghost predicate RootsInv(s: Sys) {
    OfRoots(s.published) && forall r :: r in Ahead(s.snapshots) ==> IsForestRoot(r)
  }

  lemma WakeKeepsRoots(env: Env, s: Sys, s': Sys)
    requires ValidEnv(env) && Sound(s.db) && RootsInv(s) && SnapshotsWake(env, s, s')
    ensures RootsInv(s')
  {
    ForestRootsAre(env, s.db);
  }

  lemma NextKeepsRoots(env: Env, s: Sys, s': Sys)
    requires ValidEnv(env) && Sound(s.db) && RootsInv(s) && Next(env, s, s')
    ensures RootsInv(s')
  {
    if SnapshotsWake(env, s, s') {
      WakeKeepsRoots(env, s, s');
    } else {
      assert forall r :: r in Ahead(s'.snapshots) ==> r in Ahead(s.snapshots);
      assert s.snapshots.Sending? ==> s.snapshots.root in Ahead(s.snapshots);
    }
  }

  lemma InitRoots(db0: Registry, s: Sys)
    requires Init(db0, s)
    ensures RootsInv(s)
  {}

  lemma {:induction false} BehaviourOfRoots(env: Env, db0: Registry, trace: seq<Sys>, k: nat)
    requires ValidEnv(env) && Sound(db0) && Behaviour(env, db0, trace) && k < |trace|
    ensures RootsInv(trace[k])
  {
    if k == 0 {
      InitRoots(db0, trace[0]);
    } else {
      BehaviourOfRoots(env, db0, trace, k - 1);
      BehaviourInv(env, db0, trace, k - 1);
      NextKeepsRoots(env, trace[k - 1], trace[k]);
    }
  }
}
