/** The registry as a bus actor: commands in, forest broadcasts and verdicts out. */
module Rabbit {
  import opened Prelude
  import opened Aliases
  import opened Paths
  import opened GNodes
  import opened Tables
  import opened Transactions
  import opened Invariants
  import opened ForestReads
  import opened Rewriting
  import opened Reparents
  import opened Creates
  import opened Topology
  import opened Protocol
  import opened Authority

  datatype Send =
    | Radio(channel: Alias, forest: Forest)
    | Ack(cmd: Command)
    | Nack(cmd: Command)

  /** The channel the audience of a command is bound to: the parent of the new node, or a new forest
      root itself. */
  function ChannelOf(cmd: Command): Alias {
    if cmd.CreateCmd? && IsForestRoot(cmd.newNode.alias) then cmd.newNode.alias
    else ParentAlias(cmd.newNode.alias)
  }

  /** Everything sent for one command. A verdict goes to a sender of a known class only; an
      exception that is not a refusal sends nothing. */
  function Answer(cmd: Command, verdict: Verdict, senderKnown: bool): seq<Send> {
    match verdict
    case Applied(f) => [Radio(ChannelOf(cmd), f)] + if senderKnown then [Ack(cmd)] else []
    case Refused => if senderKnown then [Nack(cmd)] else []
    case Aborted => []
  }

  // ---- what goes out for a command ----

  /** The words of the channel a command's forest goes out on: all of a new root's alias, all but the
      last of any other new node's. */
  function ChannelWords(cmd: Command): Path {
    var words := Split(cmd.newNode.alias);
    if |words| <= 1 || (cmd.CreateCmd? && |words| == 2) then words else words[..|words| - 1]
  }

  lemma ChannelHasWords(cmd: Command)
    ensures Split(ChannelOf(cmd)) == ChannelWords(cmd)
  {
    var a := cmd.newNode.alias;
    ParentIsAllButLast(a);
    DottedCount(a);
    SplitLength(a);
  }

  /** What goes out for a command: an applied one's forest on its channel and then, to a known sender,
      the acknowledgement; a refusal only to a known sender; nothing for any other failure. */
  ghost predicate GoesOut(cmd: Command, verdict: Verdict, senderKnown: bool, sends: seq<Send>) {
    match verdict
    case Applied(forest) =>
      && |sends| == (if senderKnown then 2 else 1)
      && sends[0].Radio? && sends[0].forest == forest && Split(sends[0].channel) == ChannelWords(cmd)
      && (senderKnown ==> sends[1] == Ack(cmd))
    case Refused => sends == if senderKnown then [Nack(cmd)] else []
    case Aborted => sends == []
  }

  lemma AnswerGoesOut(cmd: Command, verdict: Verdict, senderKnown: bool)
    ensures GoesOut(cmd, verdict, senderKnown, Answer(cmd, verdict, senderKnown))
    ensures verdict.Applied? ==> Answer(cmd, verdict, senderKnown)[0] == Radio(ChannelOf(cmd), verdict.forest)
  {
    ChannelHasWords(cmd);
  }

  /** Some row held the alias `channel` before, and is as it was. */
  ghost predicate Stayed(nodes: map<Id, GNode>, after: map<Id, GNode>, channel: Alias) {
    exists p :: p in nodes && nodes[p].alias == channel && p in after && after[p] == nodes[p]
  }

  lemma AddedStays(nodes: map<Id, GNode>, n: GNode, a: Alias)
    requires n.id !in nodes && exists p :: p in nodes && nodes[p].alias == a
    ensures Stayed(nodes, Added(nodes, n), a)
  {
    var p :| p in nodes && nodes[p].alias == a;
    assert Added(nodes, n)[p] == nodes[p];
  }

  lemma CreatedUnder(env: Env, db: Registry, cmd: Command)
    requires ValidEnv(env) && Sound(db) && ValidCommand(cmd) && cmd.CreateCmd? && cmd !in db.log
    requires Step(env, db, cmd).verdict.Applied? && !IsForestRoot(cmd.newNode.alias)
    ensures Stayed(db.nodes, Step(env, db, cmd).db.nodes, ParentAlias(cmd.newNode.alias))
  {
    NewCreateVerdict(env, db, cmd);
    PlantedUnderLiveParent(env, db, cmd);
    AddedStays(db.nodes, cmd.newNode, ParentAlias(cmd.newNode.alias));
  }

  /** The forest of a new node goes out on the node's own alias if it is a root, and else on all but the
      last of its words, which is the alias of a row that was there before and has not changed. */
  lemma CreateGoesOut(env: Env, db: Registry, cmd: Command, senderKnown: bool)
    requires ValidEnv(env) && Sound(db) && ValidCommand(cmd) && cmd.CreateCmd? && cmd !in db.log
    requires Step(env, db, cmd).verdict.Applied?
    ensures var r, n := Step(env, db, cmd), cmd.newNode;
            var sends := Answer(cmd, r.verdict, senderKnown);
            && sends != [] && sends[0].Radio? && sends[0].forest == Forest([n.alias], [n], [])
            && (|Split(n.alias)| == 2 ==> sends[0].channel == n.alias)
            && (|Split(n.alias)| != 2 ==>
                  && Split(n.alias) == Split(sends[0].channel) + [LastWord(n.alias)]
                  && Stayed(db.nodes, r.db.nodes, sends[0].channel))
  {
    NewCreateVerdict(env, db, cmd);
    AnswerGoesOut(cmd, Step(env, db, cmd).verdict, senderKnown);
    ParentIsAllButLast(cmd.newNode.alias);
    SplitOfParent(cmd.newNode.alias);
    if !IsForestRoot(cmd.newNode.alias) { CreatedUnder(env, db, cmd); }
  }

  /** A channel short of two paths, and as far as they lead together. */
  ghost predicate Joins(channel: Alias, before: Alias, after: Alias) {
    && Split(channel) < Split(before) && Split(channel) < Split(after)
    && LongestCommonPrefix(Split(channel), Split(before), Split(after))
  }

  lemma ParentJoins(env: Env, db: Registry, cmd: Command, i: Id)
    requires AppliedReparent(env, db, cmd) && ParentComplete(db.nodes) && i in MovedIds(db.nodes, cmd.movedChildIds)
    ensures var after := Step(env, db, cmd).db.nodes;
            i in after && Joins(Parent(cmd), db.nodes[i].alias, after[i].alias) && Stayed(db.nodes, after, Parent(cmd))
  {
    ChannelIsStableCommonPrefix(env, db, cmd, i);
    StepKeepsSound(env, db, cmd);
    ParentStayed(db.nodes, Step(env, db, cmd).db.nodes, Parent(cmd));
  }

  /** The forest of a well-formed re-parent goes out on the longest path that leads both to where each
      moved row was and to where it is now, short of either: all but the last of N's words, and the
      alias of a row that has not changed. */
  lemma ReparentGoesOut(env: Env, db: Registry, cmd: Command, senderKnown: bool, i: Id)
    requires AppliedReparent(env, db, cmd) && ParentComplete(db.nodes) && i in MovedIds(db.nodes, cmd.movedChildIds)
    ensures var r := Step(env, db, cmd);
            var sends := Answer(cmd, r.verdict, senderKnown);
            && sends != [] && sends[0].Radio? && sends[0].forest == r.verdict.forest && i in r.db.nodes
            && Joins(sends[0].channel, db.nodes[i].alias, r.db.nodes[i].alias)
            && Split(cmd.newNode.alias) == Split(sends[0].channel) + [LastWord(cmd.newNode.alias)]
            && Stayed(db.nodes, r.db.nodes, sends[0].channel)
  {
    AnswerGoesOut(cmd, Step(env, db, cmd).verdict, senderKnown);
    ParentJoins(env, db, cmd, i);
    NotARoot(env, db, cmd);
    SplitOfParent(cmd.newNode.alias);
  }

  lemma NotARoot(env: Env, db: Registry, cmd: Command)
    requires AppliedReparent(env, db, cmd)
    ensures !IsForestRoot(cmd.newNode.alias) && Dotted(cmd.newNode.alias)
  {
    ReparentApplied(env, db, cmd);
  }

  lemma ParentStayed(nodes: map<Id, GNode>, after: map<Id, GNode>, a: Alias)
    requires KeyedById(nodes) && KeyedById(after) && RowAt(nodes, a).Some? && RowAt(after, a) == RowAt(nodes, a)
    ensures Stayed(nodes, after, a)
  {
    var p :| p in nodes && nodes[p] == RowAt(nodes, a).value && nodes[p].alias == a;
    var q :| q in after && after[q] == RowAt(after, a).value;
  }

  function SnapshotSends(env: Env, db: Registry, roots: seq<Alias>): seq<Send>
    requires ValidEnv(env)
  {
    if roots == [] then []
    else
      match GetForest(env, db, [roots[0]])
      case None => []
      case Some(f) => [Radio(roots[0], f)] + SnapshotSends(env, db, roots[1..])
  }

  class GnrRabbit {
    const authority: PostgresAuthority
    var locked: bool
    var outbox: seq<Send>

    ghost predicate Valid()
      reads this, authority
    {
      authority.Valid() && !locked
    }

    constructor (authority: PostgresAuthority)
      requires authority.Valid()
      ensures Valid() && this.authority == authority && outbox == []
    {
      this.authority := authority;
      locked, outbox := false, [];
    }

    /** One message from the bus. The lock is free again however it ends. */
    method ProcessMessage(cmd: Command, senderKnown: bool) returns (escaped: bool)
      requires Valid() && ValidCommand(cmd)
      modifies this, authority
      ensures Valid()
      ensures var r := Step(authority.env, old(authority.db), cmd);
              authority.db == r.db && outbox == old(outbox) + Answer(cmd, r.verdict, senderKnown) && (escaped <==> r.verdict.Aborted?)
      ensures |old(outbox)| <= |outbox|
              && GoesOut(cmd, Step(authority.env, old(authority.db), cmd).verdict, senderKnown, outbox[|old(outbox)|..])
    {
      locked := true;
      ghost var verdict := Step(authority.env, authority.db, cmd).verdict;
      AnswerGoesOut(cmd, verdict, senderKnown);
      escaped := ApplyAndBroadcast(cmd, senderKnown);
      locked := false;
      assert outbox[|old(outbox)|..] == Answer(cmd, verdict, senderKnown);
    }

    /** Applies the command and queues its broadcast and verdict, in that order. */
    method ApplyAndBroadcast(cmd: Command, senderKnown: bool) returns (escaped: bool)
      requires authority.Valid() && locked && ValidCommand(cmd)
      modifies this`outbox, authority
      ensures authority.Valid()
      ensures var r := Step(authority.env, old(authority.db), cmd);
              authority.db == r.db && outbox == old(outbox) + Answer(cmd, r.verdict, senderKnown) && (escaped <==> r.verdict.Aborted?)
    {
      var verdict := authority.Apply(cmd);
      match verdict {
        case Applied(forest) =>
          var channel := if cmd.CreateCmd? && IsForestRoot(cmd.newNode.alias) then cmd.newNode.alias
                         else ParentAlias(cmd.newNode.alias);
          outbox := outbox + [Radio(channel, forest)];
          if senderKnown { outbox := outbox + [Ack(cmd)]; }
          escaped := false;
        case Refused =>
          if senderKnown { outbox := outbox + [Nack(cmd)]; }
          escaped := false;
        case Aborted =>
          escaped := true;
      }
    }

    /** Reads one forest and queues it, with the lock held. */
    method BroadcastSnapshot(root: Alias) returns (escaped: bool)
      requires authority.Valid() && locked && LeftRightDot(root)
      modifies this`outbox
      ensures var forest := GetForest(authority.env, authority.db, [root]);
              && (escaped <==> forest.None?)
              && outbox == old(outbox) + if forest.Some? then [Radio(root, forest.value)] else []
    {
      var forest := authority.GetForest([root]);
      if forest.Some? { outbox := outbox + [Radio(root, forest.value)]; }
      escaped := forest.None?;
    }

    /** One snapshot per forest root, each under the lock, which is free again however it ends. The
        roots are read once, without it. */
    method BroadcastAllSnapshots()
      requires Valid()
      modifies this
      ensures Valid()
      ensures outbox == old(outbox) + SnapshotSends(authority.env, authority.db, ForestRoots(authority.env, authority.db.nodes))
    {
      var roots := authority.ForestRoots();
      ghost var env, db := authority.env, authority.db;
      RootsWellNamed(env, db);
      ghost var all := outbox + SnapshotSends(env, db, roots);
      SendsAtEnds(env, db, roots);
      for k := 0 to |roots|
        invariant Valid() && all == outbox + SnapshotSends(env, db, roots[k..])
      {
        SnapshotTurn(env, db, roots, k, outbox);
        locked := true;
        var escaped := BroadcastSnapshot(roots[k]);
        locked := false;
        if escaped { return; }
      }
    }
  }

  lemma ReadSucceeds(env: Env, db: Registry, root: Alias)
    requires ValidEnv(env) && Sound(db)
    ensures GetForest(env, db, [root]).Some?
  {
    GetForestLists(env, db, [root]);
  }

  /** On a sound registry no read fails: one forest a root, the one it reads, on the root itself. */
  lemma {:induction false} SnapshotSendsAre(env: Env, db: Registry, roots: seq<Alias>)
    requires ValidEnv(env) && Sound(db)
    ensures |SnapshotSends(env, db, roots)| == |roots|
    ensures forall k :: 0 <= k < |roots| ==>
              var sent := SnapshotSends(env, db, roots)[k];
              sent.Radio? && sent.channel == roots[k] && GetForest(env, db, [roots[k]]) == Some(sent.forest)
  {
    if roots != [] {
      ReadSucceeds(env, db, roots[0]);
      var first, rest := Radio(roots[0], GetForest(env, db, [roots[0]]).value), SnapshotSends(env, db, roots[1..]);
      assert SnapshotSends(env, db, roots) == [first] + rest;
      SnapshotSendsAre(env, db, roots[1..]);
    }
  }

  lemma SendsAtEnds(env: Env, db: Registry, roots: seq<Alias>)
    requires ValidEnv(env)
    ensures SnapshotSends(env, db, roots[0..]) == SnapshotSends(env, db, roots)
    ensures SnapshotSends(env, db, roots[|roots|..]) == []
  {
    assert roots[0..] == roots && roots[|roots|..] == [];
  }

  lemma SnapshotTurn(env: Env, db: Registry, roots: seq<Alias>, k: nat, sent: seq<Send>)
    requires ValidEnv(env) && k < |roots|
    ensures var forest := GetForest(env, db, [roots[k]]);
            sent + SnapshotSends(env, db, roots[k..])
            == if forest.None? then sent
               else (sent + [Radio(roots[k], forest.value)]) + SnapshotSends(env, db, roots[k + 1..])
  {
    assert roots[k..][0] == roots[k] && roots[k..][1..] == roots[k + 1..];
  }

  lemma RootsWellNamed(env: Env, db: Registry)
    requires ValidEnv(env) && Sound(db)
    ensures var roots := ForestRoots(env, db.nodes); forall k :: 0 <= k < |roots| ==> LeftRightDot(roots[k])
  {
    ForestRootsAre(env, db);
    assert forall k :: 0 <= k < |ForestRoots(env, db.nodes)| ==> ForestRoots(env, db.nodes)[k] in ForestRoots(env, db.nodes);
  }

  // ---- a snapshot round ----

  /** One round of snapshots as published messages. */
  function Round(env: Env, db: Registry, version: nat, roots: seq<Alias>): seq<Message>
    requires ValidEnv(env) && Constraints(db)
    requires forall r :: r in roots ==> GetForest(env, db, [r]).Some?
  {
    if roots == [] then []
    else
      var last := |roots| - 1;
      Round(env, db, version, roots[..last]) + [Snapshot(version, roots[last], GetForest(env, db, [roots[last]]).value)]
  }

  /** What a follower knows is current, and covers the rows requested so far. */
  ghost predicate Taught(known: map<Id, GNode>, nodes: map<Id, GNode>, roots: seq<Alias>) {
    && (forall i :: i in known ==> i in nodes && known[i] == nodes[i])
    && (forall i :: i in nodes && Requested(nodes[i].alias, roots) ==> i in known)
  }

  lemma ForestTeaches(env: Env, db: Registry, known: map<Id, GNode>, front: seq<Alias>, root: Alias)
    requires ValidEnv(env) && Sound(db) && Taught(known, db.nodes, front) && GetForest(env, db, [root]).Some?
    ensures Taught(Upsert(known, GetForest(env, db, [root]).value.nodes), db.nodes, front + [root])
  {
    GetForestLists(env, db, [root]);
    var rows := GetForest(env, db, [root]).value.nodes;
    UpsertIs(known, rows);
    forall i | i in db.nodes && Requested(db.nodes[i].alias, front + [root]) ensures i in Upsert(known, rows) {
      if !Requested(db.nodes[i].alias, front) {
        assert Requested(db.nodes[i].alias, [root]) by { assert root in [root]; }
        assert db.nodes[i] in rows;
      }
    }
  }

  lemma FollowedOneMore(published: seq<Message>, m: Message)
    ensures Followed(published + [m]) == Upsert(Followed(published), m.forest.nodes)
  {
    assert (published + [m])[..|published|] == published;
  }

  lemma {:induction false} RoundTeaches(env: Env, db: Registry, version: nat, roots: seq<Alias>)
    requires ValidEnv(env) && Sound(db)
    requires forall r :: r in roots ==> GetForest(env, db, [r]).Some?
    ensures Taught(Followed(Round(env, db, version, roots)), db.nodes, roots)
  {
    if roots != [] {
      var last := |roots| - 1;
      var front := roots[..last];
      assert roots == front + [roots[last]];
      RoundTeaches(env, db, version, front);
      FollowedOneMore(Round(env, db, version, front), Snapshot(version, roots[last], GetForest(env, db, [roots[last]]).value));
      ForestTeaches(env, db, Followed(Round(env, db, version, front)), front, roots[last]);
    }
  }

  lemma EveryRowRequested(env: Env, db: Registry)
    requires ValidEnv(env) && Sound(db) && ParentComplete(db.nodes)
    ensures forall r :: r in ForestRoots(env, db.nodes) ==> GetForest(env, db, [r]).Some?
    ensures forall i :: i in db.nodes ==> Requested(db.nodes[i].alias, ForestRoots(env, db.nodes))
  {
    forall r | r in ForestRoots(env, db.nodes) ensures GetForest(env, db, [r]).Some? { GetForestLists(env, db, [r]); }
    forall i | i in db.nodes ensures Requested(db.nodes[i].alias, ForestRoots(env, db.nodes)) {
      ForestRootsPartition(env, db, i);
    }
  }

  /** Bootstrap: after one undisturbed round of snapshots of a parent-complete registry, a follower
      that knew nothing knows exactly the registry's rows. */
  lemma SnapshotRoundBootstraps(env: Env, db: Registry, version: nat)
    requires ValidEnv(env) && Sound(db) && ParentComplete(db.nodes)
    ensures forall r :: r in ForestRoots(env, db.nodes) ==> GetForest(env, db, [r]).Some?
    ensures Followed(Round(env, db, version, ForestRoots(env, db.nodes))) == db.nodes
  {
    EveryRowRequested(env, db);
    RoundTeaches(env, db, version, ForestRoots(env, db.nodes));
    TaughtAll(Followed(Round(env, db, version, ForestRoots(env, db.nodes))), db.nodes, ForestRoots(env, db.nodes));
  }

  lemma TaughtAll(known: map<Id, GNode>, nodes: map<Id, GNode>, roots: seq<Alias>)
    requires Taught(known, nodes, roots) && forall i :: i in nodes ==> Requested(nodes[i].alias, roots)
    ensures known == nodes
  {}
}
