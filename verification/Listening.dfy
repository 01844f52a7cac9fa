/** What an ear can have heard of a run: captures, the place of each broadcast in them, and which
    snapshots come late. */
module Listening {
  import opened Prelude
  import opened Aliases
  import opened GNodes
  import opened Tables
  import opened Transactions
  import opened Invariants
  import opened ForestReads
  import opened Runs
  import opened Currency
  import opened Protocol
  import opened Rebuild

  // ---- captures ----

  /** `capture` merges the commands from the `i`-th on, in apply order, with the published messages
      from the `k`-th on, in publish order, so that a change broadcast comes after its command. */
  ghost predicate Captures(env: Env, db0: Registry, cmds: seq<Command>, published: seq<Message>,
      capture: seq<Payload>, i: nat, k: nat)
    requires ValidEnv(env) && i <= |cmds| && k <= |published|
    decreases |capture|
  {
    if capture == [] then i == |cmds|
    else
      match capture[0]
      case CommandPayload(c) =>
        i < |cmds| && c == cmds[i] && Captures(env, db0, cmds, published, capture[1..], i + 1, k)
      case ForestPayload(captured) =>
        && k < |published| && CheckpointState(captured) == published[k].forest
        && (published[k].Change? ==> Changes(published[..k]) < |Emissions(env, db0, cmds[..i])|)
        && Captures(env, db0, cmds, published, capture[1..], i, k + 1)
      case OtherPayload(_) => Captures(env, db0, cmds, published, capture[1..], i, k)
  }

  /** Every snapshot is heard with no broadcast outstanding. */
  ghost predicate Settled(env: Env, db0: Registry, cmds: seq<Command>, published: seq<Message>,
      capture: seq<Payload>, i: nat, k: nat)
    requires ValidEnv(env) && i <= |cmds| && k <= |published|
    decreases |capture|
  {
    capture != [] ==>
      match capture[0]
      case CommandPayload(_) => i < |cmds| ==> Settled(env, db0, cmds, published, capture[1..], i + 1, k)
      case ForestPayload(_) =>
        k < |published| ==>
          && (published[k].Snapshot? ==> Changes(published[..k]) == |Emissions(env, db0, cmds[..i])|)
          && Settled(env, db0, cmds, published, capture[1..], i, k + 1)
      case OtherPayload(_) => Settled(env, db0, cmds, published, capture[1..], i, k)
  }

  // ---- states and emissions along a run ----

  lemma PrefixStep(env: Env, db: Registry, cmds: seq<Command>, i: nat)
    requires ValidEnv(env) && i < |cmds|
    ensures var r := Step(env, Run(env, db, cmds[..i]), cmds[i]);
            && Run(env, db, cmds[..i + 1]) == r.db
            && Emissions(env, db, cmds[..i + 1])
               == Emissions(env, db, cmds[..i]) + if r.verdict.Applied? then [r.verdict.forest] else []
  {
    assert cmds[..i + 1] == cmds[..i] + [cmds[i]];
    EmissionsSnoc(env, db, cmds[..i], cmds[i]);
  }

  lemma OneMoreEmitted(env: Env, db: Registry, cmds: seq<Command>, j: nat)
    requires ValidEnv(env) && j < |cmds|
    ensures Emissions(env, db, cmds[..j]) <= Emissions(env, db, cmds[..j + 1])
    ensures |Emissions(env, db, cmds[..j])| == |Emissions(env, db, cmds[..j + 1])| ==> Run(env, db, cmds[..j]) == Run(env, db, cmds[..j + 1])
  {
    PrefixStep(env, db, cmds, j);
    NotAppliedUnchanged(env, Run(env, db, cmds[..j]), cmds[j]);
  }

  lemma {:induction false} EmissionsGrow(env: Env, db: Registry, cmds: seq<Command>, i: nat, j: nat)
    requires ValidEnv(env) && i <= j <= |cmds|
    ensures Emissions(env, db, cmds[..i]) <= Emissions(env, db, cmds[..j])
    ensures |Emissions(env, db, cmds[..i])| == |Emissions(env, db, cmds[..j])| ==> Run(env, db, cmds[..i]) == Run(env, db, cmds[..j])
    decreases j - i
  {
    if i < j {
      EmissionsGrow(env, db, cmds, i, j - 1);
      OneMoreEmitted(env, db, cmds, j - 1);
    }
  }

  /** Prefixes of a run that emitted equally much left the same registry. */
  lemma QuietPrefixesAgree(env: Env, db: Registry, cmds: seq<Command>, i: nat, j: nat)
    requires ValidEnv(env) && i <= |cmds| && j <= |cmds|
    requires |Emissions(env, db, cmds[..i])| == |Emissions(env, db, cmds[..j])|
    ensures Run(env, db, cmds[..i]) == Run(env, db, cmds[..j])
  {
    if i <= j { EmissionsGrow(env, db, cmds, i, j); } else { EmissionsGrow(env, db, cmds, j, i); }
  }

  /** The forest command `v` emitted has, in every longer history, the number of forests before it. */
  lemma EmissionAt(env: Env, db: Registry, cmds: seq<Command>, v: nat, i: nat, f: Forest)
    requires ValidEnv(env) && 0 < v <= |cmds| && i <= |cmds|
    requires Step(env, Run(env, db, cmds[..v - 1]), cmds[v - 1]).verdict == Applied(f)
    requires |Emissions(env, db, cmds[..v - 1])| < |Emissions(env, db, cmds[..i])|
    ensures Emissions(env, db, cmds[..i])[|Emissions(env, db, cmds[..v - 1])|] == f
  {
    PrefixStep(env, db, cmds, v - 1);
    if v <= i { EmissionsGrow(env, db, cmds, v, i); } else { EmissionsGrow(env, db, cmds, i, v); }
  }

  /** A change broadcast in the queue is the emission with its number. */
  lemma ChangeIsEmission(env: Env, db: Registry, cmds: seq<Command>, published: seq<Message>, k: nat, i: nat)
    requires ValidEnv(env) && PublishedInOrder(env, db, cmds, published) && k < |published| && published[k].Change?
    requires i <= |cmds| && Changes(published[..k]) < |Emissions(env, db, cmds[..i])|
    ensures published[k].forest == Emissions(env, db, cmds[..i])[Changes(published[..k])]
  {
    var m := published[k];
    assert InPlace(env, db, cmds, published[..k], m);
    EmissionAt(env, db, cmds, m.version, i, m.forest);
  }

  // ---- the place of a snapshot ----

  /** Command `j` is a repeat that names `root`, and its answer is the emission with number `h`. */
  ghost predicate Answers(env: Env, db0: Registry, cmds: seq<Command>, j: nat, h: nat, root: Alias)
    requires ValidEnv(env) && j < |cmds|
  {
    var db := Run(env, db0, cmds[..j]);
    && |Emissions(env, db0, cmds[..j])| == h && Step(env, db, cmds[j]).verdict.Applied?
    && cmds[j] in db.log && cmds[j].newNode.alias == root
  }

  /** The broadcast outstanding longest, of those heard `i` commands have made, answers a repeat of
      the command that created `root`. */
  ghost predicate Taken(env: Env, db0: Registry, cmds: seq<Command>, i: nat, h: nat, root: Alias)
    requires ValidEnv(env) && i <= |cmds|
  {
    exists j :: 0 <= j < i && Answers(env, db0, cmds, j, h, root)
  }

  function NextChange(published: seq<Message>, k: nat): (q: nat)
    requires k <= |published|
    ensures k <= q <= |published| && (q < |published| ==> published[q].Change?)
    ensures forall m :: k <= m < q ==> published[m].Snapshot?
    decreases |published| - k
  {
    if k == |published| || published[k].Change? then k else NextChange(published, k + 1)
  }

  /** The queue in which snapshot `k` and the next change broadcast, the answer of command `v - 1`,
      trade places. */
  function Exchanged(published: seq<Message>, k: nat, v: nat): (traded: seq<Message>)
    requires k < |published| && published[k].Snapshot?
    ensures |traded| == |published|
  {
    var q, s := NextChange(published, k + 1), published[k];
    seq(|published|, m requires 0 <= m < |published| =>
      if m == k then Change(v, s.forest)
      else if k < m < q then published[m].(version := v)
      else if m == q then Snapshot(v, s.root, s.forest)
      else published[m])
  }

  /** The queue as the replay takes it from message `k` on. */
  ghost function Resumed(env: Env, db0: Registry, cmds: seq<Command>, published: seq<Message>, i: nat, k: nat): (p: seq<Message>)
    requires ValidEnv(env) && i <= |cmds| && k < |published|
    ensures |p| == |published|
  {
    var m, h := published[k], Changes(published[..k]);
    if m.Snapshot? && Taken(env, db0, cmds, i, h, m.root) then
      var j :| 0 <= j < i && Answers(env, db0, cmds, j, h, m.root);
      Exchanged(published, k, j + 1)
    else published
  }

  /** Message `k`, heard after `i` commands, is a snapshot that takes no broadcast's place and is not
      what the registry would answer by then. */
  ghost predicate Late(env: Env, db0: Registry, cmds: seq<Command>, published: seq<Message>, i: nat, k: nat)
    requires ValidEnv(env) && i <= |cmds| && k < |published|
  {
    var m := published[k];
    && m.Snapshot? && !Taken(env, db0, cmds, i, Changes(published[..k]), m.root)
    && GetForest(env, Run(env, db0, cmds[..i]), [m.root]) != Some(m.forest)
  }

  /** Message `k`, heard after `i` commands, is a snapshot that takes no broadcast's place and that a
      command planting a node under its root has overtaken. */
  ghost predicate Overtaken(env: Env, db0: Registry, cmds: seq<Command>, published: seq<Message>, i: nat, k: nat)
    requires ValidEnv(env) && i <= |cmds| && k < |published|
  {
    var m := published[k];
    && m.Snapshot? && !Taken(env, db0, cmds, i, Changes(published[..k]), m.root)
    && m.version < i && !Quiet(env, Run(env, db0, cmds[..m.version]), cmds[m.version..i], m.root)
  }

  /** The numbers of the payloads that are late snapshots. */
  ghost function Mismatched(env: Env, db0: Registry, cmds: seq<Command>, published: seq<Message>,
      capture: seq<Payload>, i: nat, k: nat, n: nat): seq<nat>
    requires ValidEnv(env) && i <= |cmds| && k <= |published|
    decreases |capture|
  {
    if capture == [] then []
    else
      match capture[0]
      case CommandPayload(_) => if i < |cmds| then Mismatched(env, db0, cmds, published, capture[1..], i + 1, k, n + 1) else []
      case ForestPayload(_) =>
        if k < |published| then
          (if Late(env, db0, cmds, published, i, k) then [n] else [])
          + Mismatched(env, db0, cmds, Resumed(env, db0, cmds, published, i, k), capture[1..], i, k + 1, n + 1)
        else []
      case OtherPayload(_) => Mismatched(env, db0, cmds, published, capture[1..], i, k, n + 1)
  }

  /** No snapshot of a capture is overtaken. */
  ghost predicate Timely(env: Env, db0: Registry, cmds: seq<Command>, published: seq<Message>,
      capture: seq<Payload>, i: nat, k: nat)
    requires ValidEnv(env) && i <= |cmds| && k <= |published|
    decreases |capture|
  {
    capture != [] ==>
      match capture[0]
      case CommandPayload(_) => i < |cmds| ==> Timely(env, db0, cmds, published, capture[1..], i + 1, k)
      case ForestPayload(_) =>
        k < |published| ==>
          && !Overtaken(env, db0, cmds, published, i, k)
          && Timely(env, db0, cmds, Resumed(env, db0, cmds, published, i, k), capture[1..], i, k + 1)
      case OtherPayload(_) => Timely(env, db0, cmds, published, capture[1..], i, k)
  }

  // ---- in step ----

  /** Where the replay stands after hearing `i` commands and `k` published messages. */
  ghost predicate InStep(env: Env, db0: Registry, cmds: seq<Command>, published: seq<Message>, i: nat, k: nat, p: Progress)
    requires ValidEnv(env) && i <= |cmds| && k <= |published|
  {
    && p.db == Run(env, db0, cmds[..i])
    && Changes(published[..k]) <= |Emissions(env, db0, cmds[..i])|
    && p.produced == Emissions(env, db0, cmds[..i])[Changes(published[..k])..]
  }

  lemma ChangesStep(published: seq<Message>, k: nat)
    requires k < |published|
    ensures Changes(published[..k + 1]) == Changes(published[..k]) + if published[k].Change? then 1 else 0
  {
    assert published[..k + 1][..k] == published[..k];
  }

  lemma SnapshotRoots(env: Env, db: Registry, root: Alias, f: Forest)
    requires ValidEnv(env) && GetForest(env, db, [root]) == Some(f)
    ensures f.roots == [root]
  {}

  // ---- trading places ----

  lemma {:induction false} EmitterExists(env: Env, db: Registry, cmds: seq<Command>, i: nat, h: nat) returns (j: nat)
    requires ValidEnv(env) && i <= |cmds| && h < |Emissions(env, db, cmds[..i])|
    ensures j < i && |Emissions(env, db, cmds[..j])| == h
    ensures Step(env, Run(env, db, cmds[..j]), cmds[j]).verdict == Applied(Emissions(env, db, cmds[..i])[h])
    decreases i
  {
    assert cmds[..0] == [];
    PrefixStep(env, db, cmds, i - 1);
    if h < |Emissions(env, db, cmds[..i - 1])| {
      j := EmitterExists(env, db, cmds, i - 1, h);
    } else {
      j := i - 1;
    }
  }

  lemma NewNodeIsNew(env: Env, db: Registry, cmd: Command)
    requires ValidEnv(env) && Sound(db) && cmd !in db.log && Step(env, db, cmd).verdict.Applied?
    ensures cmd.newNode.id !in db.nodes && cmd.newNode.id in Step(env, db, cmd).db.nodes
  {
    if cmd.CreateCmd? {
      CreateApplied(env, db, cmd);
      InsertSound(db, cmd.newNode);
    } else {
      ReparentApplied(env, db, cmd);
      RewrittenSound(env, db, cmd);
    }
  }

  /** A forest read before a command was first applied lacks the command's new node. */
  lemma FirstAnswerDiffers(env: Env, db: Registry, cmd: Command, root: Alias)
    requires ValidEnv(env) && Sound(db) && cmd !in db.log && Step(env, db, cmd).verdict.Applied?
    ensures GetForest(env, db, [root]) != Some(Step(env, db, cmd).verdict.forest)
  {
    var r := Step(env, db, cmd);
    StepKeepsSound(env, db, cmd);
    GetForestLists(env, db, [root]);
    NewNodeIsNew(env, db, cmd);
    assert r.db.nodes[cmd.newNode.id] in r.verdict.forest.nodes;
  }

  /** The answer to an applied command equals a forest read just before exactly if the command is a
      repeat that created the root read. */
  lemma AnswerEqualsReadIff(env: Env, db: Registry, cmd: Command, root: Alias, f: Forest)
    requires ValidEnv(env) && Sound(db) && Step(env, db, cmd).verdict.Applied? && GetForest(env, db, [root]) == Some(f)
    ensures Step(env, db, cmd).verdict.forest == f <==> cmd in db.log && cmd.newNode.alias == root
  {
    if cmd in db.log {
      AppliedRepeat(env, db, cmd);
      SnapshotRoots(env, db, root, f);
      SnapshotRoots(env, db, cmd.newNode.alias, Step(env, db, cmd).verdict.forest);
    } else {
      FirstAnswerDiffers(env, db, cmd, root);
    }
  }

  lemma TakenIffEmitter(env: Env, db0: Registry, cmds: seq<Command>, i: nat, j: nat, root: Alias)
    requires ValidEnv(env) && j < i <= |cmds| && Step(env, Run(env, db0, cmds[..j]), cmds[j]).verdict.Applied?
    ensures var h := |Emissions(env, db0, cmds[..j])|;
            Taken(env, db0, cmds, i, h, root) <==> Answers(env, db0, cmds, j, h, root)
  {
    var h := |Emissions(env, db0, cmds[..j])|;
    forall j' | 0 <= j' < i && Answers(env, db0, cmds, j', h, root) ensures j' == j {
      OneEmitter(env, db0, cmds, j, j');
    }
  }

  /** The broadcast outstanding longest equals a snapshot exactly if it answers a repeat of the
      command that created the snapshot's root. */
  lemma HeadEqualsIff(env: Env, db0: Registry, cmds: seq<Command>, v: nat, i: nat, root: Alias, f: Forest)
    requires ValidEnv(env) && Sound(db0) && v <= |cmds| && i <= |cmds|
    requires GetForest(env, Run(env, db0, cmds[..v]), [root]) == Some(f)
    requires |Emissions(env, db0, cmds[..v])| < |Emissions(env, db0, cmds[..i])|
    ensures var h := |Emissions(env, db0, cmds[..v])|;
            Emissions(env, db0, cmds[..i])[h] == f <==> Taken(env, db0, cmds, i, h, root)
  {
    var h := |Emissions(env, db0, cmds[..v])|;
    var j := EmitterExists(env, db0, cmds, i, h);
    QuietPrefixesAgree(env, db0, cmds, v, j);
    RunKeepsSound(env, db0, cmds[..j]);
    AnswerEqualsReadIff(env, Run(env, db0, cmds[..j]), cmds[j], root, f);
    TakenIffEmitter(env, db0, cmds, i, j, root);
  }

  lemma OneEmitter(env: Env, db: Registry, cmds: seq<Command>, j: nat, j': nat)
    requires ValidEnv(env) && j < |cmds| && j' < |cmds|
    requires |Emissions(env, db, cmds[..j])| == |Emissions(env, db, cmds[..j'])|
    requires Step(env, Run(env, db, cmds[..j]), cmds[j]).verdict.Applied?
    requires Step(env, Run(env, db, cmds[..j']), cmds[j']).verdict.Applied?
    ensures j == j'
  {
    PrefixStep(env, db, cmds, j);
    PrefixStep(env, db, cmds, j');
    if j < j' { EmissionsGrow(env, db, cmds, j + 1, j'); }
    if j' < j { EmissionsGrow(env, db, cmds, j' + 1, j); }
  }

  /** Snapshot `k` and the answer to the repeat `j` can trade places. */
  ghost predicate Trade(env: Env, db0: Registry, cmds: seq<Command>, published: seq<Message>, k: nat, j: nat) {
    && ValidEnv(env) && PublishedInOrder(env, db0, cmds, published)
    && k < |published| && published[k].Snapshot? && j < |cmds|
    && Answers(env, db0, cmds, j, Changes(published[..k]), published[k].root)
  }

  lemma TakenTrade(env: Env, db0: Registry, cmds: seq<Command>, published: seq<Message>, i: nat, k: nat) returns (j: nat)
    requires ValidEnv(env) && i <= |cmds| && k < |published| && PublishedInOrder(env, db0, cmds, published)
    requires published[k].Snapshot? && Taken(env, db0, cmds, i, Changes(published[..k]), published[k].root)
    ensures j < i && Trade(env, db0, cmds, published, k, j)
    ensures Resumed(env, db0, cmds, published, i, k) == Exchanged(published, k, j + 1)
  {
    j :| 0 <= j < i && Answers(env, db0, cmds, j, Changes(published[..k]), published[k].root)
         && Resumed(env, db0, cmds, published, i, k) == Exchanged(published, k, j + 1);
  }

  lemma TradeMeans(env: Env, db0: Registry, cmds: seq<Command>, published: seq<Message>, k: nat, j: nat)
    requires Trade(env, db0, cmds, published, k, j)
    ensures var h, f := Changes(published[..k]), published[k].forest;
            && Step(env, Run(env, db0, cmds[..j]), cmds[j]).verdict == Applied(f)
            && GetForest(env, Run(env, db0, cmds[..j + 1]), [published[k].root]) == Some(f)
            && Run(env, db0, cmds[..j + 1]) == Run(env, db0, cmds[..j])
            && |Emissions(env, db0, cmds[..j])| == h && |Emissions(env, db0, cmds[..j + 1])| == h + 1
            && Emissions(env, db0, cmds[..j + 1])[h] == f
  {
    var m := published[k];
    assert InPlace(env, db0, cmds, published[..k], m);
    QuietPrefixesAgree(env, db0, cmds, m.version, j);
    AppliedRepeat(env, Run(env, db0, cmds[..j]), cmds[j]);
    PrefixStep(env, db0, cmds, j);
  }

  lemma TradeChangesNothing(env: Env, db0: Registry, cmds: seq<Command>, published: seq<Message>, k: nat, j: nat)
    requires Trade(env, db0, cmds, published, k, j)
    ensures Run(env, db0, cmds[..j + 1]) == Run(env, db0, cmds[..j])
    ensures |Emissions(env, db0, cmds[..j])| == Changes(published[..k])
    ensures |Emissions(env, db0, cmds[..j + 1])| == Changes(published[..k]) + 1
  {
    TradeMeans(env, db0, cmds, published, k, j);
  }

  lemma {:induction false} NoChangesBetween(published: seq<Message>, a: nat, b: nat)
    requires a <= b <= |published| && forall x :: a <= x < b ==> published[x].Snapshot?
    ensures Changes(published[..b]) == Changes(published[..a])
    decreases b - a
  {
    if a < b {
      ChangesStep(published, b - 1);
      NoChangesBetween(published, a, b - 1);
    }
  }

  lemma {:induction false} ExchangedChanges(published: seq<Message>, k: nat, v: nat, m: nat)
    requires k < |published| && published[k].Snapshot? && m <= |published|
    ensures Changes(Exchanged(published, k, v)[..m])
            == Changes(published[..m]) + if k < m <= NextChange(published, k + 1) then 1 else 0
    decreases m
  {
    if m > 0 {
      ExchangedChanges(published, k, v, m - 1);
      ChangesStep(published, m - 1);
      ChangesStep(Exchanged(published, k, v), m - 1);
    }
  }

  lemma TradeEmission(env: Env, db0: Registry, cmds: seq<Command>, published: seq<Message>, k: nat, j: nat)
    requires Trade(env, db0, cmds, published, k, j)
    ensures var h := Changes(published[..k]);
            h < |Emissions(env, db0, cmds[..j + 1])| && Emissions(env, db0, cmds[..j + 1])[h] == published[k].forest
  {
    TradeMeans(env, db0, cmds, published, k, j);
  }

  lemma NextChangeCount(published: seq<Message>, k: nat)
    requires k < |published| && published[k].Snapshot?
    ensures Changes(published[..NextChange(published, k + 1)]) == Changes(published[..k])
  {
    NoChangesBetween(published, k, NextChange(published, k + 1));
  }

  lemma TradedForest(env: Env, db0: Registry, cmds: seq<Command>, published: seq<Message>, k: nat, j: nat)
    requires Trade(env, db0, cmds, published, k, j)
    ensures var q := NextChange(published, k + 1);
            && Changes(published[..q]) == Changes(published[..k])
            && (q < |published| ==> published[q].forest == published[k].forest)
  {
    var q := NextChange(published, k + 1);
    NextChangeCount(published, k);
    TradeEmission(env, db0, cmds, published, k, j);
    if q < |published| { ChangeIsEmission(env, db0, cmds, published, q, j + 1); }
  }

  /** The trade leaves every message the forest it had, and every snapshot its root. */
  lemma TradedAlike(env: Env, db0: Registry, cmds: seq<Command>, published: seq<Message>, k: nat, j: nat, m: nat)
    requires Trade(env, db0, cmds, published, k, j) && m < |published|
    ensures Exchanged(published, k, j + 1)[m].forest == published[m].forest
  {
    TradedForest(env, db0, cmds, published, k, j);
  }

  lemma InPlaceByCount(env: Env, db0: Registry, cmds: seq<Command>, before: seq<Message>, before': seq<Message>, m: Message)
    requires ValidEnv(env) && InPlace(env, db0, cmds, before, m) && Changes(before') == Changes(before)
    ensures InPlace(env, db0, cmds, before', m)
  {}

  /** A snapshot can be taken for one read after a repeat that changed nothing. */
  lemma ReadAfterRepeat(env: Env, db0: Registry, cmds: seq<Command>, before: seq<Message>, before': seq<Message>, m: Message, j: nat)
    requires ValidEnv(env) && InPlace(env, db0, cmds, before, m) && m.Snapshot? && j < |cmds|
    requires |Emissions(env, db0, cmds[..j])| == Changes(before) && Run(env, db0, cmds[..j + 1]) == Run(env, db0, cmds[..j])
    requires |Emissions(env, db0, cmds[..j + 1])| == Changes(before')
    ensures InPlace(env, db0, cmds, before', m.(version := j + 1))
  {
    QuietPrefixesAgree(env, db0, cmds, m.version, j);
  }

  /** Between the two, snapshots move past the repeat, which changed nothing. */
  lemma PassedInPlace(env: Env, db0: Registry, cmds: seq<Command>, published: seq<Message>, k: nat, j: nat, m: nat)
    requires Trade(env, db0, cmds, published, k, j) && k < m < NextChange(published, k + 1)
    ensures InPlace(env, db0, cmds, Exchanged(published, k, j + 1)[..m], Exchanged(published, k, j + 1)[m])
  {
    TradeChangesNothing(env, db0, cmds, published, k, j);
    ExchangedChanges(published, k, j + 1, m);
    NoChangesBetween(published, k, m);
    ReadAfterRepeat(env, db0, cmds, published[..m], Exchanged(published, k, j + 1)[..m], published[m], j);
  }

  lemma TradedInPlace(env: Env, db0: Registry, cmds: seq<Command>, published: seq<Message>, k: nat, j: nat, m: nat)
    requires Trade(env, db0, cmds, published, k, j) && m < |published|
    ensures InPlace(env, db0, cmds, Exchanged(published, k, j + 1)[..m], Exchanged(published, k, j + 1)[m])
  {
    var q, traded := NextChange(published, k + 1), Exchanged(published, k, j + 1);
    TradeMeans(env, db0, cmds, published, k, j);
    ExchangedChanges(published, k, j + 1, m);
    if k < m < q {
      PassedInPlace(env, db0, cmds, published, k, j, m);
    } else if m == q {
      TradedForest(env, db0, cmds, published, k, j);
    } else if m != k {
      KeptInPlace(env, db0, cmds, published, traded, m);
    }
  }

  lemma KeptInPlace(env: Env, db0: Registry, cmds: seq<Command>, published: seq<Message>, traded: seq<Message>, m: nat)
    requires ValidEnv(env) && PublishedInOrder(env, db0, cmds, published) && m < |published| && m < |traded|
    requires traded[m] == published[m] && Changes(traded[..m]) == Changes(published[..m])
    ensures InPlace(env, db0, cmds, traded[..m], traded[m])
  {
    assert InPlace(env, db0, cmds, published[..m], published[m]);
    InPlaceByCount(env, db0, cmds, published[..m], traded[..m], published[m]);
  }

  lemma TradedInOrder(env: Env, db0: Registry, cmds: seq<Command>, published: seq<Message>, k: nat, j: nat)
    requires Trade(env, db0, cmds, published, k, j)
    ensures PublishedInOrder(env, db0, cmds, Exchanged(published, k, j + 1))
  {
    var traded := Exchanged(published, k, j + 1);
    forall m | 0 <= m < |traded| ensures InPlace(env, db0, cmds, traded[..m], traded[m]) {
      TradedInPlace(env, db0, cmds, published, k, j, m);
    }
  }

  /** A change broadcast after the two still comes after its command. */
  lemma TradedChange(env: Env, db0: Registry, cmds: seq<Command>, published: seq<Message>, k: nat, j: nat, x: nat)
    requires Trade(env, db0, cmds, published, k, j) && k < x < |published|
    ensures var traded := Exchanged(published, k, j + 1);
            && traded[x].forest == published[x].forest
            && (traded[x].Change? ==> published[x].Change? && Changes(traded[..x]) == Changes(published[..x]))
  {
    TradedAlike(env, db0, cmds, published, k, j, x);
    ExchangedChanges(published, k, j + 1, x);
  }

  /** From `x` on, every message carries the same forest, and asks no more of a capture. */
  ghost predicate AsksNoMore(published: seq<Message>, published': seq<Message>, x: nat) {
    && |published'| == |published|
    && forall y :: x <= y < |published| ==>
         && published'[y].forest == published[y].forest
         && (published'[y].Change? ==> published[y].Change? && Changes(published'[..y]) == Changes(published[..y]))
  }

  lemma {:induction false} CapturesAlike(env: Env, db0: Registry, cmds: seq<Command>, published: seq<Message>, published': seq<Message>,
      capture: seq<Payload>, i: nat, x: nat)
    requires ValidEnv(env) && i <= |cmds| && x <= |published| && AsksNoMore(published, published', x)
    requires Captures(env, db0, cmds, published, capture, i, x)
    ensures Captures(env, db0, cmds, published', capture, i, x)
    decreases |capture|
  {
    if capture != [] {
      match capture[0]
      case CommandPayload(_) => CapturesAlike(env, db0, cmds, published, published', capture[1..], i + 1, x);
      case ForestPayload(_) => CapturesAlike(env, db0, cmds, published, published', capture[1..], i, x + 1);
      case OtherPayload(_) => CapturesAlike(env, db0, cmds, published, published', capture[1..], i, x);
    }
  }

  lemma TradedCaptures(env: Env, db0: Registry, cmds: seq<Command>, published: seq<Message>, k: nat, j: nat, capture: seq<Payload>, i: nat)
    requires Trade(env, db0, cmds, published, k, j) && i <= |cmds|
    requires Captures(env, db0, cmds, published, capture, i, k + 1)
    ensures Captures(env, db0, cmds, Exchanged(published, k, j + 1), capture, i, k + 1)
  {
    var traded := Exchanged(published, k, j + 1);
    forall y | k + 1 <= y < |published|
      ensures traded[y].forest == published[y].forest
      ensures traded[y].Change? ==> published[y].Change? && Changes(traded[..y]) == Changes(published[..y])
    {
      TradedChange(env, db0, cmds, published, k, j, y);
    }
    CapturesAlike(env, db0, cmds, published, traded, capture, i, k + 1);
  }

  // ---- without repeats ----

  lemma StepLogs(env: Env, db: Registry, cmd: Command)
    requires ValidEnv(env) && Sound(db)
    ensures forall c :: c in Step(env, db, cmd).db.log ==> c in db.log || c == cmd
  {
    StepKeepsSound(env, db, cmd);
  }

  lemma {:induction false} LoggedEarlier(env: Env, db: Registry, cmds: seq<Command>, j: nat, c: Command)
    requires ValidEnv(env) && Sound(db) && j <= |cmds| && c in Run(env, db, cmds[..j]).log && c !in db.log
    ensures exists x :: 0 <= x < j && cmds[x] == c
    decreases j
  {
    assert cmds[..0] == [];
    if j > 0 {
      PrefixStep(env, db, cmds, j - 1);
      RunKeepsSound(env, db, cmds[..j - 1]);
      StepLogs(env, Run(env, db, cmds[..j - 1]), cmds[j - 1]);
      if c in Run(env, db, cmds[..j - 1]).log { LoggedEarlier(env, db, cmds, j - 1, c); } else { assert cmds[j - 1] == c; }
    }
  }

  /** Where no command is delivered twice no snapshot takes a broadcast's place, and a capture is
      timely exactly if none of its snapshots is overtaken. */
  lemma NothingTakenWithoutRepeats(env: Env, db0: Registry, cmds: seq<Command>, published: seq<Message>, i: nat, k: nat)
    requires ValidEnv(env) && Sound(db0) && i <= |cmds| && k < |published|
    requires Distinct(cmds) && forall c :: c in cmds ==> c !in db0.log
    ensures Resumed(env, db0, cmds, published, i, k) == published
    ensures published[k].Snapshot? ==> !Taken(env, db0, cmds, i, Changes(published[..k]), published[k].root)
  {
    if published[k].Snapshot? {
      forall j | 0 <= j < i ensures !Answers(env, db0, cmds, j, Changes(published[..k]), published[k].root) {
        assert cmds[j] in cmds;
        if cmds[j] in Run(env, db0, cmds[..j]).log { LoggedEarlier(env, db0, cmds, j, cmds[j]); }
      }
    }
  }
}
