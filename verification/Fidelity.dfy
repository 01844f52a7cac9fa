/** Why a rebuild restores what was live, and exactly when it reports no mismatch. */
module Fidelity {
  import opened Prelude
  import opened Aliases
  import opened GNodes
  import opened Tables
  import opened Transactions
  import opened Invariants
  import opened Reparents
  import opened ForestReads
  import opened Topology
  import opened Runs
  import opened Currency
  import opened Protocol
  import opened Rebuild
  import opened Listening

  // ---- counting ----

  function AppliedCount(verdicts: seq<Verdict>): nat {
    if verdicts == [] then 0 else (if verdicts[0].Applied? then 1 else 0) + AppliedCount(verdicts[1..])
  }

  function RefusedCount(verdicts: seq<Verdict>): nat {
    if verdicts == [] then 0 else (if verdicts[0].Refused? then 1 else 0) + RefusedCount(verdicts[1..])
  }

  function ForestCount(capture: seq<Payload>): nat {
    if capture == [] then 0 else (if capture[0].ForestPayload? then 1 else 0) + ForestCount(capture[1..])
  }

  function OtherTypes(capture: seq<Payload>): set<string> {
    if capture == [] then {} else (if capture[0].OtherPayload? then {capture[0].typeName} else {}) + OtherTypes(capture[1..])
  }

  predicate IsApplied(v: Verdict) { v.Applied? }

  predicate IsRefused(v: Verdict) { v.Refused? }

  predicate IsBroadcast(p: Payload) { p.ForestPayload? }

  /** The counts are what they say: numbers of positions. */
  lemma {:induction false} VerdictCounts(verdicts: seq<Verdict>)
    ensures AppliedCount(verdicts) == |Where(IsApplied, verdicts)| && RefusedCount(verdicts) == |Where(IsRefused, verdicts)|
  {
    if verdicts != [] {
      VerdictCounts(verdicts[1..]);
      WhereCons(IsApplied, verdicts);
      WhereCons(IsRefused, verdicts);
    }
  }

  lemma {:induction false} BroadcastCount(capture: seq<Payload>)
    ensures ForestCount(capture) == |Where(IsBroadcast, capture)|
  {
    if capture != [] {
      BroadcastCount(capture[1..]);
      WhereCons(IsBroadcast, capture);
    }
  }

  // ---- a replay in step ----

  /** Everything a replay in step with a capture starts from. */
  ghost predicate Following(env: Env, db0: Registry, cmds: seq<Command>, published: seq<Message>,
      capture: seq<Payload>, i: nat, k: nat, p: Progress)
  {
    && ValidEnv(env) && i <= |cmds| && k <= |published|
    && PublishedInOrder(env, db0, cmds, published) && Captures(env, db0, cmds, published, capture, i, k)
    && InStep(env, db0, cmds, published, i, k, p)
    && NoneAborted(Verdicts(env, p.db, cmds[i..]))
    && (Sound(db0) || Settled(env, db0, cmds, published, capture, i, k))
  }

  lemma CommandReplayed(env: Env, p: Progress, n: nat, cmd: Command)
    requires ValidEnv(env) && !Step(env, p.db, cmd).verdict.Aborted?
    ensures var r := Step(env, p.db, cmd);
            ReplayOne(env, p, n, CommandPayload(cmd))
            == Some(Progress(r.db, p.produced + (if r.verdict.Applied? then [r.verdict.forest] else []),
                 p.report.(applied := p.report.applied + (if r.verdict.Applied? then 1 else 0),
                           refused := p.report.refused + (if r.verdict.Refused? then 1 else 0))))
  {
    NotAppliedUnchanged(env, p.db, cmd);
    assert p.produced + [] == p.produced;
  }

  lemma CommandReplays(env: Env, db0: Registry, cmds: seq<Command>, published: seq<Message>, i: nat, k: nat, p: Progress, n: nat)
    requires ValidEnv(env) && i < |cmds| && k <= |published| && InStep(env, db0, cmds, published, i, k, p)
    requires !Step(env, p.db, cmds[i]).verdict.Aborted?
    ensures var after := ReplayOne(env, p, n, CommandPayload(cmds[i]));
            var v := Step(env, p.db, cmds[i]).verdict;
            && after.Some? && InStep(env, db0, cmds, published, i + 1, k, after.value)
            && after.value.report == p.report.(applied := p.report.applied + (if v.Applied? then 1 else 0),
                                               refused := p.report.refused + (if v.Refused? then 1 else 0))
  {
    PrefixStep(env, db0, cmds, i);
    CommandReplayed(env, p, n, cmds[i]);
    var v := Step(env, p.db, cmds[i]).verdict;
    DropFromConcat(Emissions(env, db0, cmds[..i]), if v.Applied? then [v.forest] else [], Changes(published[..k]));
  }

  lemma DropFromConcat(xs: seq<Forest>, ys: seq<Forest>, c: nat)
    requires c <= |xs|
    ensures (xs + ys)[c..] == xs[c..] + ys
  {}

  lemma ReplayCons(env: Env, p: Progress, n: nat, capture: seq<Payload>)
    requires ValidEnv(env) && capture != [] && ReplayOne(env, p, n, capture[0]).Some?
    ensures ReplayAll(env, p, n, capture) == ReplayAll(env, ReplayOne(env, p, n, capture[0]).value, n + 1, capture[1..])
  {}

  lemma VerdictsTail(env: Env, db: Registry, cmds: seq<Command>, i: nat)
    requires ValidEnv(env) && i < |cmds| && NoneAborted(Verdicts(env, db, cmds[i..]))
    ensures var r := Step(env, db, cmds[i]);
            && Verdicts(env, db, cmds[i..]) == [r.verdict] + Verdicts(env, r.db, cmds[i + 1..])
            && !r.verdict.Aborted? && NoneAborted(Verdicts(env, r.db, cmds[i + 1..]))
  {
    assert cmds[i..][0] == cmds[i] && cmds[i..][1..] == cmds[i + 1..];
    var vs := Verdicts(env, db, cmds[i..]);
    assert vs[0] in vs && forall v :: v in vs[1..] ==> v in vs;
    assert vs[1..] == Verdicts(env, Step(env, db, cmds[i]).db, cmds[i + 1..]);
  }

  /** The forest at the head of the queue pairs up and leaves it. */
  lemma HeadPairs(env: Env, p: Progress, n: nat, captured: Broadcast)
    requires ValidEnv(env) && p.produced != [] && p.produced[0] == CheckpointState(captured)
    ensures ReplayOne(env, p, n, ForestPayload(captured))
            == Some(Progress(p.db, p.produced[1..], p.report.(checkpoints := p.report.checkpoints + 1)))
  {}

  lemma ChangeMatches(env: Env, db0: Registry, cmds: seq<Command>, published: seq<Message>, i: nat, k: nat,
      p: Progress, n: nat, captured: Broadcast)
    requires ValidEnv(env) && i <= |cmds| && k < |published| && published[k].Change?
    requires PublishedInOrder(env, db0, cmds, published) && InStep(env, db0, cmds, published, i, k, p)
    requires CheckpointState(captured) == published[k].forest
    requires Changes(published[..k]) < |Emissions(env, db0, cmds[..i])|
    ensures var after := ReplayOne(env, p, n, ForestPayload(captured));
            && after.Some? && InStep(env, db0, cmds, published, i, k + 1, after.value)
            && after.value.report == p.report.(checkpoints := p.report.checkpoints + 1)
  {
    ChangesStep(published, k);
    ChangeIsEmission(env, db0, cmds, published, k, i);
    HeadPairs(env, p, n, captured);
  }

  /** With nothing queued, or something else first, the current forest decides. */
  lemma SnapshotChecked(env: Env, p: Progress, n: nat, captured: Broadcast)
    requires ValidEnv(env) && (p.produced != [] ==> p.produced[0] != CheckpointState(captured))
    requires GetForest(env, p.db, captured.forest.roots).Some?
    ensures var late := GetForest(env, p.db, captured.forest.roots) != Some(CheckpointState(captured));
            ReplayOne(env, p, n, ForestPayload(captured))
            == Some(p.(report := p.report.(checkpoints := p.report.checkpoints + 1,
                                           mismatches := p.report.mismatches + if late then [n] else [])))
  {
    assert p.report.mismatches + [] == p.report.mismatches;
  }

  /** With nothing outstanding, a snapshot takes no broadcast's place and is current. */
  lemma SettledIsCurrent(env: Env, db0: Registry, cmds: seq<Command>, published: seq<Message>, i: nat, k: nat)
    requires ValidEnv(env) && i <= |cmds| && k < |published| && published[k].Snapshot?
    requires PublishedInOrder(env, db0, cmds, published) && Changes(published[..k]) == |Emissions(env, db0, cmds[..i])|
    ensures !Taken(env, db0, cmds, i, Changes(published[..k]), published[k].root)
    ensures GetForest(env, Run(env, db0, cmds[..i]), [published[k].root]) == Some(published[k].forest)
  {
    var m, h := published[k], Changes(published[..k]);
    assert InPlace(env, db0, cmds, published[..k], m);
    QuietPrefixesAgree(env, db0, cmds, m.version, i);
    forall j | 0 <= j < i ensures !Answers(env, db0, cmds, j, h, m.root) {
      PrefixStep(env, db0, cmds, j);
      EmissionsGrow(env, db0, cmds, j + 1, i);
    }
  }

  /** A snapshot that takes no place is counted, and recorded as a mismatch exactly if it is late. */
  lemma SnapshotReplays(env: Env, db0: Registry, cmds: seq<Command>, published: seq<Message>, i: nat, k: nat,
      p: Progress, n: nat, captured: Broadcast)
    requires ValidEnv(env) && i <= |cmds| && k < |published| && published[k].Snapshot?
    requires PublishedInOrder(env, db0, cmds, published) && InStep(env, db0, cmds, published, i, k, p)
    requires CheckpointState(captured) == published[k].forest
    requires !Taken(env, db0, cmds, i, Changes(published[..k]), published[k].root)
    requires Sound(db0) || Changes(published[..k]) == |Emissions(env, db0, cmds[..i])|
    ensures ReplayOne(env, p, n, ForestPayload(captured))
            == Some(p.(report := p.report.(checkpoints := p.report.checkpoints + 1,
                         mismatches := p.report.mismatches + if Late(env, db0, cmds, published, i, k) then [n] else [])))
  {
    var m, h := published[k], Changes(published[..k]);
    assert InPlace(env, db0, cmds, published[..k], m);
    SnapshotRoots(env, Run(env, db0, cmds[..m.version]), m.root, m.forest);
    if h == |Emissions(env, db0, cmds[..i])| {
      SettledIsCurrent(env, db0, cmds, published, i, k);
    } else {
      HeadEqualsIff(env, db0, cmds, m.version, i, m.root, m.forest);
      RunKeepsSound(env, db0, cmds[..i]);
      GetForestLists(env, p.db, [m.root]);
    }
    SnapshotChecked(env, p, n, captured);
  }

  lemma InStepAfterSnapshot(env: Env, db0: Registry, cmds: seq<Command>, published: seq<Message>, i: nat, k: nat, p: Progress, p': Progress)
    requires ValidEnv(env) && i <= |cmds| && k < |published| && published[k].Snapshot?
    requires InStep(env, db0, cmds, published, i, k, p) && p'.db == p.db && p'.produced == p.produced
    ensures InStep(env, db0, cmds, published, i, k + 1, p')
  {
    ChangesStep(published, k);
  }

  /** A snapshot that takes a broadcast's place pairs up as that broadcast would. */
  lemma TakenReplays(env: Env, db0: Registry, cmds: seq<Command>, published: seq<Message>, i: nat, k: nat, j: nat,
      p: Progress, n: nat, captured: Broadcast)
    requires Trade(env, db0, cmds, published, k, j) && j < i <= |cmds|
    requires InStep(env, db0, cmds, published, i, k, p) && CheckpointState(captured) == published[k].forest
    ensures var traded, after := Exchanged(published, k, j + 1), ReplayOne(env, p, n, ForestPayload(captured));
            && after.Some? && InStep(env, db0, cmds, traded, i, k + 1, after.value)
            && after.value.report == p.report.(checkpoints := p.report.checkpoints + 1)
  {
    var traded := Exchanged(published, k, j + 1);
    TradeMeans(env, db0, cmds, published, k, j);
    EmissionsGrow(env, db0, cmds, j + 1, i);
    TradedInOrder(env, db0, cmds, published, k, j);
    ExchangedChanges(published, k, j + 1, k);
    ChangeMatches(env, db0, cmds, traded, i, k, p, n, captured);
  }

  lemma FollowsCommand(env: Env, db0: Registry, cmds: seq<Command>, published: seq<Message>,
      capture: seq<Payload>, i: nat, k: nat, p: Progress, n: nat)
    requires Following(env, db0, cmds, published, capture, i, k, p) && capture != [] && capture[0].CommandPayload?
    ensures i < |cmds| && ReplayOne(env, p, n, capture[0]).Some?
    ensures var p1 := ReplayOne(env, p, n, capture[0]).value;
            var v := Step(env, p.db, cmds[i]).verdict;
            && Following(env, db0, cmds, published, capture[1..], i + 1, k, p1)
            && Verdicts(env, p.db, cmds[i..]) == [v] + Verdicts(env, p1.db, cmds[i + 1..])
            && p1.report == p.report.(applied := p.report.applied + (if v.Applied? then 1 else 0),
                                      refused := p.report.refused + (if v.Refused? then 1 else 0))
  {
    VerdictsTail(env, p.db, cmds, i);
    CommandReplays(env, db0, cmds, published, i, k, p, n);
    assert ReplayOne(env, p, n, capture[0]).value.db == Step(env, p.db, cmds[i]).db by {
      NotAppliedUnchanged(env, p.db, cmds[i]);
    }
  }

  /** What the replay makes of a captured forest. */
  ghost predicate HeardAs(env: Env, db0: Registry, cmds: seq<Command>, published: seq<Message>,
      capture: seq<Payload>, i: nat, k: nat, p: Progress, n: nat, after: Option<Progress>)
    requires ValidEnv(env) && i <= |cmds| && k < |published| && capture != []
  {
    && after.Some? && after.value.db == p.db
    && Following(env, db0, cmds, Resumed(env, db0, cmds, published, i, k), capture[1..], i, k + 1, after.value)
    && after.value.report == p.report.(checkpoints := p.report.checkpoints + 1,
         mismatches := p.report.mismatches + if Late(env, db0, cmds, published, i, k) then [n] else [])
  }

  lemma FollowsChange(env: Env, db0: Registry, cmds: seq<Command>, published: seq<Message>,
      capture: seq<Payload>, i: nat, k: nat, p: Progress, n: nat)
    requires Following(env, db0, cmds, published, capture, i, k, p) && capture != [] && capture[0].ForestPayload?
    requires k < |published| && published[k].Change?
    ensures HeardAs(env, db0, cmds, published, capture, i, k, p, n, ReplayOne(env, p, n, capture[0]))
  {
    ChangeMatches(env, db0, cmds, published, i, k, p, n, capture[0].captured);
    assert p.report.mismatches + [] == p.report.mismatches;
  }

  /** Nothing is taken where nothing is outstanding. */
  lemma TakenMeansSound(env: Env, db0: Registry, cmds: seq<Command>, published: seq<Message>,
      capture: seq<Payload>, i: nat, k: nat, p: Progress)
    requires Following(env, db0, cmds, published, capture, i, k, p) && capture != [] && capture[0].ForestPayload?
    requires k < |published| && published[k].Snapshot? && Taken(env, db0, cmds, i, Changes(published[..k]), published[k].root)
    ensures Sound(db0)
  {
    if Changes(published[..k]) == |Emissions(env, db0, cmds[..i])| { SettledIsCurrent(env, db0, cmds, published, i, k); }
  }

  lemma FollowsTaken(env: Env, db0: Registry, cmds: seq<Command>, published: seq<Message>,
      capture: seq<Payload>, i: nat, k: nat, p: Progress, n: nat)
    requires Following(env, db0, cmds, published, capture, i, k, p) && capture != [] && capture[0].ForestPayload?
    requires k < |published| && published[k].Snapshot? && Taken(env, db0, cmds, i, Changes(published[..k]), published[k].root)
    ensures HeardAs(env, db0, cmds, published, capture, i, k, p, n, ReplayOne(env, p, n, capture[0]))
  {
    var j := TakenTrade(env, db0, cmds, published, i, k);
    TakenMeansSound(env, db0, cmds, published, capture, i, k, p);
    TakenReplays(env, db0, cmds, published, i, k, j, p, n, capture[0].captured);
    TradedInOrder(env, db0, cmds, published, k, j);
    TradedCaptures(env, db0, cmds, published, k, j, capture[1..], i);
    TakenIsHeard(env, db0, cmds, published, capture, i, k, p, n, ReplayOne(env, p, n, capture[0]), Exchanged(published, k, j + 1));
  }

  lemma TakenIsHeard(env: Env, db0: Registry, cmds: seq<Command>, published: seq<Message>,
      capture: seq<Payload>, i: nat, k: nat, p: Progress, n: nat, after: Option<Progress>, traded: seq<Message>)
    requires ValidEnv(env) && i <= |cmds| && k < |published| && capture != [] && after.Some? && |traded| == |published|
    requires NoneAborted(Verdicts(env, p.db, cmds[i..])) && Sound(db0) && after.value.db == p.db
    requires published[k].Snapshot? && Taken(env, db0, cmds, i, Changes(published[..k]), published[k].root)
    requires traded == Resumed(env, db0, cmds, published, i, k) && PublishedInOrder(env, db0, cmds, traded)
    requires Captures(env, db0, cmds, traded, capture[1..], i, k + 1) && InStep(env, db0, cmds, traded, i, k + 1, after.value)
    requires after.value.report == p.report.(checkpoints := p.report.checkpoints + 1)
    ensures HeardAs(env, db0, cmds, published, capture, i, k, p, n, after)
  {
    assert p.report.mismatches + [] == p.report.mismatches;
  }

  lemma FollowsSnapshot(env: Env, db0: Registry, cmds: seq<Command>, published: seq<Message>,
      capture: seq<Payload>, i: nat, k: nat, p: Progress, n: nat)
    requires Following(env, db0, cmds, published, capture, i, k, p) && capture != [] && capture[0].ForestPayload?
    requires k < |published| && published[k].Snapshot? && !Taken(env, db0, cmds, i, Changes(published[..k]), published[k].root)
    ensures HeardAs(env, db0, cmds, published, capture, i, k, p, n, ReplayOne(env, p, n, capture[0]))
  {
    SnapshotReplays(env, db0, cmds, published, i, k, p, n, capture[0].captured);
    InStepAfterSnapshot(env, db0, cmds, published, i, k, p, ReplayOne(env, p, n, capture[0]).value);
  }

  lemma FollowsForest(env: Env, db0: Registry, cmds: seq<Command>, published: seq<Message>,
      capture: seq<Payload>, i: nat, k: nat, p: Progress, n: nat)
    requires Following(env, db0, cmds, published, capture, i, k, p) && capture != [] && capture[0].ForestPayload?
    ensures k < |published| && HeardAs(env, db0, cmds, published, capture, i, k, p, n, ReplayOne(env, p, n, capture[0]))
  {
    if published[k].Change? {
      FollowsChange(env, db0, cmds, published, capture, i, k, p, n);
    } else if Taken(env, db0, cmds, i, Changes(published[..k]), published[k].root) {
      FollowsTaken(env, db0, cmds, published, capture, i, k, p, n);
    } else {
      FollowsSnapshot(env, db0, cmds, published, capture, i, k, p, n);
    }
  }

  // ---- the report ----

  /** The report a capture earns, with the numbers of its late snapshots. */
  ghost predicate Earned(before: Report, after: Report, verdicts: seq<Verdict>, capture: seq<Payload>, late: seq<nat>) {
    after == Report(before.applied + AppliedCount(verdicts), before.refused + RefusedCount(verdicts),
                    before.checkpoints + ForestCount(capture), before.mismatches + late, before.skipped + OtherTypes(capture))
  }

  lemma EarnedCommand(before: Report, mid: Report, after: Report, v: Verdict, vs: seq<Verdict>, capture: seq<Payload>, late: seq<nat>)
    requires capture != [] && capture[0].CommandPayload? && Earned(mid, after, vs, capture[1..], late)
    requires mid == before.(applied := before.applied + (if v.Applied? then 1 else 0),
                            refused := before.refused + (if v.Refused? then 1 else 0))
    ensures Earned(before, after, [v] + vs, capture, late)
  {
    assert ([v] + vs)[1..] == vs;
    assert {} + OtherTypes(capture[1..]) == OtherTypes(capture[1..]);
  }

  lemma EarnedForest(before: Report, mid: Report, after: Report, vs: seq<Verdict>, capture: seq<Payload>, here: seq<nat>, late: seq<nat>)
    requires capture != [] && capture[0].ForestPayload? && Earned(mid, after, vs, capture[1..], late)
    requires mid == before.(checkpoints := before.checkpoints + 1, mismatches := before.mismatches + here)
    ensures Earned(before, after, vs, capture, here + late)
  {
    assert {} + OtherTypes(capture[1..]) == OtherTypes(capture[1..]);
    assert (before.mismatches + here) + late == before.mismatches + (here + late);
  }

  lemma EarnedOther(before: Report, mid: Report, after: Report, vs: seq<Verdict>, capture: seq<Payload>, late: seq<nat>)
    requires capture != [] && capture[0].OtherPayload? && Earned(mid, after, vs, capture[1..], late)
    requires mid == before.(skipped := before.skipped + {capture[0].typeName})
    ensures Earned(before, after, vs, capture, late)
  {
    assert (before.skipped + {capture[0].typeName}) + OtherTypes(capture[1..])
           == before.skipped + ({capture[0].typeName} + OtherTypes(capture[1..]));
  }

  /** The rest of a replay ended in the live registry, with the report it should add. */
  ghost predicate Restores(env: Env, db0: Registry, cmds: seq<Command>, i: nat, p: Progress, capture: seq<Payload>, late: seq<nat>,
      result: Option<Progress>)
    requires ValidEnv(env) && i <= |cmds|
  {
    && result.Some? && result.value.db == Run(env, db0, cmds)
    && Earned(p.report, result.value.report, Verdicts(env, p.db, cmds[i..]), capture, late)
  }

  lemma CommandRestores(env: Env, db0: Registry, cmds: seq<Command>, published: seq<Message>,
      capture: seq<Payload>, i: nat, k: nat, p: Progress, n: nat, late: seq<nat>, result: Option<Progress>)
    requires Following(env, db0, cmds, published, capture, i, k, p) && capture != [] && capture[0].CommandPayload?
    requires i < |cmds| && ReplayOne(env, p, n, capture[0]).Some?
    requires Restores(env, db0, cmds, i + 1, ReplayOne(env, p, n, capture[0]).value, capture[1..], late, result)
    ensures Restores(env, db0, cmds, i, p, capture, late, result)
  {
    FollowsCommand(env, db0, cmds, published, capture, i, k, p, n);
    var p1 := ReplayOne(env, p, n, capture[0]).value;
    EarnedCommand(p.report, p1.report, result.value.report, Step(env, p.db, cmds[i]).verdict, Verdicts(env, p1.db, cmds[i + 1..]),
      capture, late);
  }

  lemma ForestRestores(env: Env, db0: Registry, cmds: seq<Command>, published: seq<Message>,
      capture: seq<Payload>, i: nat, k: nat, p: Progress, n: nat, late: seq<nat>, result: Option<Progress>)
    requires ValidEnv(env) && i <= |cmds| && k < |published| && capture != [] && capture[0].ForestPayload?
    requires HeardAs(env, db0, cmds, published, capture, i, k, p, n, ReplayOne(env, p, n, capture[0]))
    requires Restores(env, db0, cmds, i, ReplayOne(env, p, n, capture[0]).value, capture[1..], late, result)
    ensures Restores(env, db0, cmds, i, p, capture, (if Late(env, db0, cmds, published, i, k) then [n] else []) + late, result)
  {
    var p1 := ReplayOne(env, p, n, capture[0]).value;
    EarnedForest(p.report, p1.report, result.value.report, Verdicts(env, p.db, cmds[i..]), capture,
      if Late(env, db0, cmds, published, i, k) then [n] else [], late);
  }

  lemma OtherRestores(env: Env, db0: Registry, cmds: seq<Command>, capture: seq<Payload>, i: nat, p: Progress, n: nat,
      late: seq<nat>, result: Option<Progress>)
    requires ValidEnv(env) && i <= |cmds| && capture != [] && capture[0].OtherPayload?
    requires Restores(env, db0, cmds, i, ReplayOne(env, p, n, capture[0]).value, capture[1..], late, result)
    ensures Restores(env, db0, cmds, i, p, capture, late, result)
  {
    EarnedOther(p.report, ReplayOne(env, p, n, capture[0]).value.report, result.value.report, Verdicts(env, p.db, cmds[i..]), capture, late);
  }

  lemma FollowsOther(env: Env, db0: Registry, cmds: seq<Command>, published: seq<Message>,
      capture: seq<Payload>, i: nat, k: nat, p: Progress, n: nat)
    requires Following(env, db0, cmds, published, capture, i, k, p) && capture != [] && capture[0].OtherPayload?
    ensures ReplayOne(env, p, n, capture[0]).Some?
    ensures Following(env, db0, cmds, published, capture[1..], i, k, ReplayOne(env, p, n, capture[0]).value)
  {}

  lemma CommandFollows(env: Env, db0: Registry, cmds: seq<Command>, published: seq<Message>,
      capture: seq<Payload>, i: nat, k: nat, p: Progress, n: nat)
    requires Following(env, db0, cmds, published, capture, i, k, p) && capture != [] && capture[0].CommandPayload?
    requires i < |cmds| && ReplayOne(env, p, n, capture[0]).Some?
    requires var p1 := ReplayOne(env, p, n, capture[0]).value;
             Restores(env, db0, cmds, i + 1, p1, capture[1..], Mismatched(env, db0, cmds, published, capture[1..], i + 1, k, n + 1),
               ReplayAll(env, p1, n + 1, capture[1..]))
    ensures Restores(env, db0, cmds, i, p, capture, Mismatched(env, db0, cmds, published, capture, i, k, n), ReplayAll(env, p, n, capture))
  {
    ReplayCons(env, p, n, capture);
    CommandRestores(env, db0, cmds, published, capture, i, k, p, n, Mismatched(env, db0, cmds, published, capture[1..], i + 1, k, n + 1),
      ReplayAll(env, ReplayOne(env, p, n, capture[0]).value, n + 1, capture[1..]));
  }

  lemma ForestFollows(env: Env, db0: Registry, cmds: seq<Command>, published: seq<Message>,
      capture: seq<Payload>, i: nat, k: nat, p: Progress, n: nat)
    requires ValidEnv(env) && i <= |cmds| && k < |published| && capture != [] && capture[0].ForestPayload?
    requires HeardAs(env, db0, cmds, published, capture, i, k, p, n, ReplayOne(env, p, n, capture[0]))
    requires var p1 := ReplayOne(env, p, n, capture[0]).value;
             Restores(env, db0, cmds, i, p1, capture[1..],
               Mismatched(env, db0, cmds, Resumed(env, db0, cmds, published, i, k), capture[1..], i, k + 1, n + 1),
               ReplayAll(env, p1, n + 1, capture[1..]))
    ensures Restores(env, db0, cmds, i, p, capture, Mismatched(env, db0, cmds, published, capture, i, k, n), ReplayAll(env, p, n, capture))
  {
    ReplayCons(env, p, n, capture);
    ForestRestores(env, db0, cmds, published, capture, i, k, p, n,
      Mismatched(env, db0, cmds, Resumed(env, db0, cmds, published, i, k), capture[1..], i, k + 1, n + 1),
      ReplayAll(env, ReplayOne(env, p, n, capture[0]).value, n + 1, capture[1..]));
  }

  lemma {:induction false} ReplayFollows(env: Env, db0: Registry, cmds: seq<Command>, published: seq<Message>,
      capture: seq<Payload>, i: nat, k: nat, p: Progress, n: nat)
    requires Following(env, db0, cmds, published, capture, i, k, p)
    ensures Restores(env, db0, cmds, i, p, capture, Mismatched(env, db0, cmds, published, capture, i, k, n), ReplayAll(env, p, n, capture))
    decreases |capture|
  {
    if capture == [] {
      assert cmds[..i] == cmds && cmds[i..] == [];
      assert p.report.mismatches + [] == p.report.mismatches;
    } else {
      match capture[0]
      case CommandPayload(_) =>
        FollowsCommand(env, db0, cmds, published, capture, i, k, p, n);
        ReplayFollows(env, db0, cmds, published, capture[1..], i + 1, k, ReplayOne(env, p, n, capture[0]).value, n + 1);
        CommandFollows(env, db0, cmds, published, capture, i, k, p, n);
      case ForestPayload(_) =>
        FollowsForest(env, db0, cmds, published, capture, i, k, p, n);
        ReplayFollows(env, db0, cmds, Resumed(env, db0, cmds, published, i, k), capture[1..], i, k + 1,
          ReplayOne(env, p, n, capture[0]).value, n + 1);
        ForestFollows(env, db0, cmds, published, capture, i, k, p, n);
      case OtherPayload(_) =>
        FollowsOther(env, db0, cmds, published, capture, i, k, p, n);
        ReplayCons(env, p, n, capture);
        var p1 := ReplayOne(env, p, n, capture[0]).value;
        ReplayFollows(env, db0, cmds, published, capture[1..], i, k, p1, n + 1);
        OtherRestores(env, db0, cmds, capture, i, p, n, Mismatched(env, db0, cmds, published, capture[1..], i, k, n + 1),
          ReplayAll(env, p1, n + 1, capture[1..]));
    }
  }

  // ---- the main results ----

  /** Rebuild fidelity: replaying any capture of a live run that aborted nothing into the registry
      the run started from ends in exactly the live state and counts what the live registry applied
      and refused; the mismatches are exactly the late snapshots. */
  lemma RebuildFidelity(env: Env, db0: Registry, cmds: seq<Command>, published: seq<Message>, capture: seq<Payload>)
    requires ValidEnv(env) && PublishedInOrder(env, db0, cmds, published)
    requires Captures(env, db0, cmds, published, capture, 0, 0)
    requires NoneAborted(Verdicts(env, db0, cmds))
    requires Sound(db0) || Settled(env, db0, cmds, published, capture, 0, 0)
    ensures var result := ReplayAll(env, Progress(db0, [], NO_REPORT), 1, capture);
            var verdicts := Verdicts(env, db0, cmds);
            && result.Some? && result.value.db == Run(env, db0, cmds)
            && result.value.report
               == Report(AppliedCount(verdicts), RefusedCount(verdicts), ForestCount(capture),
                         Mismatched(env, db0, cmds, published, capture, 0, 0, 1), OtherTypes(capture))
  {
    assert cmds[0..] == cmds;
    FollowingFromStart(env, db0, cmds, published, capture);
    ReplayFollows(env, db0, cmds, published, capture, 0, 0, Progress(db0, [], NO_REPORT), 1);
    EarnedFromNothing(ReplayAll(env, Progress(db0, [], NO_REPORT), 1, capture).value.report, Verdicts(env, db0, cmds), capture,
      Mismatched(env, db0, cmds, published, capture, 0, 0, 1));
  }

  lemma FollowingFromStart(env: Env, db0: Registry, cmds: seq<Command>, published: seq<Message>, capture: seq<Payload>)
    requires ValidEnv(env) && PublishedInOrder(env, db0, cmds, published)
    requires Captures(env, db0, cmds, published, capture, 0, 0) && NoneAborted(Verdicts(env, db0, cmds))
    requires Sound(db0) || Settled(env, db0, cmds, published, capture, 0, 0)
    ensures Following(env, db0, cmds, published, capture, 0, 0, Progress(db0, [], NO_REPORT))
  {
    assert cmds[..0] == [] && cmds[0..] == cmds && published[..0] == [];
  }

  lemma EarnedFromNothing(after: Report, verdicts: seq<Verdict>, capture: seq<Payload>, late: seq<nat>)
    requires Earned(NO_REPORT, after, verdicts, capture, late)
    ensures after == Report(AppliedCount(verdicts), RefusedCount(verdicts), ForestCount(capture), late, OtherTypes(capture))
  {
    assert [] + late == late && {} + OtherTypes(capture) == OtherTypes(capture);
  }

  /** Snapshots heard with nothing outstanding are never late, in any run whatever. */
  lemma {:induction false} SettledNeverMismatches(env: Env, db0: Registry, cmds: seq<Command>, published: seq<Message>,
      capture: seq<Payload>, i: nat, k: nat, n: nat)
    requires ValidEnv(env) && i <= |cmds| && k <= |published|
    requires PublishedInOrder(env, db0, cmds, published) && Settled(env, db0, cmds, published, capture, i, k)
    ensures Mismatched(env, db0, cmds, published, capture, i, k, n) == []
    decreases |capture|
  {
    if capture != [] {
      match capture[0]
      case CommandPayload(_) =>
        if i < |cmds| { SettledNeverMismatches(env, db0, cmds, published, capture[1..], i + 1, k, n + 1); }
      case ForestPayload(_) =>
        if k < |published| {
          if published[k].Snapshot? { SettledIsCurrent(env, db0, cmds, published, i, k); }
          SettledNeverMismatches(env, db0, cmds, published, capture[1..], i, k + 1, n + 1);
        }
      case OtherPayload(_) => SettledNeverMismatches(env, db0, cmds, published, capture[1..], i, k, n + 1);
    }
  }

  // ---- well-formed runs: which snapshots are late ----

  /** A capture being heard of a well-formed run, after `i` commands and `k` messages. */
  ghost predicate Hearing(env: Env, db0: Registry, cmds: seq<Command>, published: seq<Message>, capture: seq<Payload>, i: nat, k: nat) {
    && ValidEnv(env) && Sound(db0) && ParentComplete(db0.nodes) && WellFormedRun(env, db0, cmds)
    && i <= |cmds| && k <= |published| && PublishedInOrder(env, db0, cmds, published) && OfRoots(published)
    && Captures(env, db0, cmds, published, capture, i, k)
    && Changes(published[..k]) <= |Emissions(env, db0, cmds[..i])|
  }

  /** In a well-formed run a snapshot is late exactly if it is overtaken. */
  lemma LateIffOvertaken(env: Env, db0: Registry, cmds: seq<Command>, published: seq<Message>, capture: seq<Payload>, i: nat, k: nat)
    requires Hearing(env, db0, cmds, published, capture, i, k) && k < |published|
    ensures Late(env, db0, cmds, published, i, k) <==> Overtaken(env, db0, cmds, published, i, k)
  {
    var m := published[k];
    if m.Snapshot? {
      assert InPlace(env, db0, cmds, published[..k], m);
      if m.version < i {
        ReadStillCurrentIff(env, db0, cmds, m.version, i, m.root);
      } else {
        EmissionsGrow(env, db0, cmds, i, m.version);
      }
    }
  }

  lemma HearingCommand(env: Env, db0: Registry, cmds: seq<Command>, published: seq<Message>, capture: seq<Payload>, i: nat, k: nat)
    requires Hearing(env, db0, cmds, published, capture, i, k) && capture != [] && capture[0].CommandPayload?
    ensures i < |cmds| && Hearing(env, db0, cmds, published, capture[1..], i + 1, k)
  {
    EmissionsGrow(env, db0, cmds, i, i + 1);
  }

  lemma HearingForest(env: Env, db0: Registry, cmds: seq<Command>, published: seq<Message>, capture: seq<Payload>, i: nat, k: nat)
    requires Hearing(env, db0, cmds, published, capture, i, k) && capture != [] && capture[0].ForestPayload?
    ensures k < |published| && Hearing(env, db0, cmds, Resumed(env, db0, cmds, published, i, k), capture[1..], i, k + 1)
  {
    ChangesStep(published, k);
    if published[k].Snapshot? && Taken(env, db0, cmds, i, Changes(published[..k]), published[k].root) {
      HearingTaken(env, db0, cmds, published, capture, i, k);
    }
  }

  lemma HearingTaken(env: Env, db0: Registry, cmds: seq<Command>, published: seq<Message>, capture: seq<Payload>, i: nat, k: nat)
    requires Hearing(env, db0, cmds, published, capture, i, k) && capture != [] && capture[0].ForestPayload?
    requires k < |published| && published[k].Snapshot? && Taken(env, db0, cmds, i, Changes(published[..k]), published[k].root)
    ensures Hearing(env, db0, cmds, Resumed(env, db0, cmds, published, i, k), capture[1..], i, k + 1)
  {
    var j := TakenTrade(env, db0, cmds, published, i, k);
    TradedCount(env, db0, cmds, published, k, j, i);
    TradedRoots(published, k, j + 1);
    TradedInOrder(env, db0, cmds, published, k, j);
    TradedCaptures(env, db0, cmds, published, k, j, capture[1..], i);
  }

  lemma TradedCount(env: Env, db0: Registry, cmds: seq<Command>, published: seq<Message>, k: nat, j: nat, i: nat)
    requires Trade(env, db0, cmds, published, k, j) && j < i <= |cmds|
    ensures Changes(Exchanged(published, k, j + 1)[..k + 1]) <= |Emissions(env, db0, cmds[..i])|
  {
    TradeEmission(env, db0, cmds, published, k, j);
    EmissionsGrow(env, db0, cmds, j + 1, i);
    ExchangedChanges(published, k, j + 1, k + 1);
    ChangesStep(published, k);
  }

  lemma TradedRoots(published: seq<Message>, k: nat, v: nat)
    requires k < |published| && published[k].Snapshot? && OfRoots(published)
    ensures OfRoots(Exchanged(published, k, v))
  {}

  lemma {:induction false} MismatchedIffOvertaken(env: Env, db0: Registry, cmds: seq<Command>, published: seq<Message>,
      capture: seq<Payload>, i: nat, k: nat, n: nat)
    requires Hearing(env, db0, cmds, published, capture, i, k)
    ensures Mismatched(env, db0, cmds, published, capture, i, k, n) == [] <==> Timely(env, db0, cmds, published, capture, i, k)
    decreases |capture|
  {
    if capture != [] {
      match capture[0]
      case CommandPayload(_) =>
        HearingCommand(env, db0, cmds, published, capture, i, k);
        MismatchedIffOvertaken(env, db0, cmds, published, capture[1..], i + 1, k, n + 1);
      case ForestPayload(_) =>
        HearingForest(env, db0, cmds, published, capture, i, k);
        LateIffOvertaken(env, db0, cmds, published, capture, i, k);
        MismatchedIffOvertaken(env, db0, cmds, Resumed(env, db0, cmds, published, i, k), capture[1..], i, k + 1, n + 1);
      case OtherPayload(_) =>
        MismatchedIffOvertaken(env, db0, cmds, published, capture[1..], i, k, n + 1);
    }
  }

  /** The rebuild of a well-formed run finds no mismatch exactly if the capture is timely: no
      snapshot is heard after a command, unknown to it, that planted a node under its root. */
  lemma NoMismatchIffTimely(env: Env, db0: Registry, cmds: seq<Command>, published: seq<Message>, capture: seq<Payload>)
    requires ValidEnv(env) && Sound(db0) && ParentComplete(db0.nodes) && WellFormedRun(env, db0, cmds)
    requires PublishedInOrder(env, db0, cmds, published) && OfRoots(published)
    requires Captures(env, db0, cmds, published, capture, 0, 0) && NoneAborted(Verdicts(env, db0, cmds))
    ensures var result := ReplayAll(env, Progress(db0, [], NO_REPORT), 1, capture);
            result.Some? && (result.value.report.mismatches == [] <==> Timely(env, db0, cmds, published, capture, 0, 0))
  {
    RebuildFidelity(env, db0, cmds, published, capture);
    assert published[..0] == [];
    MismatchedIffOvertaken(env, db0, cmds, published, capture, 0, 0, 1);
  }

  /** End to end: whatever the two threads of the live server did, and however its publishes and the
      commands it processed interleave in a capture, replaying the capture into empty tables restores
      the live registry. */
  lemma RebuildRestoresServer(env: Env, positions: set<Id>, trace: seq<Sys>, capture: seq<Payload>)
    requires ValidEnv(env) && Behaviour(env, Empty(positions), trace)
    requires var s := trace[|trace| - 1];
             && Captures(env, Empty(positions), s.done, s.published, capture, 0, 0)
             && NoneAborted(Verdicts(env, Empty(positions), s.done))
    ensures var s, db0 := trace[|trace| - 1], Empty(positions);
            var result, verdicts := ReplayAll(env, Progress(db0, [], NO_REPORT), 1, capture), Verdicts(env, db0, s.done);
            && result.Some? && result.value.db == s.db
            && result.value.report
               == Report(AppliedCount(verdicts), RefusedCount(verdicts), ForestCount(capture),
                         Mismatched(env, db0, s.done, s.published, capture, 0, 0, 1), OtherTypes(capture))
            && (Settled(env, db0, s.done, s.published, capture, 0, 0) ==> result.value.report.mismatches == [])
            && (WellFormedRun(env, db0, s.done) ==>
                  (result.value.report.mismatches == [] <==> Timely(env, db0, s.done, s.published, capture, 0, 0)))
  {
    EmptySound(env, positions);
    var s, db0 := trace[|trace| - 1], Empty(positions);
    BehaviourInv(env, db0, trace, |trace| - 1);
    BehaviourOfRoots(env, db0, trace, |trace| - 1);
    RebuildFidelity(env, db0, s.done, s.published, capture);
    if Settled(env, db0, s.done, s.published, capture, 0, 0) { SettledNeverMismatches(env, db0, s.done, s.published, capture, 0, 0, 1); }
    if WellFormedRun(env, db0, s.done) { NoMismatchIffTimely(env, db0, s.done, s.published, capture); }
  }

  // ---- what the commands alone decide ----

  function CommandsOf(capture: seq<Payload>): seq<Command> {
    if capture == [] then []
    else (if capture[0].CommandPayload? then [capture[0].cmd] else []) + CommandsOf(capture[1..])
  }

  lemma {:induction false} CapturedCommands(env: Env, db0: Registry, cmds: seq<Command>, published: seq<Message>,
      capture: seq<Payload>, i: nat, k: nat)
    requires ValidEnv(env) && i <= |cmds| && k <= |published| && Captures(env, db0, cmds, published, capture, i, k)
    ensures CommandsOf(capture) == cmds[i..]
    decreases |capture|
  {
    if capture != [] {
      match capture[0]
      case CommandPayload(_) =>
        CapturedCommands(env, db0, cmds, published, capture[1..], i + 1, k);
        assert cmds[i..] == [cmds[i]] + cmds[i + 1..];
      case ForestPayload(_) => CapturedCommands(env, db0, cmds, published, capture[1..], i, k + 1);
      case OtherPayload(_) => CapturedCommands(env, db0, cmds, published, capture[1..], i, k);
    }
  }

  /** A replay finished as its commands alone would have it. */
  ghost predicate RanThrough(env: Env, p: Progress, cmds: seq<Command>, result: Option<Progress>)
    requires ValidEnv(env)
  {
    var verdicts := Verdicts(env, p.db, cmds);
    && (result.Some? <==> NoneAborted(verdicts))
    && (result.Some? ==>
          && result.value.db == Run(env, p.db, cmds)
          && result.value.report.applied == p.report.applied + AppliedCount(verdicts)
          && result.value.report.refused == p.report.refused + RefusedCount(verdicts))
  }

  lemma CommandRuns(env: Env, p: Progress, n: nat, cmd: Command, cmds: seq<Command>, result: Option<Progress>)
    requires ValidEnv(env) && Sound(p.db) && ReplayOne(env, p, n, CommandPayload(cmd)).Some?
    requires RanThrough(env, ReplayOne(env, p, n, CommandPayload(cmd)).value, cmds, result)
    ensures RanThrough(env, p, [cmd] + cmds, result)
  {
    CommandReplayed(env, p, n, cmd);
    assert ([cmd] + cmds)[1..] == cmds;
    FirstVerdict(env, p.db, [cmd] + cmds);
    var vs := Verdicts(env, p.db, [cmd] + cmds);
    assert vs[1..] == Verdicts(env, Step(env, p.db, cmd).db, cmds);
  }

  lemma BroadcastRuns(env: Env, p: Progress, n: nat, payload: Payload)
    requires ValidEnv(env) && Sound(p.db) && !payload.CommandPayload?
    ensures var after := ReplayOne(env, p, n, payload);
            && after.Some? && after.value.db == p.db
            && after.value.report.applied == p.report.applied && after.value.report.refused == p.report.refused
  {
    if payload.ForestPayload? { GetForestLists(env, p.db, payload.captured.forest.roots); }
  }

  /** Whatever broadcasts come between them, and wherever: the commands of a capture alone decide
      whether a replay raises, where it ends, and what it counts as applied and refused. */
  lemma {:induction false} ReplayIsRun(env: Env, p: Progress, n: nat, capture: seq<Payload>)
    requires ValidEnv(env) && Sound(p.db)
    ensures RanThrough(env, p, CommandsOf(capture), ReplayAll(env, p, n, capture))
    decreases |capture|
  {
    if capture != [] {
      var after := ReplayOne(env, p, n, capture[0]);
      if capture[0].CommandPayload? {
        if after.Some? {
          StepKeepsSound(env, p.db, capture[0].cmd);
          CommandReplayed(env, p, n, capture[0].cmd);
          ReplayIsRun(env, after.value, n + 1, capture[1..]);
          CommandRuns(env, p, n, capture[0].cmd, CommandsOf(capture[1..]), ReplayAll(env, after.value, n + 1, capture[1..]));
        } else {
          FirstVerdict(env, p.db, CommandsOf(capture));
        }
      } else {
        BroadcastRuns(env, p, n, capture[0]);
        ReplayIsRun(env, after.value, n + 1, capture[1..]);
        assert [] + CommandsOf(capture[1..]) == CommandsOf(capture[1..]);
      }
    }
  }

  lemma {:induction false} SameKindsCount(vs: seq<Verdict>, us: seq<Verdict>)
    requires SameKinds(vs, us)
    ensures AppliedCount(us) == AppliedCount(vs) && RefusedCount(us) == RefusedCount(vs)
    ensures NoneAborted(us) <==> NoneAborted(vs)
  {
    if vs != [] {
      SameKindsCount(vs[1..], us[1..]);
      assert forall v :: v in vs <==> v == vs[0] || v in vs[1..];
      assert forall u :: u in us <==> u == us[0] || u in us[1..];
    }
  }

  /** A rebuild on tables that return rows in another order than the live ones restores a well-formed
      run all the same: rows, ledger, log and counts. */
  lemma RebuildUnderAnyOrder(env: Env, env': Env, db0: Registry, cmds: seq<Command>, capture: seq<Payload>)
    requires SameServer(env, env') && Sound(db0) && WellFormedRun(env, db0, cmds)
    requires NoneAborted(Verdicts(env, db0, cmds)) && CommandsOf(capture) == cmds
    ensures var result, verdicts := ReplayAll(env', Progress(db0, [], NO_REPORT), 1, capture), Verdicts(env, db0, cmds);
            && result.Some? && result.value.db == Run(env, db0, cmds)
            && result.value.report.applied == AppliedCount(verdicts) && result.value.report.refused == RefusedCount(verdicts)
  {
    RunOrderIndependent(env, env', db0, cmds);
    SameKindsCount(Verdicts(env, db0, cmds), Verdicts(env', db0, cmds));
    ReplayIsRun(env', Progress(db0, [], NO_REPORT), 1, capture);
  }

  // ---- rebuilding without the proof gate ----

  lemma UngatedOne(env: Env, p: Progress, n: nat, payload: Payload)
    requires ValidEnv(env) && ValidEnv(Ungated(env)) && Sound(p.db)
    requires payload.CommandPayload? && !env.proofOk(payload.cmd.proof) ==> Step(Ungated(env), p.db, payload.cmd).verdict.Refused?
    ensures ReplayOne(Ungated(env), p, n, payload) == ReplayOne(env, p, n, payload)
  {
    match payload
    case CommandPayload(cmd) =>
      if env.proofOk(cmd.proof) { UngatedStep(env, p.db, cmd); } else { NotAppliedUnchanged(Ungated(env), p.db, cmd); }
    case ForestPayload(captured) =>
      GetForestDeterministic(env, Ungated(env), p.db, captured.forest.roots);
    case OtherPayload(_) =>
  }

  lemma {:induction false} UngatedReplaysAlike(env: Env, p: Progress, n: nat, capture: seq<Payload>)
    requires ValidEnv(env) && ValidEnv(Ungated(env)) && Sound(p.db)
    requires TurnedAwayRefused(env, p.db, CommandsOf(capture))
    ensures ReplayAll(Ungated(env), p, n, capture) == ReplayAll(env, p, n, capture)
    decreases |capture|
  {
    if capture != [] {
      var rest := CommandsOf(capture[1..]);
      if capture[0].CommandPayload? {
        assert ([capture[0].cmd] + rest)[1..] == rest;
        StepKeepsSound(env, p.db, capture[0].cmd);
      } else {
        BroadcastRuns(env, p, n, capture[0]);
        assert [] + rest == rest;
      }
      UngatedOne(env, p, n, capture[0]);
      var after := ReplayOne(env, p, n, capture[0]);
      if after.Some? {
        if capture[0].CommandPayload? { CommandReplayed(env, p, n, capture[0].cmd); }
        UngatedReplaysAlike(env, after.value, n + 1, capture[1..]);
      }
    }
  }

  /** A rebuild without the proof gate restores a gated server's well-formed run if and only if the
      gate was idle, and then its whole report is the one a gated rebuild would give. */
  lemma UngatedRebuildIffGateIdle(env: Env, positions: set<Id>, cmds: seq<Command>, capture: seq<Payload>)
    requires ValidEnv(env) && WellFormedRun(env, Empty(positions), cmds)
    requires NoneAborted(Verdicts(env, Empty(positions), cmds)) && CommandsOf(capture) == cmds
    ensures ValidEnv(Ungated(env))
    ensures var start := Progress(Empty(positions), [], NO_REPORT);
            var ungated, gated := ReplayAll(Ungated(env), start, 1, capture), ReplayAll(env, start, 1, capture);
            && (ungated.Some? && ungated.value.db == Run(env, Empty(positions), cmds) <==> GateIdle(env, Empty(positions), cmds))
            && (GateIdle(env, Empty(positions), cmds) ==> ungated == gated)
  {
    EmptySound(env, positions);
    var db0 := Empty(positions);
    var start := Progress(db0, [], NO_REPORT);
    UngatedRestoresIffRefused(env, db0, cmds);
    TurnedAwayRefusedIffGateIdle(env, db0, cmds);
    ReplayIsRun(Ungated(env), start, 1, capture);
    if GateIdle(env, db0, cmds) { UngatedReplaysAlike(env, start, 1, capture); }
  }
}
