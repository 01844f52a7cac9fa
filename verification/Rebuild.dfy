/** Rebuilding the registry from the ear's capture: the replay. */
module Rebuild {
  import opened Prelude
  import opened Aliases
  import opened GNodes
  import opened Tables
  import opened Transactions
  import opened Invariants
  import opened Runs
  import opened Protocol
  import opened Authority

  /** A forest as it goes over the wire: its content and when the registry spoke. */
  datatype Broadcast = Broadcast(forest: Forest, sendTimeMs: int)

  datatype Payload =
    | CommandPayload(cmd: Command)
    | ForestPayload(captured: Broadcast)
    | OtherPayload(typeName: string)

  datatype Report = Report(applied: nat, refused: nat, checkpoints: nat, mismatches: seq<nat>, skipped: set<string>)

  const NO_REPORT := Report(0, 0, 0, [], {})

  /** A broadcast's comparable content: all but the send time. */
  function CheckpointState(b: Broadcast): Forest { b.forest }

  function CheckpointStates(bs: seq<Broadcast>): (fs: seq<Forest>)
    ensures |fs| == |bs|
    ensures forall k :: 0 <= k < |bs| ==> fs[k] == CheckpointState(bs[k])
  {
    seq(|bs|, k requires 0 <= k < |bs| => CheckpointState(bs[k]))
  }

  /** The rebuilding registry, the produced forests not yet paired with captured ones, the report. */
  datatype Progress = Progress(db: Registry, produced: seq<Forest>, report: Report)

  /** One payload, the `n`-th; none if it raises anything but a command's own refusal. */
  ghost function ReplayOne(env: Env, p: Progress, n: nat, payload: Payload): Option<Progress>
    requires ValidEnv(env)
  {
    match payload
    case CommandPayload(cmd) =>
      var r := Step(env, p.db, cmd);
      (match r.verdict
       case Applied(f) => Some(Progress(r.db, p.produced + [f], p.report.(applied := p.report.applied + 1)))
       case Refused => Some(p.(report := p.report.(refused := p.report.refused + 1)))
       case Aborted => None)
    case ForestPayload(captured) =>
      var p' := p.(report := p.report.(checkpoints := p.report.checkpoints + 1));
      if p.produced != [] && p.produced[0] == CheckpointState(captured) then Some(p'.(produced := p.produced[1..]))
      else (match GetForest(env, p.db, captured.forest.roots)
            case None => None
            case Some(f) =>
              if f == CheckpointState(captured) then Some(p')
              else Some(p'.(report := p'.report.(mismatches := p'.report.mismatches + [n]))))
    case OtherPayload(t) => Some(p.(report := p.report.(skipped := p.report.skipped + {t})))
  }

  ghost function ReplayAll(env: Env, p: Progress, n: nat, payloads: seq<Payload>): Option<Progress>
    requires ValidEnv(env)
    decreases |payloads|
  {
    if payloads == [] then Some(p)
    else
      match ReplayOne(env, p, n, payloads[0])
      case None => None
      case Some(p') => ReplayAll(env, p', n + 1, payloads[1..])
  }

  lemma ReplayTurn(env: Env, p: Progress, payloads: seq<Payload>, k: nat)
    requires ValidEnv(env) && k < |payloads|
    ensures ReplayAll(env, p, k + 1, payloads[k..])
            == match ReplayOne(env, p, k + 1, payloads[k])
               case None => None
               case Some(p') => ReplayAll(env, p', k + 2, payloads[k + 1..])
  {
    assert payloads[k..][0] == payloads[k] && payloads[k..][1..] == payloads[k + 1..];
  }

  ghost predicate Decoded(payload: Payload) {
    match payload
    case CommandPayload(cmd) => ValidCommand(cmd)
    case ForestPayload(captured) => forall r :: r in captured.forest.roots ==> LeftRightDot(r)
    case OtherPayload(_) => true
  }

  /** One turn of the replay loop: a command is applied, a broadcast is a checkpoint. */
  method ReplayPayload(payload: Payload, authority: PostgresAuthority, produced: seq<Broadcast>, report: Report, n: nat, now: int)
    returns (raised: bool, produced': seq<Broadcast>, report': Report)
    requires authority.Valid() && Decoded(payload)
    modifies authority
    ensures authority.Valid()
    ensures var result := ReplayOne(authority.env, Progress(old(authority.db), CheckpointStates(produced), report), n, payload);
            && (raised <==> result.None?)
            && (!raised ==> result.value == Progress(authority.db, CheckpointStates(produced'), report'))
  {
    raised, produced', report' := false, produced, report;
    match payload {
      case CommandPayload(cmd) =>
        var verdict := authority.Apply(cmd);
        match verdict {
          case Applied(f) =>
            produced' := produced + [Broadcast(f, now)];
            assert CheckpointStates(produced') == CheckpointStates(produced) + [f];
            report' := report.(applied := report.applied + 1);
          case Refused =>
            report' := report.(refused := report.refused + 1);
          case Aborted =>
            raised := true;
        }
      case ForestPayload(captured) =>
        report' := report.(checkpoints := report.checkpoints + 1);
        if produced != [] && CheckpointState(produced[0]) == CheckpointState(captured) {
          produced' := produced[1..];
          assert CheckpointStates(produced') == CheckpointStates(produced)[1..];
        } else {
          var current := authority.GetForest(captured.forest.roots);
          if current.None? {
            raised := true;
          } else if current.value != CheckpointState(captured) {
            report' := report'.(mismatches := report'.mismatches + [n]);
          }
        }
      case OtherPayload(t) =>
        report' := report.(skipped := report.skipped + {t});
    }
  }

  /** The replay loop. `clock(k)` is when the rebuilding registry speaks at payload `k`. */
  method Replay(payloads: seq<Payload>, authority: PostgresAuthority, clock: nat -> int)
    returns (raised: bool, report: Report)
    requires authority.Valid() && forall p :: p in payloads ==> Decoded(p)
    modifies authority
    ensures authority.Valid()
    ensures var result := ReplayAll(authority.env, Progress(old(authority.db), [], NO_REPORT), 1, payloads);
            && (raised <==> result.None?)
            && (!raised ==> result.value.db == authority.db && result.value.report == report)
  {
    raised, report := false, NO_REPORT;
    var produced: seq<Broadcast> := [];
    ghost var start := Progress(authority.db, [], NO_REPORT);
    assert payloads[0..] == payloads && payloads[|payloads|..] == [];
    for k := 0 to |payloads|
      invariant authority.Valid() && !raised
      invariant ReplayAll(authority.env, start, 1, payloads)
                == ReplayAll(authority.env, Progress(authority.db, CheckpointStates(produced), report), k + 1, payloads[k..])
    {
      ReplayTurn(authority.env, Progress(authority.db, CheckpointStates(produced), report), payloads, k);
      assert payloads[k] in payloads;
      raised, produced, report := ReplayPayload(payloads[k], authority, produced, report, k + 1, clock(k));
      if raised { return; }
    }
  }
}
