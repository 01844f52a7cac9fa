/** From the ear's store back to a registry: the whole restore path, and its limits. */
module Restore {
  import opened Prelude
  import opened Aliases
  import opened GNodes
  import opened Tables
  import opened Validator
  import opened Transactions
  import opened Invariants
  import opened Reparents
  import opened ForestReads
  import opened Creates
  import opened Runs
  import opened Orphans
  import opened Protocol
  import opened Authority
  import opened Rebuild
  import opened Listening
  import opened Fidelity
  import opened Capture

  /** The type name a payload travels under. */
  function WireType(p: Payload): string {
    match p
    case CommandPayload(cmd) => if cmd.CreateCmd? then CREATE_CMD else REPARENT_CMD
    case ForestPayload(_) => FOREST
    case OtherPayload(t) => t
  }

  /** The payloads of the chosen objects. */
  function Fetched(objects: seq<CaptureObject>, store: map<string, Payload>): (payloads: seq<Payload>)
    requires forall o :: o in objects ==> o.key in store
    ensures |payloads| == |objects|
    ensures forall k :: 0 <= k < |objects| ==> payloads[k] == store[objects[k].key]
  {
    seq(|objects|, k requires 0 <= k < |objects| => assert objects[k] in objects; store[objects[k].key])
  }

  lemma {:induction false} SelectedKeys(keys: seq<string>)
    ensures forall o :: o in FlatMap(Contribution, keys) ==> o.key in keys
  {
    if keys != [] {
      SelectedKeys(keys[1..]);
      assert forall o :: o in Contribution(keys[0]) ==> o.key == keys[0];
    }
  }

  /** Lists a store, orders its objects and replays their payloads. */
  method RebuildFromStore(keys: seq<string>, store: map<string, Payload>, authority: PostgresAuthority, clock: nat -> int)
    returns (raised: bool, report: Report, unparsed: nat)
    requires authority.Valid() && forall k :: k in keys ==> k in store && Decoded(store[k])
    modifies authority
    ensures authority.Valid()
    ensures var objects := SortBy(Selected(keys), CaptureLeq);
            (forall o :: o in objects ==> o.key in store) &&
            var result := ReplayAll(authority.env, Progress(old(authority.db), [], NO_REPORT), 1, Fetched(objects, store));
            && (raised <==> result.None?)
            && (!raised ==> result.value.db == authority.db)
            && (!raised ==>
                 report == result.value.report.(skipped := result.value.report.skipped + Members(FlatMap(Skipped, keys))))
    ensures unparsed == |FlatMap(Unparsed, keys)|
  {
    var objects, skipped;
    objects, skipped, unparsed := CaptureObjects(keys);
    SelectedKeys(keys);
    SortByPermutes(Selected(keys), CaptureLeq);
    var payloads := Fetched(objects, store);
    forall p | p in payloads ensures Decoded(p) {
      var k :| 0 <= k < |payloads| && payloads[k] == p;
      assert objects[k] in objects;
    }
    raised, report := Replay(payloads, authority, clock);
    report := report.(skipped := report.skipped + skipped);
  }

  // ---- what the store keeps of a capture ----

  function Relevant(capture: seq<Payload>): seq<Payload> {
    if capture == [] then []
    else (if capture[0].OtherPayload? then [] else [capture[0]]) + Relevant(capture[1..])
  }

  /** The arrivals and the payloads behind their keys. */
  ghost predicate Stored(heard: seq<Heard>, arrived: seq<Payload>, store: map<string, Payload>) {
    && |heard| == |arrived|
    && (forall k :: 0 <= k < |heard| ==>
          && heard[k].typeName == WireType(arrived[k])
          && heard[k].key in store && store[heard[k].key] == arrived[k]
          && (arrived[k].OtherPayload? ==> !ReplayType(arrived[k].typeName)))
  }

  lemma FetchedCons(o: CaptureObject, rest: seq<CaptureObject>, store: map<string, Payload>)
    requires o.key in store && forall r :: r in rest ==> r.key in store
    ensures forall r :: r in [o] + rest ==> r.key in store
    ensures Fetched([o] + rest, store) == [store[o.key]] + Fetched(rest, store)
  {}

  lemma {:induction false} FetchedIsRelevant(heard: seq<Heard>, arrived: seq<Payload>, store: map<string, Payload>, lastMs: nat, count: nat)
    requires Stored(heard, arrived, store)
    ensures forall o :: o in ReplayOnly(Arrivals(heard, lastMs, count)) ==> o.key in store
    ensures Fetched(ReplayOnly(Arrivals(heard, lastMs, count)), store) == Relevant(arrived)
    decreases |heard|
  {
    if heard != [] {
      var h := heard[0];
      var c := EarCounter(h.ms, lastMs, count);
      var all := Arrivals(heard, lastMs, count);
      var rest := ReplayOnly(Arrivals(heard[1..], h.ms, c));
      assert all[0] == CaptureObject(h.key, h.typeName, h.ms, c) && all[1..] == Arrivals(heard[1..], h.ms, c);
      FetchedIsRelevant(heard[1..], arrived[1..], store, h.ms, c);
      if ReplayType(h.typeName) {
        assert ReplayOnly(all) == [all[0]] + rest;
        FetchedCons(all[0], rest, store);
        RelevantFirst(arrived);
        assert Relevant(arrived) == [arrived[0]] + Relevant(arrived[1..]);
      } else {
        assert ReplayOnly(all) == rest;
        RelevantOther(arrived);
      }
    }
  }

  lemma RelevantOther(capture: seq<Payload>)
    requires capture != [] && capture[0].OtherPayload?
    ensures Relevant(capture) == Relevant(capture[1..])
  {}

  lemma RelevantFirst(capture: seq<Payload>)
    requires capture != [] && !capture[0].OtherPayload?
    ensures Relevant(capture) != [] && Relevant(capture)[0] == capture[0] && Relevant(capture)[1..] == Relevant(capture[1..])
  {}

  /** What is left out of a capture decides nothing. */
  lemma {:induction false} RelevantAlike(env: Env, db0: Registry, cmds: seq<Command>, published: seq<Message>,
      capture: seq<Payload>, i: nat, k: nat)
    requires ValidEnv(env) && i <= |cmds| && k <= |published| && Captures(env, db0, cmds, published, capture, i, k)
    ensures Captures(env, db0, cmds, published, Relevant(capture), i, k)
    ensures Settled(env, db0, cmds, published, capture, i, k) <==> Settled(env, db0, cmds, published, Relevant(capture), i, k)
    decreases |capture|
  {
    if capture != [] {
      match capture[0]
      case CommandPayload(c) =>
        RelevantFirst(capture);
        RelevantAlike(env, db0, cmds, published, capture[1..], i + 1, k);
      case ForestPayload(_) =>
        RelevantFirst(capture);
        RelevantAlike(env, db0, cmds, published, capture[1..], i, k + 1);
      case OtherPayload(_) =>
        RelevantOther(capture);
        RelevantAlike(env, db0, cmds, published, capture[1..], i, k);
    }
  }

  lemma {:induction false} RelevantTimely(env: Env, db0: Registry, cmds: seq<Command>, published: seq<Message>,
      capture: seq<Payload>, i: nat, k: nat)
    requires ValidEnv(env) && i <= |cmds| && k <= |published|
    ensures Timely(env, db0, cmds, published, capture, i, k) <==> Timely(env, db0, cmds, published, Relevant(capture), i, k)
    decreases |capture|
  {
    if capture != [] {
      match capture[0]
      case CommandPayload(c) =>
        RelevantFirst(capture);
        if i < |cmds| { RelevantTimely(env, db0, cmds, published, capture[1..], i + 1, k); }
      case ForestPayload(_) =>
        RelevantFirst(capture);
        if k < |published| { RelevantTimely(env, db0, cmds, Resumed(env, db0, cmds, published, i, k), capture[1..], i, k + 1); }
      case OtherPayload(_) =>
        RelevantOther(capture);
        RelevantTimely(env, db0, cmds, published, capture[1..], i, k);
    }
  }

  lemma {:induction false} RelevantCounts(capture: seq<Payload>)
    ensures ForestCount(Relevant(capture)) == ForestCount(capture) && OtherTypes(Relevant(capture)) == {}
  {
    if capture != [] {
      RelevantCounts(capture[1..]);
      if capture[0].OtherPayload? { RelevantOther(capture); } else { RelevantFirst(capture); }
    }
  }

  /** The durability story, end to end. Whatever the live server's two threads did; whatever capture
      an ear made of its commands and broadcasts, under the ear's naming rule; in whatever order the
      store lists the objects: rebuilding from the listing into empty tables restores exactly the
      live registry, with its counts. No mismatch is found if every snapshot was heard with nothing
      outstanding, and, in a well-formed run, if and only if none was overtaken. */
  lemma RebuildFromEar(env: Env, positions: set<Id>, trace: seq<Sys>, heard: seq<Heard>, arrived: seq<Payload>,
      source: string, listing: seq<string>, store: map<string, Payload>)
    requires ValidEnv(env) && Behaviour(env, Empty(positions), trace)
    requires var s := trace[|trace| - 1];
             && Captures(env, Empty(positions), s.done, s.published, arrived, 0, 0)
             && NoneAborted(Verdicts(env, Empty(positions), s.done))
    requires EarSource(source) && NamedByEar(heard, source, 0, 0) && Stored(heard, arrived, store)
    requires multiset(listing) == multiset(Keys(heard))
    ensures var objects := SortBy(Selected(listing), CaptureLeq);
            (forall o :: o in objects ==> o.key in store) &&
            var s, db0 := trace[|trace| - 1], Empty(positions);
            var result, verdicts := ReplayAll(env, Progress(db0, [], NO_REPORT), 1, Fetched(objects, store)), Verdicts(env, db0, s.done);
            && result.Some? && result.value.db == s.db
            && result.value.report
               == Report(AppliedCount(verdicts), RefusedCount(verdicts), ForestCount(arrived),
                         Mismatched(env, db0, s.done, s.published, Relevant(arrived), 0, 0, 1), {})
            && (Settled(env, db0, s.done, s.published, arrived, 0, 0) ==> result.value.report.mismatches == [])
            && (WellFormedRun(env, db0, s.done) ==>
                  (result.value.report.mismatches == [] <==> Timely(env, db0, s.done, s.published, arrived, 0, 0)))
  {
    var s := trace[|trace| - 1];
    ArrivalOrderRecovered(heard, source, listing);
    FetchedIsRelevant(heard, arrived, store, 0, 0);
    RelevantAlike(env, Empty(positions), s.done, s.published, arrived, 0, 0);
    RelevantTimely(env, Empty(positions), s.done, s.published, arrived, 0, 0);
    RelevantCounts(arrived);
    RebuildRestoresServer(env, positions, trace, Relevant(arrived));
  }

  // ---- a snapshot heard too early ----

  /** A forest of one row. */
  function Single(g: GNode): Forest { Forest([g.alias], [g], []) }

  lemma OnlyRootReads(env: Env, root: GNode)
    requires ValidEnv(env) && Sound(OnlyRoot(root))
    ensures GetForest(env, OnlyRoot(root), [root.alias]) == Some(Single(root))
  {
    GetForestLists(env, OnlyRoot(root), [root.alias]);
    var f := GetForest(env, OnlyRoot(root), [root.alias]).value;
    RequestedOne(root.alias, root.alias);
    assert root in f.nodes;
    OnlyElement(f.nodes, root);
    FirstIsMember(f.edges);
  }

  lemma {:induction false} AllEqualCount(rows: seq<GNode>, g: GNode)
    requires forall h :: h in rows ==> h == g
    ensures multiset(rows)[g] == |rows|
  {
    if rows != [] {
      assert forall h :: h in rows[1..] ==> h in rows;
      AllEqualCount(rows[1..], g);
      assert rows[0] in rows && rows == [rows[0]] + rows[1..];
    }
  }

  lemma OnlyElement(rows: seq<GNode>, g: GNode)
    requires g in rows && forall h :: h in rows ==> h == g
    requires forall i, j :: 0 <= i < j < |rows| ==> rows[i].id != rows[j].id
    ensures rows == [g]
  {
    AllEqualCount(rows, g);
    DistinctCount(rows, g);
    assert rows[0] in rows;
  }

  /** The registry after both creates. */
  function RootWithLeaf(root: GNode, leaf: GNode): Registry {
    Registry(map[root.id := root, leaf.id := leaf], map[root.alias := root.id, leaf.alias := leaf.id],
      [RootCreate(root), CreateCmd(leaf, None)], map[], {})
  }

  lemma RootCreated(env: Env, root: GNode, leaf: GNode)
    requires ValidEnv(env) && env.proofOk(None) && RootAndLeaf(root, leaf, env.universe)
    ensures Step(env, Empty({}), RootCreate(root)) == Result(OnlyRoot(root), Applied(Single(root)))
    ensures Sound(OnlyRoot(root))
  {
    OnlyRootReached(env, root);
    EmptySound(env, {});
    RootCreateApplies(env, RootCreate(root));
    NewCreateVerdict(env, Empty({}), RootCreate(root));
  }

  lemma LeafGuarded(env: Env, root: GNode, leaf: GNode)
    requires ValidEnv(env) && env.proofOk(None) && RootAndLeaf(root, leaf, env.universe)
    ensures CreateGuarded(env, OnlyRoot(root), CreateCmd(leaf, None)) && CreateCmd(leaf, None) !in OnlyRoot(root).log
    ensures Clean(Added(OnlyRoot(root).nodes, leaf), map[], {}, env.universe)
  {
    var db := OnlyRoot(root);
    LeafBelowRoot(root, leaf, env.universe);
    assert UniqueAliases(db.nodes);
    RowAtIs(db.nodes, root.id);
    PendingCopperClean(Added(db.nodes, leaf), env.universe);
  }

  lemma LeafCreated(env: Env, root: GNode, leaf: GNode)
    requires ValidEnv(env) && env.proofOk(None) && RootAndLeaf(root, leaf, env.universe)
    ensures Step(env, OnlyRoot(root), CreateCmd(leaf, None)) == Result(RootWithLeaf(root, leaf), Applied(Single(leaf)))
    ensures Sound(RootWithLeaf(root, leaf))
  {
    RootCreated(env, root, leaf);
    LeafGuarded(env, root, leaf);
    var db, cmd := OnlyRoot(root), CreateCmd(leaf, None);
    NewCreateVerdict(env, db, cmd);
    LeafResult(root, leaf);
    StepKeepsSound(env, db, cmd);
  }

  lemma LeafResult(root: GNode, leaf: GNode)
    ensures var db := OnlyRoot(root);
            db.(nodes := Added(db.nodes, leaf), ledger := db.ledger[leaf.alias := leaf.id], log := db.log + [CreateCmd(leaf, None)])
            == RootWithLeaf(root, leaf)
  {
    var db := OnlyRoot(root);
    assert Added(db.nodes, leaf) == RootWithLeaf(root, leaf).nodes;
    assert db.ledger[leaf.alias := leaf.id] == RootWithLeaf(root, leaf).ledger;
  }

  /** Both creates and their broadcasts, with a snapshot of the root read before the second create
      and heard between it and its broadcast. */
  function EarlyCapture(root: GNode, leaf: GNode, t: int): seq<Payload> {
    [CommandPayload(RootCreate(root)), ForestPayload(Broadcast(Single(root), t)),
     CommandPayload(CreateCmd(leaf, None)), ForestPayload(Broadcast(Single(root), t)),
     ForestPayload(Broadcast(Single(leaf), t))]
  }

  lemma SnapshotCounted(env: Env, root: GNode, leaf: GNode, n: nat, report: Report, t: int)
    requires ValidEnv(env) && RootAndLeaf(root, leaf, env.universe) && Sound(RootWithLeaf(root, leaf))
    ensures var p := Progress(RootWithLeaf(root, leaf), [Single(leaf)], report);
            ReplayOne(env, p, n, ForestPayload(Broadcast(Single(root), t)))
            == Some(p.(report := report.(checkpoints := report.checkpoints + 1, mismatches := report.mismatches + [n])))
  {
    SnapshotBehind(env, root, leaf);
  }

  /** A command applied with nothing pending, then the rest of a capture. */
  lemma ReplayApplied(env: Env, p: Progress, n: nat, cmd: Command, f: Forest, db: Registry, rest: seq<Payload>, end: Progress)
    requires ValidEnv(env) && p.produced == [] && Step(env, p.db, cmd) == Result(db, Applied(f))
    requires ReplayAll(env, Progress(db, [f], p.report.(applied := p.report.applied + 1)), n + 1, rest) == Some(end)
    ensures ReplayAll(env, p, n, [CommandPayload(cmd)] + rest) == Some(end)
  {
    AppliedNext(env, p, n, cmd, f, db);
    ReplayFirst(env, p, n, CommandPayload(cmd), rest, Progress(db, [f], p.report.(applied := p.report.applied + 1)), end);
  }

  /** The broadcast at the head of the queue, then the rest. */
  lemma ReplayHead(env: Env, p: Progress, n: nat, f: Forest, t: int, rest: seq<Payload>, end: Progress)
    requires ValidEnv(env) && p.produced == [f]
    requires ReplayAll(env, Progress(p.db, [], p.report.(checkpoints := p.report.checkpoints + 1)), n + 1, rest) == Some(end)
    ensures ReplayAll(env, p, n, [ForestPayload(Broadcast(f, t))] + rest) == Some(end)
  {
    HeadMatches(env, p, n, f, t);
    ReplayFirst(env, p, n, ForestPayload(Broadcast(f, t)), rest, Progress(p.db, [], p.report.(checkpoints := p.report.checkpoints + 1)), end);
  }

  /** From the early snapshot on. */
  lemma EarlyTail(env: Env, root: GNode, leaf: GNode, t: int)
    requires ValidEnv(env) && RootAndLeaf(root, leaf, env.universe) && Sound(RootWithLeaf(root, leaf))
    ensures ReplayAll(env, Progress(RootWithLeaf(root, leaf), [Single(leaf)], Report(2, 0, 1, [], {})), 4, FromSnapshot(root, leaf, t))
            == Some(Progress(RootWithLeaf(root, leaf), [], Report(2, 0, 3, [4], {})))
  {
    var end := Progress(RootWithLeaf(root, leaf), [], Report(2, 0, 3, [4], {}));
    var p4 := Progress(RootWithLeaf(root, leaf), [Single(leaf)], Report(2, 0, 2, [4], {}));
    assert [] + [4] == [4];
    SnapshotCounted(env, root, leaf, 4, Report(2, 0, 1, [], {}), t);
    ReplayHead(env, p4, 5, Single(leaf), t, [], end);
    ReplayFirst(env, Progress(RootWithLeaf(root, leaf), [Single(leaf)], Report(2, 0, 1, [], {})), 4,
      ForestPayload(Broadcast(Single(root), t)), [ForestPayload(Broadcast(Single(leaf), t))] + [], p4, end);
  }

  /** The broadcast at the head of the queue, a command applied after it, then the rest. */
  lemma ReplayHeadThenApplied(env: Env, p: Progress, n: nat, f: Forest, t: int, cmd: Command, g: Forest, db: Registry,
                              rest: seq<Payload>, end: Progress)
    requires ValidEnv(env) && p.produced == [f] && Step(env, p.db, cmd) == Result(db, Applied(g))
    requires ReplayAll(env, Progress(db, [g], p.report.(applied := p.report.applied + 1, checkpoints := p.report.checkpoints + 1)), n + 2, rest)
             == Some(end)
    ensures ReplayAll(env, p, n, [ForestPayload(Broadcast(f, t))] + ([CommandPayload(cmd)] + rest)) == Some(end)
  {
    var q := Progress(p.db, [], p.report.(checkpoints := p.report.checkpoints + 1));
    ReplayApplied(env, q, n + 1, cmd, g, db, rest, end);
    ReplayHead(env, p, n, f, t, [CommandPayload(cmd)] + rest, end);
  }

  /** Two applied commands, the first one's broadcast between them, then the rest. */
  lemma EarlyHead(env: Env, db0: Registry, c1: Command, f1: Forest, db1: Registry, c2: Command, f2: Forest, db2: Registry, t: int,
                  tail: seq<Payload>, capture: seq<Payload>, end: Progress)
    requires ValidEnv(env)
    requires capture == [CommandPayload(c1)] + ([ForestPayload(Broadcast(f1, t))] + ([CommandPayload(c2)] + tail))
    requires Step(env, db0, c1) == Result(db1, Applied(f1)) && Step(env, db1, c2) == Result(db2, Applied(f2))
    requires ReplayAll(env, Progress(db2, [f2], Report(2, 0, 1, [], {})), 4, tail) == Some(end)
    ensures ReplayAll(env, Progress(db0, [], NO_REPORT), 1, capture) == Some(end)
  {
    ReplayHeadThenApplied(env, Progress(db1, [f1], Report(1, 0, 0, [], {})), 2, f1, t, c2, f2, db2, tail, end);
    ReplayApplied(env, Progress(db0, [], NO_REPORT), 1, c1, f1, db1, [ForestPayload(Broadcast(f1, t))] + ([CommandPayload(c2)] + tail), end);
  }

  lemma RunTwo(env: Env, c1: Command, c2: Command)
    requires ValidEnv(env)
    ensures Run(env, Empty({}), [c1, c2]) == Step(env, Step(env, Empty({}), c1).db, c2).db
  {
    assert [c1] + [c2] == [c1, c2];
    RunAppends(env, Empty({}), [c1], [c2]);
    RunOne(env, Empty({}), c1);
    RunOne(env, Step(env, Empty({}), c1).db, c2);
  }

  lemma AppliedNext(env: Env, p: Progress, n: nat, cmd: Command, f: Forest, db: Registry)
    requires ValidEnv(env) && p.produced == [] && Step(env, p.db, cmd) == Result(db, Applied(f))
    ensures ReplayOne(env, p, n, CommandPayload(cmd))
            == Some(Progress(db, [f], p.report.(applied := p.report.applied + 1)))
  {
    assert p.produced + [f] == [f];
  }

  lemma HeadMatches(env: Env, p: Progress, n: nat, f: Forest, t: int)
    requires ValidEnv(env) && p.produced == [f]
    ensures ReplayOne(env, p, n, ForestPayload(Broadcast(f, t)))
            == Some(Progress(p.db, [], p.report.(checkpoints := p.report.checkpoints + 1)))
  {
    assert [f][1..] == [];
  }

  lemma SnapshotBehind(env: Env, root: GNode, leaf: GNode)
    requires ValidEnv(env) && RootAndLeaf(root, leaf, env.universe) && Sound(RootWithLeaf(root, leaf))
    ensures var now := GetForest(env, RootWithLeaf(root, leaf), [root.alias]);
            now.Some? && now.value != Single(root)
    ensures Single(leaf) != Single(root)
  {
    LeafBelowRoot(root, leaf, env.universe);
    GetForestLists(env, RootWithLeaf(root, leaf), [root.alias]);
    RequestedOne(leaf.alias, root.alias);
    assert leaf in GetForest(env, RootWithLeaf(root, leaf), [root.alias]).value.nodes;
    assert leaf !in Single(root).nodes;
  }

  lemma ReplayFirst(env: Env, p: Progress, n: nat, first: Payload, rest: seq<Payload>, p': Progress, end: Progress)
    requires ValidEnv(env) && ReplayOne(env, p, n, first) == Some(p') && ReplayAll(env, p', n + 1, rest) == Some(end)
    ensures ReplayAll(env, p, n, [first] + rest) == Some(end)
  {
    assert ([first] + rest)[1..] == rest;
  }

  lemma EarlyReplays(env: Env, root: GNode, leaf: GNode, t: int)
    requires ValidEnv(env) && env.proofOk(None) && RootAndLeaf(root, leaf, env.universe)
    ensures ReplayAll(env, Progress(Empty({}), [], NO_REPORT), 1, EarlyCapture(root, leaf, t))
            == Some(Progress(RootWithLeaf(root, leaf), [], Report(2, 0, 3, [4], {})))
  {
    RootCreated(env, root, leaf);
    LeafCreated(env, root, leaf);
    EarlyTail(env, root, leaf, t);
    EarlyParts(root, leaf, t);
    EarlyHead(env, Empty({}), RootCreate(root), Single(root), OnlyRoot(root), CreateCmd(leaf, None), Single(leaf), RootWithLeaf(root, leaf), t,
      FromSnapshot(root, leaf, t), EarlyCapture(root, leaf, t), Progress(RootWithLeaf(root, leaf), [], Report(2, 0, 3, [4], {})));
  }

  /** The capture from the early snapshot on. */
  function FromSnapshot(root: GNode, leaf: GNode, t: int): seq<Payload> {
    [ForestPayload(Broadcast(Single(root), t))] + ([ForestPayload(Broadcast(Single(leaf), t))] + [])
  }

  lemma EarlyParts(root: GNode, leaf: GNode, t: int)
    ensures EarlyCapture(root, leaf, t)
            == [CommandPayload(RootCreate(root))]
               + ([ForestPayload(Broadcast(Single(root), t))] + ([CommandPayload(CreateCmd(leaf, None))] + FromSnapshot(root, leaf, t)))
  {
  }

  lemma EarlyRuns(env: Env, root: GNode, leaf: GNode)
    requires ValidEnv(env) && env.proofOk(None) && RootAndLeaf(root, leaf, env.universe)
    ensures Run(env, Empty({}), [RootCreate(root)]) == OnlyRoot(root)
    ensures Run(env, Empty({}), [RootCreate(root), CreateCmd(leaf, None)]) == RootWithLeaf(root, leaf)
  {
    RootCreated(env, root, leaf);
    LeafCreated(env, root, leaf);
    RunOne(env, Empty({}), RootCreate(root));
    RunTwo(env, RootCreate(root), CreateCmd(leaf, None));
  }

  /** Read after the first create, the root's forest is the root alone. */
  lemma EarlyRead(env: Env, root: GNode, leaf: GNode)
    requires ValidEnv(env) && env.proofOk(None) && RootAndLeaf(root, leaf, env.universe)
    ensures GetForest(env, Run(env, Empty({}), [RootCreate(root)]), [root.alias]) == Some(Single(root))
  {
    RootCreated(env, root, leaf);
    RunOne(env, Empty({}), RootCreate(root));
    OnlyRootReads(env, root);
  }

  /** A snapshot read before a command and heard after it, but before its change broadcast, is
      recorded as a mismatch though nothing diverged: the rebuilt registry is the live one. */
  lemma EarlySnapshotMismatches(env: Env, root: GNode, leaf: GNode, t: int)
    requires ValidEnv(env) && env.proofOk(None) && RootAndLeaf(root, leaf, env.universe)
    ensures var result := ReplayAll(env, Progress(Empty({}), [], NO_REPORT), 1, EarlyCapture(root, leaf, t));
            && result.Some? && result.value.report.mismatches == [4]
            && result.value.db == Run(env, Empty({}), [RootCreate(root), CreateCmd(leaf, None)])
  {
    EarlyReplays(env, root, leaf, t);
    EarlyRuns(env, root, leaf);
  }
}
