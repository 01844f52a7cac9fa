/** What a well-formed re-parent means for the tree, and what its broadcast and channel show. */
module Topology {
  import opened Prelude
  import opened Aliases
  import opened Paths
  import opened GNodes
  import opened Tables
  import opened Validator
  import opened Transactions
  import opened Invariants
  import opened Rewriting
  import opened Reparents
  import opened ForestReads
  import opened Creates

  function LiveAliases(nodes: map<Id, GNode>): set<Alias> {
    set i | i in nodes :: nodes[i].alias
  }

  /** A first, well-formed re-parent of a sound registry that was applied. */
  ghost predicate AppliedReparent(env: Env, db: Registry, cmd: Command) {
    && ValidEnv(env) && Sound(db) && WellFormed(db.nodes, cmd) && ValidCommand(cmd) && cmd !in db.log
    && Step(env, db, cmd).verdict.Applied?
  }

  // ---- refinement ----

  /** The row as the rewrite map of its moved ancestor has it. */
  ghost predicate MappedRow(nodes: map<Id, GNode>, c: Id, n: Alias, i: Id, row: GNode)
    requires c in nodes && i in nodes
  {
    var moves := SubtreeRewriteMap(LiveAliases(nodes), nodes[c].alias, MovedPrefix(n, nodes[c].alias));
    && nodes[i].alias in moves
    && row == nodes[i].(alias := moves[nodes[i].alias], prevAlias := Some(nodes[i].alias))
  }

  /** N inserted, every row of a moved child's subtree under the alias the child's rewrite map gives
      it, and no other row changed. */
  ghost predicate RefinesRewriteMap(nodes: map<Id, GNode>, cmd: Command, after: map<Id, GNode>)
    requires WellFormed(nodes, cmd)
  {
    var n := cmd.newNode;
    && after.Keys == nodes.Keys + {n.id} && after[n.id] == n
    && (forall c, i :: c in cmd.movedChildIds && i in SubtreeIds(nodes, nodes[c].alias) ==>
          MappedRow(nodes, c, n.alias, i, after[i]))
    && (forall i :: i in nodes && i !in MovedIds(nodes, cmd.movedChildIds) ==> after[i] == nodes[i])
  }

  lemma TargetMapsRow(db: Registry, cmd: Command, c: Id, i: Id)
    requires WellFormed(db.nodes, cmd) && c in cmd.movedChildIds && i in SubtreeIds(db.nodes, db.nodes[c].alias)
    ensures i in Target(db.nodes, cmd) && MappedRow(db.nodes, c, cmd.newNode.alias, i, Target(db.nodes, cmd)[i])
  {
    assert c in db.nodes && i != cmd.newNode.id;
    assert i in MovedIds(db.nodes, cmd.movedChildIds);
    MovedPrefixIsSwap(db.nodes[i].alias, db.nodes[c].alias, Parent(cmd), cmd.newNode.alias);
    assert db.nodes[i].alias in LiveAliases(db.nodes);
  }

  lemma TargetRefines(db: Registry, cmd: Command)
    requires WellFormed(db.nodes, cmd)
    ensures RefinesRewriteMap(db.nodes, cmd, Target(db.nodes, cmd))
  {
    forall c, i | c in cmd.movedChildIds && i in SubtreeIds(db.nodes, db.nodes[c].alias)
      ensures MappedRow(db.nodes, c, cmd.newNode.alias, i, Target(db.nodes, cmd)[i])
    {
      TargetMapsRow(db, cmd, c, i);
    }
  }

  /** Row by row in place, and all at once: an applied re-parent leaves exactly the rows that the
      simultaneous rewrite maps of the moved children give. */
  lemma ReparentRefinesRewriteMap(env: Env, db: Registry, cmd: Command)
    requires AppliedReparent(env, db, cmd)
    ensures RefinesRewriteMap(db.nodes, cmd, Step(env, db, cmd).db.nodes)
  {
    WellFormedVerdict(env, db, cmd);
    TargetRefines(db, cmd);
  }

  lemma AppliedRebuilt(env: Env, db: Registry, cmd: Command)
    requires AppliedReparent(env, db, cmd) && ParentComplete(db.nodes)
    ensures Rebuilt(db, cmd, Step(env, db, cmd).db.nodes)
  {
    WellFormedVerdict(env, db, cmd);
    RebuiltFrom(env, db, cmd);
  }

  /** Row `i` hangs where a re-parent wants it. */
  ghost predicate Hangs(nodes: map<Id, GNode>, after: map<Id, GNode>, cmd: Command, i: Id)
    requires cmd.ReparentCmd? && i in nodes && i in after
  {
    && (IsForestRoot(after[i].alias) <==> IsForestRoot(nodes[i].alias))
    && (i in cmd.movedChildIds ==> !IsForestRoot(after[i].alias) && ParentOf(after, i) == Some(cmd.newNode))
    && (i !in cmd.movedChildIds && !IsForestRoot(nodes[i].alias) ==>
          && ParentOf(nodes, i).Some? && ParentOf(after, i).Some?
          && ParentOf(after, i).value.id == ParentOf(nodes, i).value.id)
  }

  lemma RowHangs(db: Registry, cmd: Command, after: map<Id, GNode>, i: Id)
    requires Rebuilt(db, cmd, after) && i in db.nodes
    ensures i in after && Hangs(db.nodes, after, cmd, i)
  {
    ParentOfOther(db, cmd, after, i);
    if !IsForestRoot(db.nodes[i].alias) && i !in cmd.movedChildIds {
      SameBesidesAlias(db, cmd, after, ParentOf(db.nodes, i).value.id);
    }
  }

  /** By id: N hangs under its parent, the moved children under N, every other row where it hung. */
  lemma ReparentRefinesTree(env: Env, db: Registry, cmd: Command)
    requires AppliedReparent(env, db, cmd) && ParentComplete(db.nodes)
    ensures var after, n := Step(env, db, cmd).db.nodes, cmd.newNode;
            && n.id in after && ParentOf(after, n.id).Some? && ParentOf(after, n.id) == RowAt(db.nodes, Parent(cmd))
            && (forall i :: i in db.nodes ==> i in after && Hangs(db.nodes, after, cmd, i))
  {
    AppliedRebuilt(env, db, cmd);
    var after := Step(env, db, cmd).db.nodes;
    ParentOfN(db, cmd, after);
    forall i | i in db.nodes ensures i in after && Hangs(db.nodes, after, cmd, i) { RowHangs(db, cmd, after, i); }
  }

  lemma RebuiltComplete(db: Registry, cmd: Command, after: map<Id, GNode>)
    requires Rebuilt(db, cmd, after)
    ensures ParentComplete(after)
  {
    forall i | i in after && !IsForestRoot(after[i].alias) ensures RowAt(after, ParentAlias(after[i].alias)).Some? {
      if i == cmd.newNode.id { ParentOfN(db, cmd, after); } else { RowHangs(db, cmd, after, i); }
    }
  }

  lemma ReparentKeepsComplete(env: Env, db: Registry, cmd: Command)
    requires AppliedReparent(env, db, cmd) && ParentComplete(db.nodes)
    ensures ParentComplete(Step(env, db, cmd).db.nodes)
  {
    AppliedRebuilt(env, db, cmd);
    RebuiltComplete(db, cmd, Step(env, db, cmd).db.nodes);
  }

  // ---- the order of the child list and of the tables does not matter ----

  lemma MovedIdsAlike(nodes: map<Id, GNode>, xs: seq<Id>, ys: seq<Id>)
    requires Members(xs) == Members(ys)
    ensures MovedIds(nodes, xs) == MovedIds(nodes, ys)
  {
    assert forall c :: c in xs <==> c in Members(xs);
    assert forall c :: c in ys <==> c in Members(ys);
  }

  /** Servers that differ only in the order tables return rows. */
  ghost predicate SameServer(env: Env, env': Env) {
    && ValidEnv(env) && ValidEnv(env')
    && env'.universe == env.universe && env'.proofOk == env.proofOk && env'.collate == env.collate
  }

  lemma PredictionsAlike(env: Env, env': Env, db: Registry, cmd: Command, cmd': Command)
    requires SameServer(env, env') && Sound(db) && ValidCommand(cmd)
    requires WellFormed(db.nodes, cmd) && WellFormed(db.nodes, cmd')
    requires cmd' == cmd.(movedChildIds := cmd'.movedChildIds) && Members(cmd.movedChildIds) == Members(cmd'.movedChildIds)
    ensures Prediction(env, db, cmd).Ok? && Prediction(env, db, cmd) == Prediction(env', db, cmd')
    ensures Target(db.nodes, cmd) == Target(db.nodes, cmd')
  {
    MovedIdsAlike(db.nodes, cmd.movedChildIds, cmd'.movedChildIds);
    PredictionIs(env, db, cmd);
    PredictionIs(env', db, cmd');
    ClaimsUnique(Prediction(env, db, cmd).value, Prediction(env', db, cmd').value, db.nodes, cmd);
  }

  /** The same re-parent with its children listed in any order, on any row order, ends the same way
      and leaves the same rows and the same ledger. */
  lemma ReparentOrderIndependent(env: Env, env': Env, db: Registry, cmd: Command, cmd': Command)
    requires SameServer(env, env') && Sound(db) && ValidCommand(cmd) && cmd !in db.log && cmd' !in db.log
    requires WellFormed(db.nodes, cmd) && WellFormed(db.nodes, cmd')
    requires cmd' == cmd.(movedChildIds := cmd'.movedChildIds) && Members(cmd.movedChildIds) == Members(cmd'.movedChildIds)
    ensures var r, r' := Step(env, db, cmd), Step(env', db, cmd');
            && r.db.nodes == r'.db.nodes && r.db.ledger == r'.db.ledger
            && (r.verdict.Applied? <==> r'.verdict.Applied?) && (r.verdict.Aborted? <==> r'.verdict.Aborted?)
  {
    PredictionsAlike(env, env', db, cmd, cmd');
    WellFormedVerdict(env, db, cmd);
    WellFormedVerdict(env', db, cmd');
    NotAppliedUnchanged(env, db, cmd);
    NotAppliedUnchanged(env', db, cmd');
  }

  // ---- the broadcast ----

  lemma UnderNAfter(db: Registry, cmd: Command, after: map<Id, GNode>, i: Id)
    requires Rebuilt(db, cmd, after) && i in db.nodes
    ensures i in after && (InSubtree(after[i].alias, cmd.newNode.alias) <==> i in MovedIds(db.nodes, cmd.movedChildIds))
  {
    AliasesAfter(db, cmd, after, i);
  }

  lemma RowsAfter(db: Registry, cmd: Command, after: map<Id, GNode>)
    requires Rebuilt(db, cmd, after)
    ensures after.Keys == db.nodes.Keys + {cmd.newNode.id} && after[cmd.newNode.id] == cmd.newNode
    ensures cmd.newNode.id !in db.nodes && MovedIds(db.nodes, cmd.movedChildIds) <= db.nodes.Keys
  {}

  lemma SubtreeOfRows(nodes: map<Id, GNode>, after: map<Id, GNode>, n: GNode, moved: set<Id>)
    requires after.Keys == nodes.Keys + {n.id} && after[n.id] == n && n.id !in nodes && moved <= nodes.Keys
    requires forall i :: i in nodes ==> (InSubtree(after[i].alias, n.alias) <==> i in moved)
    ensures SubtreeIds(after, n.alias) == moved + {n.id}
  {}

  lemma SubtreeAfter(db: Registry, cmd: Command, after: map<Id, GNode>)
    requires Rebuilt(db, cmd, after)
    ensures SubtreeIds(after, cmd.newNode.alias) == MovedIds(db.nodes, cmd.movedChildIds) + {cmd.newNode.id}
  {
    RowsAfter(db, cmd, after);
    forall i | i in db.nodes
      ensures i in after && (InSubtree(after[i].alias, cmd.newNode.alias) <==> i in MovedIds(db.nodes, cmd.movedChildIds))
    {
      UnderNAfter(db, cmd, after, i);
    }
    SubtreeOfRows(db.nodes, after, cmd.newNode, MovedIds(db.nodes, cmd.movedChildIds));
  }

  /** A forest of exactly the rows `touched`, as the table now has them, and the active edges among
      them. */
  ghost predicate PublishesRows(f: Forest, nodes: map<Id, GNode>, edges: map<Id, Edge>, touched: set<Id>) {
    && (forall g :: g in f.nodes <==> g.id in touched && g.id in nodes && nodes[g.id] == g)
    && (forall e :: e in f.edges <==> e.id in ActiveEdgeIds(edges, touched) && edges[e.id] == e)
  }

  /** Every row and every edge once. */
  ghost predicate ListsOnce(f: Forest) {
    (forall i, j :: 0 <= i < j < |f.nodes| ==> f.nodes[i].id != f.nodes[j].id) && Distinct(f.edges)
  }

  lemma FinishPublishes(env: Env, db: Registry, cmd: Command, w: Work)
    requires ValidEnv(env) && Constraints(db) && w.Valid() && KeyedById(w.nodes)
    requires FinishReparent(env, db, cmd, w).verdict.Applied?
    ensures PublishesRows(FinishReparent(env, db, cmd, w).verdict.forest, w.nodes, db.edges, Members(w.updated))
    ensures ListsOnce(FinishReparent(env, db, cmd, w).verdict.forest)
  {
    RowsAreUpdated(w);
    var chosen := ActiveEdgeIds(db.edges, Members(w.updated));
    EnumeratedEdges(db, env.edgeOrder(db.edges, chosen), chosen);
  }

  /** Rows keep the order in which they were first touched. */
  lemma {:induction false} RenamesKeepOrder(w: Work, ids: seq<Id>, oldPrefix: Alias, newPrefix: Alias)
    requires w.Valid() && (forall i :: i in ids ==> i in w.nodes) && RenameRows(w, ids, oldPrefix, newPrefix).Ok?
    ensures w.updated <= RenameRows(w, ids, oldPrefix, newPrefix).value.updated
    decreases |ids|
  {
    if ids != [] {
      RenamesKeepOrder(RenameRow(w, ids[0], oldPrefix, newPrefix).value, ids[1..], oldPrefix, newPrefix);
    }
  }

  lemma {:induction false} MovesKeepOrder(env: Env, w: Work, children: seq<Id>, n: Alias)
    requires ValidEnv(env) && w.Valid() && MoveChildren(env, w, children, n).Ok?
    ensures w.updated <= MoveChildren(env, w, children, n).value.updated
    decreases |children|
  {
    if children != [] {
      var prior := w.nodes[children[0]].alias;
      RenamesKeepOrder(w, env.rowOrder(w.nodes, SubtreeIds(w.nodes, prior)), prior, MovedPrefix(n, prior));
      MovesKeepOrder(env, RewritePrefix(env, w, prior, MovedPrefix(n, prior)).value, children[1..], n);
    }
  }

  lemma NewNodeFirst(env: Env, db: Registry, cmd: Command)
    requires ValidEnv(env) && cmd.ReparentCmd? && Rewritten(env, db, cmd).Ok?
    ensures var updated := Rewritten(env, db, cmd).value.updated; updated != [] && updated[0] == cmd.newNode.id
  {
    MovesKeepOrder(env, Insert(db, cmd.newNode).value, cmd.movedChildIds, cmd.newNode.alias);
  }

  /** What an applied re-parent publishes: N first, then the moved rows, and the active edges among
      them, each once. */
  lemma ReparentBroadcast(env: Env, db: Registry, cmd: Command)
    requires AppliedReparent(env, db, cmd)
    ensures var r := Step(env, db, cmd);
            && r.verdict.forest.roots == [cmd.newNode.alias]
            && PublishesRows(r.verdict.forest, r.db.nodes, db.edges, MovedIds(db.nodes, cmd.movedChildIds) + {cmd.newNode.id})
            && ListsOnce(r.verdict.forest)
            && r.verdict.forest.nodes != [] && r.verdict.forest.nodes[0] == cmd.newNode
  {
    WellFormedVerdict(env, db, cmd);
    PrecheckExact(env, db, cmd);
    UnguardedRefused(env, db, cmd);
    FinishPublishes(env, db, cmd, Rewritten(env, db, cmd).value);
    NewNodeFirst(env, db, cmd);
  }

  /** The broadcast of a re-parent is, as sets, what reading N's subtree gives afterwards. */
  lemma ReparentBroadcastIsForest(env: Env, db: Registry, cmd: Command)
    requires AppliedReparent(env, db, cmd) && ParentComplete(db.nodes)
    ensures var r := Step(env, db, cmd);
            var read := GetForest(env, r.db, [cmd.newNode.alias]);
            read.Some? && SameContent(r.verdict.forest, read.value)
  {
    AppliedRebuilt(env, db, cmd);
    ReparentBroadcast(env, db, cmd);
    StepKeepsSound(env, db, cmd);
    var r, n := Step(env, db, cmd), cmd.newNode;
    SubtreeAfter(db, cmd, r.db.nodes);
    GetForestLists(env, r.db, [n.alias]);
    var read := GetForest(env, r.db, [n.alias]).value;
    SubtreeForest(r.db, n.alias, read, r.verdict.forest);
  }

  lemma SubtreeForest(db: Registry, root: Alias, read: Forest, f: Forest)
    requires Constraints(db) && f.roots == read.roots
    requires forall g :: g in read.nodes <==> g.id in db.nodes && db.nodes[g.id] == g && Requested(g.alias, [root])
    requires forall e :: e in read.edges <==>
               e.id in db.edges && db.edges[e.id] == e && e.status.Active? && e.fromId in RowIds(read.nodes) && e.toId in RowIds(read.nodes)
    requires forall g :: g in f.nodes <==> g.id in SubtreeIds(db.nodes, root) && g.id in db.nodes && db.nodes[g.id] == g
    requires forall e :: e in f.edges <==> e.id in ActiveEdgeIds(db.edges, SubtreeIds(db.nodes, root)) && db.edges[e.id] == e
    ensures SameContent(f, read)
  {
    forall g: GNode ensures Requested(g.alias, [root]) <==> InSubtree(g.alias, root) { RequestedOne(g.alias, root); }
    assert RowIds(read.nodes) == SubtreeIds(db.nodes, root) by {
      forall i ensures i in RowIds(read.nodes) <==> i in SubtreeIds(db.nodes, root) {
        if i in SubtreeIds(db.nodes, root) { assert db.nodes[i] in read.nodes; }
      }
    }
  }

  /** A first apply and its immediate replay answer with the same forest. */
  lemma FirstApplyMatchesReplay(env: Env, db: Registry, cmd: Command)
    requires ValidEnv(env) && Sound(db) && ValidCommand(cmd) && cmd !in db.log && ParentComplete(db.nodes)
    requires cmd.ReparentCmd? ==> WellFormed(db.nodes, cmd)
    requires Step(env, db, cmd).verdict.Applied?
    ensures var r := Step(env, db, cmd);
            var again := Step(env, r.db, cmd);
            again.db == r.db && again.verdict.Applied? && SameContent(r.verdict.forest, again.verdict.forest)
  {
    StepKeepsSound(env, db, cmd);
    if cmd.CreateCmd? { CreateBroadcastIsForest(env, db, cmd); } else { ReparentBroadcastIsForest(env, db, cmd); }
    RepeatAnswers(env, Step(env, db, cmd).db, cmd);
  }

  // ---- the radio channel ----

  predicate LongestCommonPrefix(e: Path, p: Path, q: Path) {
    e <= p && e <= q && forall k: nat :: k <= |p| && k <= |q| && p[..k] == q[..k] ==> k <= |e|
  }

  /** The channel of a re-parent, N's parent: a row that did not move, and properly the longest path
      prefix common to the old and the new alias of every moved row. */
  lemma ChannelIsStableCommonPrefix(env: Env, db: Registry, cmd: Command, i: Id)
    requires AppliedReparent(env, db, cmd) && ParentComplete(db.nodes) && i in MovedIds(db.nodes, cmd.movedChildIds)
    ensures var after, channel := Step(env, db, cmd).db.nodes, Split(Parent(cmd));
            && i in after
            && channel != Split(db.nodes[i].alias) && channel != Split(after[i].alias)
            && LongestCommonPrefix(channel, Split(db.nodes[i].alias), Split(after[i].alias))
            && RowAt(db.nodes, Parent(cmd)).Some? && RowAt(after, Parent(cmd)) == RowAt(db.nodes, Parent(cmd))
  {
    AppliedRebuilt(env, db, cmd);
    var after := Step(env, db, cmd).db.nodes;
    MovedAfter(db, cmd, after, i);
    ParentOfN(db, cmd, after);
    MovedPaths(db.nodes, cmd, i, after[i].alias);
  }

  lemma MovedPaths(nodes: map<Id, GNode>, cmd: Command, i: Id, newAlias: Alias)
    requires WellFormed(nodes, cmd) && i in MovedIds(nodes, cmd.movedChildIds) && Dotted(cmd.newNode.alias)
    requires Below(newAlias, cmd.newNode.alias) && forall j :: j in nodes ==> nodes[j].alias != cmd.newNode.alias
    ensures Split(Parent(cmd)) < Split(nodes[i].alias) && Split(Parent(cmd)) < Split(newAlias)
    ensures LongestCommonPrefix(Split(Parent(cmd)), Split(nodes[i].alias), Split(newAlias))
  {
    var c :| c in cmd.movedChildIds && c in nodes && InSubtree(nodes[i].alias, nodes[c].alias);
    InSubtreeIsPrefix(nodes[i].alias, nodes[c].alias);
    SplitOfParent(nodes[c].alias);
    SplitOfParent(cmd.newNode.alias);
    BelowIsProperPrefix(newAlias, cmd.newNode.alias);
    SplitInjectiveOnSiblings(nodes[c].alias, cmd.newNode.alias);
    CommonPrefix(Split(Parent(cmd)), LastWord(nodes[c].alias), LastWord(cmd.newNode.alias),
      Split(nodes[i].alias), Split(newAlias));
  }

  lemma SplitInjectiveOnSiblings(a: Alias, b: Alias)
    requires Dotted(a) && Dotted(b) && ParentAlias(a) == ParentAlias(b) && a != b
    ensures LastWord(a) != LastWord(b)
  {
    SplitLast(a);
    SplitLast(b);
  }

  lemma CommonPrefix(e: Path, c: string, n: string, p: Path, q: Path)
    requires e + [c] <= p && e + [n] <= q && c != n
    ensures e < p && e < q && LongestCommonPrefix(e, p, q)
  {
    assert p[|e|] == (e + [c])[|e|] == c && q[|e|] == (e + [n])[|e|] == n;
    assert e == (e + [c])[..|e|] == p[..|e|] && e == (e + [n])[..|e|] == q[..|e|];
    forall k: nat | k <= |p| && k <= |q| && |e| < k ensures p[..k] != q[..k] {
      assert p[..k][|e|] != q[..k][|e|];
    }
  }

  // ---- forest roots ----

  /** Every row of a parent-complete table is at or below a forest root. */
  lemma {:induction false} RootAbove(nodes: map<Id, GNode>, i: Id) returns (r: Id)
    requires ParentComplete(nodes) && RowsValid(nodes) && i in nodes
    ensures r in nodes && IsForestRoot(nodes[r].alias) && InSubtree(nodes[i].alias, nodes[r].alias)
    decreases |nodes[i].alias|
  {
    if IsForestRoot(nodes[i].alias) {
      r := i;
    } else {
      var p :| p in nodes && nodes[p].alias == ParentAlias(nodes[i].alias);
      SplitLast(nodes[i].alias);
      r := RootAbove(nodes, p);
      BelowIffParentInSubtree(nodes[i].alias, nodes[r].alias);
    }
  }

  lemma RootsApart(a: Alias, r: Alias, r': Alias)
    requires IsForestRoot(r) && IsForestRoot(r') && InSubtree(a, r) && InSubtree(a, r')
    ensures r == r'
  {
    if r != r' {
      if |r| <= |r'| {
        SubtreesNest(a, r, r');
        BelowSuffix(r', r);
      } else {
        SubtreesNest(a, r', r);
        BelowSuffix(r, r');
      }
    }
  }

  lemma {:induction false} StringLeqTotal(s: string, t: string, u: string)
    ensures StringLeq(s, t) || StringLeq(t, s)
    ensures StringLeq(s, t) && StringLeq(t, s) ==> s == t
    ensures StringLeq(s, t) && StringLeq(t, u) ==> StringLeq(s, u)
    decreases |s|
  {
    if s != "" && t != "" && s[0] == t[0] && (u == "" || s[0] != u[0]) {
      StringLeqTotal(s[1..], t[1..], "");
      assert s == [s[0]] + s[1..] && t == [t[0]] + t[1..];
    } else if s != "" && t != "" && u != "" && s[0] == t[0] {
      StringLeqTotal(s[1..], t[1..], u[1..]);
      assert s == [s[0]] + s[1..] && t == [t[0]] + t[1..];
    }
  }

  lemma StringLeqOrder()
    ensures TotalOrder(StringLeq)
  {
    forall x, y, z
      ensures StringLeq(x, y) || StringLeq(y, x)
      ensures StringLeq(x, y) && StringLeq(y, x) ==> x == y
      ensures StringLeq(x, y) && StringLeq(y, z) ==> StringLeq(x, z)
    {
      StringLeqTotal(x, y, z);
    }
  }

  lemma AliasOfSome(rows: seq<GNode>, a: Alias)
    ensures a in AliasesOf(rows) <==> exists g :: g in rows && g.alias == a
  {
    if a in AliasesOf(rows) {
      var k :| 0 <= k < |rows| && AliasesOf(rows)[k] == a;
      assert rows[k] in rows;
    }
    if g :| g in rows && g.alias == a {
      var k :| 0 <= k < |rows| && rows[k] == g;
      assert AliasesOf(rows)[k] == a;
    }
  }

  /** `forest_roots` lists each root alias once, in order. */
  lemma ForestRootsAre(env: Env, db: Registry)
    requires ValidEnv(env) && Constraints(db)
    ensures var roots := ForestRoots(env, db.nodes);
            && (forall a :: a in roots <==> exists i :: i in db.nodes && db.nodes[i].alias == a && IsForestRoot(a))
            && Distinct(roots) && SortedBy(roots, StringLeq)
  {
    var chosen := RootIds(db.nodes);
    var ids := env.rowOrder(db.nodes, chosen);
    var rows := Rows(db.nodes, ids);
    var aliases := AliasesOf(rows);
    EnumeratedRows(db.nodes, ids, chosen);
    SortByPermutes(aliases, StringLeq);
    StringLeqOrder();
    SortBySorted(aliases, StringLeq);
    forall a ensures a in aliases <==> exists i :: i in db.nodes && db.nodes[i].alias == a && IsForestRoot(a) {
      AliasOfSome(rows, a);
      if i :| i in db.nodes && db.nodes[i].alias == a && IsForestRoot(a) { assert db.nodes[i] in rows; }
    }
    forall j, k | 0 <= j < k < |aliases| ensures aliases[j] != aliases[k] {
      assert rows[j] in rows && rows[k] in rows;
    }
    PermutedDistinct(aliases, ForestRoots(env, db.nodes));
  }

  /** The subtrees of the forest roots partition a parent-complete table. */
  lemma ForestRootsPartition(env: Env, db: Registry, i: Id)
    requires ValidEnv(env) && Sound(db) && ParentComplete(db.nodes) && i in db.nodes
    ensures exists r :: r in ForestRoots(env, db.nodes) && InSubtree(db.nodes[i].alias, r)
    ensures forall r, r' ::
              (r in ForestRoots(env, db.nodes) && r' in ForestRoots(env, db.nodes)
               && InSubtree(db.nodes[i].alias, r) && InSubtree(db.nodes[i].alias, r')) ==> r == r'
  {
    ForestRootsAre(env, db);
    var top := RootAbove(db.nodes, i);
    assert db.nodes[top].alias in ForestRoots(env, db.nodes);
    forall r, r' | r in ForestRoots(env, db.nodes) && r' in ForestRoots(env, db.nodes)
        && InSubtree(db.nodes[i].alias, r) && InSubtree(db.nodes[i].alias, r')
      ensures r == r'
    {
      RootsApart(db.nodes[i].alias, r, r');
    }
  }
}
