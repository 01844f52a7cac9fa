/** The registry's authority as the program it is: a database session whose rows are changed in
    place, and the handlers that open, fill and commit one. */
module Authority {
  import opened Prelude
  import opened Aliases
  import opened Paths
  import opened GNodes
  import opened Tables
  import opened Validator
  import opened Transactions
  import opened Invariants
  import opened ForestReads
  import opened Topology
  import opened Runs

  /** What the node table's key, unique index and column types guarantee after every flush. */
  ghost predicate Table(nodes: map<Id, GNode>) {
    && KeyedById(nodes) && UniqueAliases(nodes)
    && (forall i :: i in nodes ==> LeftRightDot(nodes[i].alias))
  }

  lemma SoundTable(db: Registry)
    requires Sound(db)
    ensures Table(db.nodes)
  {}

  /** What the unique index sees when one row is replaced. */
  lemma FreeAfterwards(nodes: map<Id, GNode>, id: Id, row: GNode)
    ensures AliasFree(nodes[id := row], row.alias, id) <==> AliasFree(nodes, row.alias, id)
  {
    forall i | i in nodes && i != id ensures i in nodes[id := row] && nodes[id := row][i] == nodes[i] {}
  }

  lemma TableAfterwards(nodes: map<Id, GNode>, id: Id, row: GNode)
    requires Table(nodes) && row.id == id && LeftRightDot(row.alias) && AliasFree(nodes, row.alias, id)
    ensures Table(nodes[id := row])
  {}

  /** One open transaction. Its changes are seen by its own queries and by nothing else until they
      are committed; dropping it rolls them back. */
  class Session {
    const base: Registry
    var nodes: map<Id, GNode>
    var ledger: map<Alias, Id>

    constructor (db: Registry)
      ensures base == db && nodes == db.nodes && ledger == db.ledger
    {
      base := db;
      nodes, ledger := db.nodes, db.ledger;
    }

    /** `filter_by(alias=a).one_or_none()`. */
    method FindByAlias(a: Alias) returns (row: Option<GNode>)
      requires Table(nodes)
      ensures row == RowAt(nodes, a)
    {
      var hits := set i | i in nodes && nodes[i].alias == a;
      if hits == {} {
        assert forall i :: i in nodes ==> i !in hits;
        return None;
      }
      var i :| i in hits;
      RowAtIs(nodes, i);
      row := Some(nodes[i]);
    }

    /** The rows matching the SQL subtree filter, in the order the table returns them. */
    method SelectSubtree(env: Env, prefix: Alias) returns (ids: seq<Id>)
      requires ValidEnv(env) && LeftRightDot(prefix)
      ensures ids == env.rowOrder(nodes, SubtreeIds(nodes, prefix))
      ensures forall i :: i in ids ==> i in nodes
    {
      var matching := set i | i in nodes && SqlSubtree(nodes[i].alias, prefix);
      assert matching == SubtreeIds(nodes, prefix) by {
        forall i | i in nodes ensures SqlSubtree(nodes[i].alias, prefix) <==> InSubtree(nodes[i].alias, prefix) {
          SqlSubtreeIsPathPrefix(nodes[i].alias, prefix);
        }
      }
      ids := env.rowOrder(nodes, matching);
    }

    /** Inserts the binding unless the alias has one, then reads the owner back. The alias ends up
        bound whatever happens, and never changes hands. */
    method ClaimAlias(alias: Alias, id: Id) returns (owned: bool)
      modifies this`ledger
      ensures owned <==> alias !in old(ledger) || old(ledger)[alias] == id
      ensures alias in ledger && (owned <==> ledger[alias] == id)
      ensures ledger == if alias in old(ledger) then old(ledger) else old(ledger)[alias := id]
      ensures Claim(old(ledger), alias, id) == if owned then Ok(ledger) else Abort
    {
      if alias !in ledger {
        ledger := ledger[alias := id];
      }
      var owner := ledger[alias];
      owned := owner == id;
    }

    /** Adds a row, claims its alias, flushes: primary key, unique alias, foreign key, ledger. */
    method AddNode(n: GNode) returns (ok: bool)
      requires Table(nodes) && nodes == base.nodes && ledger == base.ledger && LeftRightDot(n.alias)
      modifies this
      ensures Insert(base, n) == if ok then Ok(Work(nodes, ledger, [n.id])) else Abort
      ensures ok ==> Table(nodes)
    {
      if n.id in nodes { return false; }
      if exists i :: i in nodes && nodes[i].alias == n.alias {
        return false;
      }
      if n.positionPointId.Some? && n.positionPointId.value !in base.positions { return false; }
      nodes := nodes[n.id := n];
      ok := ClaimAlias(n.alias, n.id);
    }

    /** One row of a rewrite: rename it, flush, claim its new alias. */
    method RenameRow(id: Id, oldPrefix: Alias, newPrefix: Alias, ghost updated: seq<Id>) returns (ok: bool)
      requires Table(nodes) && id in nodes && LeftRightDot(newPrefix) && InSubtree(nodes[id].alias, oldPrefix)
      requires Work(nodes, ledger, updated).Valid()
      modifies this
      ensures Transactions.RenameRow(Work(old(nodes), old(ledger), updated), id, oldPrefix, newPrefix)
              == if ok then Ok(Work(nodes, ledger, AddKey(updated, id))) else Abort
      ensures ok ==> Table(nodes)
    {
      var node := nodes[id];
      var newAlias := RewriteAlias(node.alias, oldPrefix, newPrefix);
      RewriteKeepsFormat(node.alias, oldPrefix, newPrefix);
      FreeAfterwards(nodes, id, node.(prevAlias := Some(node.alias), alias := newAlias));
      if AliasFree(nodes, newAlias, id) { TableAfterwards(nodes, id, node.(prevAlias := Some(node.alias), alias := newAlias)); }
      nodes := nodes[id := node.(prevAlias := Some(node.alias), alias := newAlias)];
      if exists i :: i in nodes && i != id && nodes[i].alias == newAlias {
        return false;
      }
      ok := ClaimAlias(newAlias, id);
    }

    /** Renames and claims the rows of a subtree one by one, recording each. They are selected
        once, before the first rename; the unique index holds after every one of them. */
    method RewritePrefix(env: Env, oldPrefix: Alias, newPrefix: Alias, updated: seq<Id>)
      returns (ok: bool, touched: seq<Id>)
      requires ValidEnv(env) && LeftRightDot(oldPrefix) && LeftRightDot(newPrefix)
      requires Table(nodes) && Work(nodes, ledger, updated).Valid()
      modifies this
      ensures ok ==> Work(nodes, ledger, touched).Valid() && Table(nodes)
      ensures Transactions.RewritePrefix(env, Work(old(nodes), old(ledger), updated), oldPrefix, newPrefix)
              == if ok then Ok(Work(nodes, ledger, touched)) else Abort
    {
      ghost var start := Work(nodes, ledger, updated);
      var affected := SelectSubtree(env, oldPrefix);
      touched := updated;
      for k := 0 to |affected|
        invariant nodes.Keys == start.nodes.Keys && Work(nodes, ledger, touched).Valid() && Table(nodes)
        invariant forall j :: k <= j < |affected| ==> affected[j] in nodes && nodes[affected[j]] == start.nodes[affected[j]]
        invariant RenameRows(start, affected, oldPrefix, newPrefix)
                  == RenameRows(Work(nodes, ledger, touched), affected[k..], oldPrefix, newPrefix)
      {
        var id := affected[k];
        assert id in affected && affected[k..][0] == id && affected[k..][1..] == affected[k + 1..];
        var renamed := RenameRow(id, oldPrefix, newPrefix, touched);
        if !renamed { return false, touched; }
        touched := AddKey(touched, id);
      }
      assert affected[|affected|..] == [];
      ok := true;
    }

    /** The rewrite loop over the moved children, each looked up when its turn comes. */
    method MoveChildren(env: Env, children: seq<Id>, n: GNode) returns (outcome: Attempt<seq<Id>>)
      requires ValidEnv(env) && LeftRightDot(n.alias)
      requires Table(nodes) && Work(nodes, ledger, [n.id]).Valid()
      modifies this
      ensures outcome.Ok? ==> Work(nodes, ledger, outcome.value).Valid() && Table(nodes)
      ensures Transactions.MoveChildren(env, Work(old(nodes), old(ledger), [n.id]), children, n.alias)
              == match outcome case Ok(touched) => Ok(Work(nodes, ledger, touched)) case Refuse => Refuse case Abort => Abort
    {
      ghost var start := Work(nodes, ledger, [n.id]);
      var touched := [n.id];
      for k := 0 to |children|
        invariant Work(nodes, ledger, touched).Valid() && Table(nodes)
        invariant Transactions.MoveChildren(env, start, children, n.alias)
                  == Transactions.MoveChildren(env, Work(nodes, ledger, touched), children[k..], n.alias)
      {
        assert children[k..][0] == children[k] && children[k..][1..] == children[k + 1..];
        if children[k] !in nodes { return Refuse; }
        var oldPrefix := nodes[children[k]].alias;
        var newPrefix := MovedPrefix(n.alias, oldPrefix);
        MovedPrefixKeepsFormat(n.alias, oldPrefix);
        var ok;
        ok, touched := RewritePrefix(env, oldPrefix, newPrefix, touched);
        if !ok { return Abort; }
      }
      assert children[|children|..] == [];
      outcome := Ok(touched);
    }

    /** Inserts N and rewrites the subtrees moved under it. */
    method Rewrite(env: Env, cmd: Command) returns (outcome: Attempt<seq<Id>>)
      requires ValidEnv(env) && cmd.ReparentCmd? && LeftRightDot(cmd.newNode.alias)
      requires Table(nodes) && nodes == base.nodes && ledger == base.ledger
      modifies this
      ensures outcome.Ok? ==> Work(nodes, ledger, outcome.value).Valid() && Table(nodes)
      ensures Rewritten(env, base, cmd)
              == match outcome case Ok(touched) => Ok(Work(nodes, ledger, touched)) case Refuse => Refuse case Abort => Abort
    {
      var ok := AddNode(cmd.newNode);
      if !ok { return Abort; }
      outcome := MoveChildren(env, cmd.movedChildIds, cmd.newNode);
    }

    /** A new non-root needs its parent row, Pending or Active. */
    method ParentAdmits(a: Alias) returns (ok: bool)
      requires Table(nodes)
      ensures ok == Transactions.ParentAdmits(nodes, a)
      ensures ok <==> exists p :: p in nodes && nodes[p].alias == ParentAlias(a) && (nodes[p].status.Pending? || nodes[p].status.Active?)
    {
      forall p | p in nodes { RowAtIs(nodes, p); }
      var parent := FindByAlias(ParentAlias(a));
      ok := parent.Some? && (parent.value.status.Pending? || parent.value.status.Active?);
    }

    /** The pre-check's inner loop: the claims of one child's subtree. */
    method PredictSubtree(ids: seq<Id>, prior: Alias, newPrefix: Alias, intended: map<Alias, Id>) returns (more: map<Alias, Id>)
      requires forall i :: i in ids ==> i in nodes
      ensures more == Predict(nodes, ids, prior, newPrefix, intended)
    {
      more := intended;
      assert ids[0..] == ids && ids[|ids|..] == [];
      for j := 0 to |ids|
        invariant Predict(nodes, ids, prior, newPrefix, intended) == Predict(nodes, ids[j..], prior, newPrefix, more)
      {
        assert ids[j..][0] == ids[j] && ids[j..][1..] == ids[j + 1..];
        assert ids[j] in ids;
        more := more[RewriteAlias(nodes[ids[j]].alias, prior, newPrefix) := ids[j]];
      }
    }

    /** The collision pre-check's prediction of every claim the rewrite will make. */
    method IntendedClaims(env: Env, children: seq<Id>, n: GNode) returns (outcome: Attempt<map<Alias, Id>>)
      requires ValidEnv(env) && Table(nodes)
      ensures outcome == Intended(env, nodes, children, n.alias, map[n.alias := n.id])
    {
      var intended := map[n.alias := n.id];
      for k := 0 to |children|
        invariant Intended(env, nodes, children, n.alias, map[n.alias := n.id])
                  == Intended(env, nodes, children[k..], n.alias, intended)
      {
        assert children[k..][0] == children[k] && children[k..][1..] == children[k + 1..];
        if children[k] !in nodes { return Refuse; }
        var prior := nodes[children[k]].alias;
        var newPrefix := MovedPrefix(n.alias, prior);
        var ids := SelectSubtree(env, prior);
        intended := PredictSubtree(ids, prior, newPrefix, intended);
      }
      assert children[|children|..] == [];
      outcome := Ok(intended);
    }
  }

  /** The rows not seen before, appended in order and recorded as seen. */
  method AppendUnseen(nodes: seq<GNode>, seen: set<Id>, rows: seq<GNode>) returns (nodes': seq<GNode>, seen': set<Id>)
    ensures nodes' == nodes + NewRows(rows, seen)
    ensures seen' == seen + RowIds(NewRows(rows, seen))
  {
    nodes', seen' := nodes, seen;
    ghost var added := [];
    for k := 0 to |rows|
      invariant nodes' == nodes + added && seen' == seen + RowIds(added)
      invariant NewRows(rows, seen) == added + NewRows(rows[k..], seen')
    {
      assert rows[k..][0] == rows[k] && rows[k..][1..] == rows[k + 1..];
      if rows[k].id !in seen' {
        seen' := seen' + {rows[k].id};
        nodes' := nodes' + [rows[k]];
        added := added + [rows[k]];
      }
    }
    assert rows[|rows|..] == [];
  }

  lemma RowIdsAppend(xs: seq<GNode>, ys: seq<GNode>)
    ensures RowIds(xs + ys) == RowIds(xs) + RowIds(ys)
  {}

  lemma ForestRowsTurn(env: Env, nodes: map<Id, GNode>, roots: seq<Alias>, r: nat, acc: seq<GNode>, seen: set<Id>)
    requires ValidEnv(env) && r < |roots|
    ensures var rows := NewRows(SubtreeRows(env, nodes, roots[r]), seen);
            acc + ForestRows(env, nodes, roots[r..], seen)
            == (acc + rows) + ForestRows(env, nodes, roots[r + 1..], seen + RowIds(rows))
  {
    assert roots[r..][0] == roots[r] && roots[r..][1..] == roots[r + 1..];
  }

  /** The single-writer registry. */
  class PostgresAuthority {
    const env: Env
    var db: Registry

    ghost predicate Valid()
      reads this
    {
      ValidEnv(env) && Sound(db)
    }

    /** A registry on freshly migrated tables. */
    constructor (env: Env, positions: set<Id>)
      requires ValidEnv(env)
      ensures Valid() && this.env == env && db == Empty(positions)
    {
      this.env := env;
      db := Empty(positions);
      new;
      EmptySound(env, positions);
    }

    // ---- reads ----

    method ResolveAlias(alias: Alias) returns (row: Option<GNode>)
      requires Valid()
      ensures row == Runs.ResolveAlias(db, alias)
      ensures row.Some? ==> ValidGNode(row.value)
    {
      SoundTable(db);
      var s := new Session(db);
      row := s.FindByAlias(alias);
      if row.Some? { return; }
      if alias !in db.ledger { return None; }
      var owner := db.ledger[alias];
      row := if owner in db.nodes then Some(db.nodes[owner]) else None;
    }

    method ForestRoots() returns (roots: seq<Alias>)
      requires Valid()
      ensures roots == Transactions.ForestRoots(env, db.nodes)
      ensures forall a :: a in roots <==> exists i :: i in db.nodes && db.nodes[i].alias == a && IsForestRoot(a)
      ensures Distinct(roots) && SortedBy(roots, StringLeq)
    {
      ForestRootsAre(env, db);
      roots := SortBy(AliasesOf(Rows(db.nodes, env.rowOrder(db.nodes, RootIds(db.nodes)))), StringLeq);
    }

    method GetForest(roots: seq<Alias>) returns (forest: Option<Forest>)
      requires ValidEnv(env) && forall r :: r in roots ==> LeftRightDot(r)
      ensures forest == Transactions.GetForest(env, db, roots)
      ensures Constraints(db) && forest.Some? ==> InForestOrder(env, forest.value.nodes, roots)
    {
      var nodes: seq<GNode>, seen: set<Id> := [], {};
      var s := new Session(db);
      for r := 0 to |roots|
        invariant s.nodes == db.nodes && seen == RowIds(nodes)
        invariant ForestRows(env, db.nodes, roots, {}) == nodes + ForestRows(env, db.nodes, roots[r..], seen)
      {
        assert roots[r] in roots;
        ForestRowsTurn(env, db.nodes, roots, r, nodes, seen);
        RowIdsAppend(nodes, NewRows(SubtreeRows(env, db.nodes, roots[r]), seen));
        var ids := s.SelectSubtree(env, roots[r]);
        var rows := SortBy(Rows(db.nodes, ids), ByAlias(env));
        nodes, seen := AppendUnseen(nodes, seen, rows);
      }
      assert roots[|roots|..] == [];
      assert nodes + [] == nodes;
      assert nodes == ForestRows(env, db.nodes, roots, {});
      var edges := ForestEdges(env, db, seen);
      forest := if Serializable(nodes, edges) then Some(Forest(roots, nodes, edges)) else None;
      if Constraints(db) { ForestRowsOrdered(env, db.nodes, roots, {}); }
    }

    // ---- the commands ----

    /** The answer to a command that is in the log already. */
    method Replay(a: Alias) returns (verdict: Verdict)
      requires ValidEnv(env) && LeftRightDot(a)
      ensures Result(db, verdict) == Repeat(env, db, a)
    {
      var forest := GetForest([a]);
      verdict := if forest.Some? then Applied(forest.value) else Aborted;
    }

    method HandleCreate(cmd: Command) returns (verdict: Verdict)
      requires ValidEnv(env) && Table(db.nodes) && cmd.CreateCmd? && ValidCommand(cmd)
      modifies this
      ensures Result(db, verdict) == Transactions.ApplyCreate(env, old(db), cmd)
    {
      var n := cmd.newNode;
      if !env.proofOk(cmd.proof) { return Refused; }
      if cmd in db.log {
        verdict := Replay(n.alias);
        return;
      }
      if UniverseOf(n.alias) != env.universe { return Refused; }
      if n.id in db.nodes { return Refused; }
      if n.alias in db.ledger && db.ledger[n.alias] != n.id { return Refused; }
      var s := new Session(db);
      if !IsForestRoot(n.alias) {
        var admitted := s.ParentAdmits(n.alias);
        if !admitted { return Refused; }
      }
      var ok := s.AddNode(n);
      if !ok { return Aborted; }
      var violations := ValidateRegistry(s.nodes, db.edges, db.positions, env.universe);
      if violations != [] { return Refused; }
      if !Serializable([s.nodes[n.id]], []) { return Aborted; }
      verdict := Applied(Forest([n.alias], [s.nodes[n.id]], []));
      db := db.(nodes := s.nodes, ledger := s.ledger, log := db.log + [cmd]);
    }

    method HandleReparent(cmd: Command) returns (verdict: Verdict)
      requires ValidEnv(env) && Table(db.nodes) && cmd.ReparentCmd? && ValidCommand(cmd)
      modifies this
      ensures Result(db, verdict) == Transactions.ApplyReparent(env, old(db), cmd)
    {
      var n := cmd.newNode;
      if !env.proofOk(cmd.proof) { return Refused; }
      if cmd in db.log {
        verdict := Replay(n.alias);
        return;
      }
      if UniverseOf(n.alias) != env.universe { return Refused; }
      if IsForestRoot(n.alias) { return Refused; }
      var s := new Session(db);
      var e := s.FindByAlias(ParentAlias(n.alias));
      if e.None? { return Refused; }
      var intended := s.IntendedClaims(env, cmd.movedChildIds, n);
      if !intended.Ok? { return Refused; }
      if exists a :: a in intended.value && a in s.ledger && s.ledger[a] != intended.value[a] {
        return Refused;
      }
      var moved := s.Rewrite(env, cmd);
      if moved.Refuse? { return Refused; }
      if moved.Abort? { return Aborted; }
      verdict := FinishReparent(cmd, s, moved.value);
    }

    /** Validates the rewritten session, assembles the broadcast and commits. */
    method FinishReparent(cmd: Command, s: Session, updated: seq<Id>) returns (verdict: Verdict)
      requires ValidEnv(env) && Table(s.nodes) && Work(s.nodes, s.ledger, updated).Valid()
      modifies this
      ensures Result(db, verdict) == Transactions.FinishReparent(env, old(db), cmd, Work(old(s.nodes), old(s.ledger), updated))
    {
      var violations := ValidateRegistry(s.nodes, db.edges, db.positions, env.universe);
      if violations != [] { return Refused; }
      var rows := Rows(s.nodes, updated);
      var edges := EdgeRows(db.edges, env.edgeOrder(db.edges, ActiveEdgeIds(db.edges, Members(updated))));
      if !Serializable(rows, edges) { return Aborted; }
      verdict := Applied(Forest([cmd.newNode.alias], rows, edges));
      db := db.(nodes := s.nodes, ledger := s.ledger, log := db.log + [cmd]);
    }

    /** One command, committed as a whole or not at all; the registry stays sound. */
    method Apply(cmd: Command) returns (verdict: Verdict)
      requires Valid() && ValidCommand(cmd)
      modifies this
      ensures Valid() && Result(db, verdict) == Step(env, old(db), cmd)
      ensures Extends(old(db), db) && (!verdict.Applied? ==> db == old(db))
    {
      SoundTable(db);
      StepKeepsSound(env, db, cmd);
      if cmd.CreateCmd? {
        verdict := HandleCreate(cmd);
      } else {
        verdict := HandleReparent(cmd);
      }
    }
  }
}
