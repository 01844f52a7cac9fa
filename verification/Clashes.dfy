/** Re-parents that name their children badly, and what becomes of them: two children with one last
    word, or one child twice. */
module Clashes {
  import opened Prelude
  import opened Aliases
  import opened GNodes
  import opened Tables
  import opened Validator
  import opened Transactions
  import opened Invariants
  import opened Rewriting
  import opened Reparents
  import opened Topology
  import opened Orphans

  // ---- two children with one last word ----

  lemma RenamedLastWord(a: Alias, p: Alias, n: Alias)
    requires InSubtree(a, p)
    ensures LastWord(RewriteAlias(a, p, MovedPrefix(n, p))) == LastWord(a)
  {
    MovedPrefixIsChild(n, p);
    if a == p {
      assert RewriteAlias(p, p, MovedPrefix(n, p)) == MovedPrefix(n, p);
    } else {
      RewriteCommutesWithParent(a, p, MovedPrefix(n, p));
    }
  }

  /** One turn of the loop over the children: last words stay, owners stay, and the child owns its
      name under N. */
  ghost predicate TurnTaken(w: Work, w': Work, c: Id, n: Alias) {
    && w'.nodes.Keys == w.nodes.Keys
    && (forall i :: i in w.nodes ==> LastWord(w'.nodes[i].alias) == LastWord(w.nodes[i].alias))
    && (forall a :: a in w.ledger ==> a in w'.ledger && w'.ledger[a] == w.ledger[a])
    && (c in w.nodes ==> var a := MovedPrefix(n, w.nodes[c].alias); a in w'.ledger && w'.ledger[a] == c)
  }

  lemma RelocatedLastWords(nodes: map<Id, GNode>, p: Alias, n: Alias)
    ensures var after := Relocated(nodes, SubtreeIds(nodes, p), p, MovedPrefix(n, p));
            forall i :: i in nodes ==> LastWord(after[i].alias) == LastWord(nodes[i].alias)
  {
    forall i | i in SubtreeIds(nodes, p)
      ensures LastWord(RewriteAlias(nodes[i].alias, p, MovedPrefix(n, p))) == LastWord(nodes[i].alias)
    {
      RenamedLastWord(nodes[i].alias, p, n);
    }
  }

  lemma TurnClaims(l0: map<Alias, Id>, l1: map<Alias, Id>, nodes: map<Id, GNode>, c: Id, q: Alias)
    requires c in nodes && LedgerGrew(l0, l1, nodes, SubtreeIds(nodes, nodes[c].alias), nodes[c].alias, q)
    ensures q in l1 && l1[q] == c && forall a :: a in l0 ==> a in l1 && l1[a] == l0[a]
  {
    var p := nodes[c].alias;
    assert c in SubtreeIds(nodes, p) && RewriteAlias(p, p, q) == q;
  }

  lemma TurnTakes(env: Env, w: Work, c: Id, n: Alias)
    requires ValidEnv(env) && w.Valid() && c in w.nodes
    requires RewritePrefix(env, w, w.nodes[c].alias, MovedPrefix(n, w.nodes[c].alias)).Ok?
    ensures TurnTaken(w, RewritePrefix(env, w, w.nodes[c].alias, MovedPrefix(n, w.nodes[c].alias)).value, c, n)
  {
    var p := w.nodes[c].alias;
    var q := MovedPrefix(n, p);
    var ids := env.rowOrder(w.nodes, SubtreeIds(w.nodes, p));
    assert Members(ids) == SubtreeIds(w.nodes, p);
    RenameRowsResult(w, ids, p, q);
    RenameRowsClaims(w, ids, p, q);
    RelocatedLastWords(w.nodes, p, n);
    TurnClaims(w.ledger, RewritePrefix(env, w, p, q).value.ledger, w.nodes, c, q);
  }

  /** Every child named owns its name under N. */
  ghost predicate NamesOwned(w: Work, ledger: map<Alias, Id>, children: seq<Id>, n: Alias) {
    forall c :: c in children ==>
      c in w.nodes && MovedPrefix(n, w.nodes[c].alias) in ledger && ledger[MovedPrefix(n, w.nodes[c].alias)] == c
  }

  lemma {:induction false} MovesOwnNames(env: Env, w: Work, children: seq<Id>, n: Alias)
    requires ValidEnv(env) && w.Valid() && MoveChildren(env, w, children, n).Ok?
    ensures var w' := MoveChildren(env, w, children, n).value;
            && NamesOwned(w, w'.ledger, children, n)
            && (forall a :: a in w.ledger ==> a in w'.ledger && w'.ledger[a] == w.ledger[a])
    decreases |children|
  {
    if children != [] {
      var c := children[0];
      var w1 := RewritePrefix(env, w, w.nodes[c].alias, MovedPrefix(n, w.nodes[c].alias)).value;
      TurnTakes(env, w, c, n);
      MovesOwnNames(env, w1, children[1..], n);
      NamesOwnedCons(w, w1, MoveChildren(env, w, children, n).value.ledger, children, n);
    }
  }

  lemma NamesOwnedCons(w: Work, w1: Work, ledger: map<Alias, Id>, children: seq<Id>, n: Alias)
    requires children != [] && children[0] in w.nodes && TurnTaken(w, w1, children[0], n)
    requires forall a :: a in w1.ledger ==> a in ledger && ledger[a] == w1.ledger[a]
    requires NamesOwned(w1, ledger, children[1..], n)
    ensures NamesOwned(w, ledger, children, n)
  {
    forall c | c in children
      ensures c in w.nodes && MovedPrefix(n, w.nodes[c].alias) in ledger && ledger[MovedPrefix(n, w.nodes[c].alias)] == c
    {
      if c != children[0] {
        assert c in children[1..];
        assert MovedPrefix(n, w1.nodes[c].alias) == MovedPrefix(n, w.nodes[c].alias);
      }
    }
  }

  lemma {:induction false} MovesNeverRefuse(env: Env, w: Work, children: seq<Id>, n: Alias)
    requires ValidEnv(env) && w.Valid() && forall c :: c in children ==> c in w.nodes
    ensures !MoveChildren(env, w, children, n).Refuse?
    decreases |children|
  {
    if children != [] {
      assert children[0] in children;
      var r := RewritePrefix(env, w, w.nodes[children[0]].alias, MovedPrefix(n, w.nodes[children[0]].alias));
      if r.Ok? { MovesNeverRefuse(env, r.value, children[1..], n); }
    }
  }

  lemma GuardedNeverRefusesLate(env: Env, db: Registry, cmd: Command)
    requires ValidEnv(env) && cmd.ReparentCmd? && Guarded(env, db, cmd)
    ensures forall c :: c in cmd.movedChildIds ==> c in db.nodes
    ensures !Rewritten(env, db, cmd).Refuse?
  {
    var n := cmd.newNode;
    IntendedNamesExist(env, db.nodes, cmd.movedChildIds, n.alias, map[n.alias := n.id]);
    if Insert(db, n).Ok? { MovesNeverRefuse(env, Insert(db, n).value, cmd.movedChildIds, n.alias); }
  }

  /** Two children that share a last word both want the same alias under N. The pre-check cannot see
      it: the command is refused if its guards refuse it, and otherwise aborted. */
  lemma SharedLastWordAborts(env: Env, db: Registry, cmd: Command, c: Id, d: Id)
    requires ValidEnv(env) && cmd.ReparentCmd? && cmd !in db.log
    requires c in cmd.movedChildIds && d in cmd.movedChildIds && c != d && c in db.nodes && d in db.nodes
    requires LastWord(db.nodes[c].alias) == LastWord(db.nodes[d].alias)
    ensures var r := Step(env, db, cmd);
            r.db == db && if Guarded(env, db, cmd) then r.verdict.Aborted? else r.verdict.Refused?
  {
    UnguardedRefused(env, db, cmd);
    if Guarded(env, db, cmd) {
      GuardedNeverRefusesLate(env, db, cmd);
      if Rewritten(env, db, cmd).Ok? { SharedNameFails(env, db, cmd, c, d); }
    }
  }

  lemma SharedNameFails(env: Env, db: Registry, cmd: Command, c: Id, d: Id)
    requires ValidEnv(env) && cmd.ReparentCmd?
    requires c in cmd.movedChildIds && d in cmd.movedChildIds && c != d && c in db.nodes && d in db.nodes
    requires LastWord(db.nodes[c].alias) == LastWord(db.nodes[d].alias)
    ensures !Rewritten(env, db, cmd).Ok?
  {
    var n := cmd.newNode;
    if Rewritten(env, db, cmd).Ok? {
      var w := Insert(db, n).value;
      assert w.nodes == db.nodes[n.id := n] && n.id !in db.nodes;
      assert MovedPrefix(n.alias, w.nodes[c].alias) == MovedPrefix(n.alias, w.nodes[d].alias);
      MovesOwnNames(env, w, cmd.movedChildIds, n.alias);
    }
  }

  // ---- one child twice ----

  /** Well-formed but for children named more than once. */
  ghost predicate Repeating(nodes: map<Id, GNode>, cmd: Command) {
    && cmd.ReparentCmd? && cmd.newNode.id !in nodes
    && ChildrenOf(nodes, cmd.movedChildIds, ParentAlias(cmd.newNode.alias)) && !Distinct(cmd.movedChildIds)
  }

  lemma SubtreeRewrites(a: Alias, b: Alias, p: Alias, q: Alias)
    requires InSubtree(b, p) && InSubtree(a, b)
    ensures InSubtree(RewriteAlias(a, p, q), RewriteAlias(b, p, q))
  {
    if a != b {
      var rest := a[|b|..];
      assert a == b + rest && "." <= rest;
      RewriteExtends(b, p, q, rest);
      assert RewriteAlias(b, p, q) + "." <= RewriteAlias(b, p, q) + rest;
    }
  }

  lemma SubtreeRewritesIff(a: Alias, b: Alias, p: Alias, q: Alias)
    requires InSubtree(a, p) && InSubtree(b, p)
    ensures InSubtree(a, b) <==> InSubtree(RewriteAlias(a, p, q), RewriteAlias(b, p, q))
  {
    RewriteInverts(a, p, q);
    RewriteInverts(b, p, q);
    if InSubtree(a, b) { SubtreeRewrites(a, b, p, q); }
    if InSubtree(RewriteAlias(a, p, q), RewriteAlias(b, p, q)) {
      SubtreeRewrites(RewriteAlias(a, p, q), RewriteAlias(b, p, q), q, p);
    }
  }

  /** The table a re-parent under `n` of children of `e` starts from. */
  ghost predicate Scene(env: Env, nodes: map<Id, GNode>, n: GNode, e: Alias) {
    && ValidEnv(env) && UniqueAliases(nodes) && n.id !in nodes
    && Dotted(n.alias) && ParentAlias(n.alias) == e
    && forall i :: i in nodes ==> !InSubtree(nodes[i].alias, n.alias)
  }

  ghost predicate IsChild(nodes: map<Id, GNode>, c: Id, e: Alias) {
    c in nodes && Dotted(nodes[c].alias) && ParentAlias(nodes[c].alias) == e
  }

  /** But for their previous aliases, the rows are where moving `done` puts them. */
  ghost predicate Placed(w: Work, nodes: map<Id, GNode>, done: set<Id>, n: GNode, e: Alias) {
    && w.nodes.Keys == nodes.Keys + {n.id} && done <= nodes.Keys && w.nodes[n.id] == n
    && (forall i :: i in done ==> Below(nodes[i].alias, e))
    && (forall i :: i in nodes ==>
          var g := if i in done then Renamed(nodes[i], e, n.alias) else nodes[i];
          w.nodes[i] == g.(prevAlias := w.nodes[i].prevAlias))
    && (forall i :: i in w.updated <==> i == n.id || i in done)
  }

  /** The same work with the previous aliases of a first move. */
  ghost function Straight(w: Work, nodes: map<Id, GNode>, done: set<Id>, n: GNode, e: Alias): Work {
    Work(Relocated(nodes, done, e, n.alias)[n.id := n], w.ledger, w.updated)
  }

  lemma StraightMoved(w: Work, nodes: map<Id, GNode>, done: set<Id>, n: GNode, e: Alias)
    requires n.id !in nodes && Placed(w, nodes, done, n, e)
    ensures MovedSoFar(Straight(w, nodes, done, n, e), nodes, done, n, e)
    ensures forall i :: i in w.nodes <==> i in Straight(w, nodes, done, n, e).nodes
    ensures forall i :: i in w.nodes ==> Straight(w, nodes, done, n, e).nodes[i].alias == w.nodes[i].alias
  {}

  /** A child whose turn comes for the first time: its subtree is where it was. */
  lemma FirstTurn(env: Env, w: Work, nodes: map<Id, GNode>, done: set<Id>, n: GNode, e: Alias, c: Id)
    requires Scene(env, nodes, n, e) && Placed(w, nodes, done, n, e) && IsChild(nodes, c, e)
    requires SubtreeIds(nodes, nodes[c].alias) !! done
    ensures w.nodes[c].alias == nodes[c].alias
    ensures SubtreeIds(w.nodes, nodes[c].alias) == SubtreeIds(nodes, nodes[c].alias)
    ensures forall i :: i in SubtreeIds(nodes, nodes[c].alias) ==> w.nodes[i].alias == nodes[i].alias
  {
    var p := nodes[c].alias;
    assert c in SubtreeIds(nodes, p);
    StraightMoved(w, nodes, done, n, e);
    SiblingRowsUntouched(Straight(w, nodes, done, n, e), nodes, done, n, e, p);
    assert SubtreeIds(w.nodes, p) == SubtreeIds(Straight(w, nodes, done, n, e).nodes, p);
  }

  lemma MovedUnder(env: Env, w: Work, nodes: map<Id, GNode>, done: set<Id>, n: GNode, e: Alias, c: Id, i: Id)
    requires Scene(env, nodes, n, e) && Placed(w, nodes, done, n, e) && IsChild(nodes, c, e)
    requires SubtreeIds(nodes, nodes[c].alias) <= done && i in w.nodes
    ensures InSubtree(w.nodes[i].alias, RewriteAlias(nodes[c].alias, e, n.alias)) <==> i in SubtreeIds(nodes, nodes[c].alias)
  {
    var q := RewriteAlias(nodes[c].alias, e, n.alias);
    BelowOwnParent(nodes[c].alias);
    RewriteCommutesWithParent(nodes[c].alias, e, n.alias);
    BelowSuffix(q, n.alias);
    if i == n.id {
      if InSubtree(n.alias, q) { BelowLonger(n.alias, q); }
    } else if i in done {
      SubtreeRewritesIff(nodes[i].alias, nodes[c].alias, e, n.alias);
    } else if InSubtree(w.nodes[i].alias, q) {
      SubtreeTransitive(w.nodes[i].alias, q, n.alias);
    }
  }

  lemma BelowLonger(a: Alias, p: Alias)
    requires InSubtree(a, p)
    ensures |a| >= |p|
  {}

  /** A child whose turn comes again: its subtree is under N, and its name there is its own. */
  lemma LaterTurn(env: Env, w: Work, nodes: map<Id, GNode>, done: set<Id>, n: GNode, e: Alias, c: Id)
    requires Scene(env, nodes, n, e) && Placed(w, nodes, done, n, e) && IsChild(nodes, c, e)
    requires SubtreeIds(nodes, nodes[c].alias) <= done
    ensures var p := w.nodes[c].alias;
            && p == RewriteAlias(nodes[c].alias, e, n.alias) && MovedPrefix(n.alias, p) == p
            && SubtreeIds(w.nodes, p) == SubtreeIds(nodes, nodes[c].alias)
  {
    assert c in SubtreeIds(nodes, nodes[c].alias);
    var p := w.nodes[c].alias;
    BelowOwnParent(nodes[c].alias);
    RewriteCommutesWithParent(nodes[c].alias, e, n.alias);
    assert RewriteAlias(e, e, n.alias) == n.alias;
    SplitLast(p);
    forall i | i in w.nodes ensures InSubtree(w.nodes[i].alias, p) <==> i in SubtreeIds(nodes, nodes[c].alias) {
      MovedUnder(env, w, nodes, done, n, e, c, i);
    }
  }

  /** The rows a turn renames, and that each gets the alias a first move gives it. */
  ghost predicate Renames(w: Work, nodes: map<Id, GNode>, sub: set<Id>, p: Alias, q: Alias, e: Alias, n: Alias) {
    && SubtreeIds(w.nodes, p) == sub && sub <= nodes.Keys
    && forall i :: i in sub ==> RewriteAlias(w.nodes[i].alias, p, q) == RewriteAlias(nodes[i].alias, e, n)
  }

  lemma TurnRenames(env: Env, w: Work, nodes: map<Id, GNode>, done: set<Id>, n: GNode, e: Alias, c: Id)
    requires Scene(env, nodes, n, e) && Placed(w, nodes, done, n, e) && IsChild(nodes, c, e)
    requires SubtreeIds(nodes, nodes[c].alias) !! done || SubtreeIds(nodes, nodes[c].alias) <= done
    ensures Renames(w, nodes, SubtreeIds(nodes, nodes[c].alias), w.nodes[c].alias, MovedPrefix(n.alias, w.nodes[c].alias), e, n.alias)
  {
    var sub := SubtreeIds(nodes, nodes[c].alias);
    assert c in sub;
    if sub <= done {
      LaterTurn(env, w, nodes, done, n, e, c);
      forall i | i in sub ensures RewriteAlias(w.nodes[i].alias, w.nodes[c].alias, w.nodes[c].alias) == w.nodes[i].alias {
        assert i in SubtreeIds(w.nodes, w.nodes[c].alias);
        RewriteToItself(w.nodes[i].alias, w.nodes[c].alias);
      }
    } else {
      FirstTurn(env, w, nodes, done, n, e, c);
      ChildRowsSwap(nodes, c, e, n.alias);
    }
  }

  lemma RewriteToItself(a: Alias, p: Alias)
    requires InSubtree(a, p)
    ensures RewriteAlias(a, p, p) == a
  {
    assert a == p + a[|p|..];
  }

  /** A row that was renamed to the alias it had. */
  predicate Jammed(g: GNode) { g.prevAlias == Some(g.alias) }

  lemma PlacedAfter(w: Work, w': Work, nodes: map<Id, GNode>, done: set<Id>, n: GNode, e: Alias, sub: set<Id>, p: Alias, q: Alias)
    requires Placed(w, nodes, done, n, e) && n.id !in nodes && Renames(w, nodes, sub, p, q, e, n.alias)
    requires w'.nodes == Relocated(w.nodes, sub, p, q) && forall i :: i in w'.updated <==> i in w.updated || i in sub
    requires forall i :: i in sub ==> Below(nodes[i].alias, e)
    ensures Placed(w', nodes, done + sub, n, e)
  {}

  lemma JamsStay(w: Work, w': Work, nodes: map<Id, GNode>, done: set<Id>, n: GNode, e: Alias, sub: set<Id>, p: Alias, q: Alias)
    requires Placed(w, nodes, done, n, e) && n.id !in nodes && Renames(w, nodes, sub, p, q, e, n.alias)
    requires w'.nodes == Relocated(w.nodes, sub, p, q)
    ensures forall i :: i in done && Jammed(w.nodes[i]) ==> Jammed(w'.nodes[i])
    ensures forall i :: i in done && i in sub ==> Jammed(w'.nodes[i])
  {}

  /** The loop over the children, some turns in. */
  ghost predicate Playing(env: Env, w: Work, nodes: map<Id, GNode>, done: set<Id>, n: GNode, e: Alias, claims: map<Alias, Id>) {
    Scene(env, nodes, n, e) && Placed(w, nodes, done, n, e) && WorkSound(w) && Agree(w.ledger, claims)
  }

  /** Every turn gets through; a later one jams the child. */
  lemma TakeTurn(env: Env, w: Work, nodes: map<Id, GNode>, done: set<Id>, n: GNode, e: Alias, claims: map<Alias, Id>, c: Id)
    requires Playing(env, w, nodes, done, n, e, claims) && IsChild(nodes, c, e)
    requires Claims(claims, nodes, SubtreeIds(nodes, nodes[c].alias), e, n.alias)
    requires SubtreeIds(nodes, nodes[c].alias) !! done || SubtreeIds(nodes, nodes[c].alias) <= done
    ensures c in w.nodes
    ensures var r, sub := RewritePrefix(env, w, w.nodes[c].alias, MovedPrefix(n.alias, w.nodes[c].alias)), SubtreeIds(nodes, nodes[c].alias);
            && r.Ok? && Playing(env, r.value, nodes, done + sub, n, e, claims)
            && (forall i :: i in done && Jammed(w.nodes[i]) ==> Jammed(r.value.nodes[i]))
            && (c in done ==> Jammed(r.value.nodes[c]))
  {
    var p, sub := w.nodes[c].alias, SubtreeIds(nodes, nodes[c].alias);
    var q := MovedPrefix(n.alias, p);
    var ids := env.rowOrder(w.nodes, SubtreeIds(w.nodes, p));
    assert c in sub;
    TurnRenames(env, w, nodes, done, n, e, c);
    assert Members(ids) == sub;
    ChildRowsSwap(nodes, c, e, n.alias);
    RenameRowsSucceeds(w, ids, p, q, claims);
    RenameRowsResult(w, ids, p, q);
    RenameRowsAdvances(w, ids, p, q);
    var w' := RewritePrefix(env, w, p, q).value;
    PlacedAfter(w, w', nodes, done, n, e, sub, p, q);
    JamsStay(w, w', nodes, done, n, e, sub, p, q);
  }

  /** A child's subtree has been moved whole, with the child, or not at all. */
  lemma WholeOrNot(nodes: map<Id, GNode>, xs: seq<Id>, c: Id, e: Alias)
    requires UniqueAliases(nodes) && ChildrenOf(nodes, xs, e) && IsChild(nodes, c, e)
    ensures if c in xs then SubtreeIds(nodes, nodes[c].alias) <= MovedIds(nodes, xs)
            else SubtreeIds(nodes, nodes[c].alias) !! MovedIds(nodes, xs)
    ensures c in MovedIds(nodes, xs) <==> c in xs
  {
    assert c in SubtreeIds(nodes, nodes[c].alias);
    if c !in xs {
      forall i | i in SubtreeIds(nodes, nodes[c].alias) ensures i !in MovedIds(nodes, xs) {
        forall x | x in xs ensures !InSubtree(nodes[i].alias, nodes[x].alias) {
          SiblingsDisjoint(nodes[i].alias, nodes[c].alias, nodes[x].alias);
        }
      }
    }
  }

  lemma MovedIdsSnoc(nodes: map<Id, GNode>, xs: seq<Id>, c: Id)
    requires c in nodes
    ensures MovedIds(nodes, xs + [c]) == MovedIds(nodes, xs) + SubtreeIds(nodes, nodes[c].alias)
  {
    assert forall x :: x in xs + [c] <==> x in xs || x == c;
  }

  /** Some child still to come has had a turn, or will have two. */
  ghost predicate Again(xs: seq<Id>, children: seq<Id>) {
    (exists c :: c in children && c in xs) || !Distinct(children)
  }

  lemma AgainTail(xs: seq<Id>, children: seq<Id>)
    requires children != [] && Again(xs, children) && children[0] !in xs
    ensures Again(xs + [children[0]], children[1..])
  {
    var c := children[0];
    if exists d :: d in children && d in xs {
      var d :| d in children && d in xs;
      assert d in children[1..] && d in xs + [c];
    } else if c in children[1..] {
      assert c in xs + [c];
    } else if Distinct(children[1..]) {
      DistinctCons(children);
    }
  }

  lemma DistinctCons(ids: seq<Id>)
    requires ids != [] && ids[0] !in ids[1..] && Distinct(ids[1..])
    ensures Distinct(ids)
  {
    forall i, j | 0 <= i < j < |ids| ensures ids[i] != ids[j] {
      assert ids[j] == ids[1..][j - 1];
      if i > 0 { assert ids[i] == ids[1..][i - 1]; }
    }
  }

  /** Where the rest of the loop ends. */
  ghost predicate PlayedOut(env: Env, w: Work, r: Attempt<Work>, children: seq<Id>, nodes: map<Id, GNode>, xs: seq<Id>, n: GNode, e: Alias,
      claims: map<Alias, Id>)
  {
    && r.Ok? && Playing(env, r.value, nodes, MovedIds(nodes, xs + children), n, e, claims)
    && (forall i :: i in MovedIds(nodes, xs) && i in w.nodes && i in r.value.nodes && Jammed(w.nodes[i]) ==> Jammed(r.value.nodes[i]))
    && (Again(xs, children) ==> exists i :: i in r.value.updated && i in r.value.nodes && Jammed(r.value.nodes[i]))
  }

  lemma MovedIdsGrow(nodes: map<Id, GNode>, xs: seq<Id>, ys: seq<Id>)
    ensures MovedIds(nodes, xs) <= MovedIds(nodes, xs + ys)
  {
    assert forall x :: x in xs ==> x in xs + ys;
  }

  /** A row jammed before the rest of the loop is jammed at the end, and is touched. */
  lemma JammedAtTheEnd(env: Env, w: Work, r: Attempt<Work>, children: seq<Id>, nodes: map<Id, GNode>, xs: seq<Id>, n: GNode, e: Alias,
      claims: map<Alias, Id>, i: Id)
    requires PlayedOut(env, w, r, children, nodes, xs, n, e, claims)
    requires i in MovedIds(nodes, xs) && i in w.nodes && Jammed(w.nodes[i])
    ensures i in r.value.updated && i in r.value.nodes && Jammed(r.value.nodes[i])
  {
    MovedIdsGrow(nodes, xs, children);
  }

  lemma PlayedOutCons(env: Env, w: Work, r: Attempt<Work>, children: seq<Id>, nodes: map<Id, GNode>, xs: seq<Id>, n: GNode, e: Alias,
      claims: map<Alias, Id>)
    requires children != [] && r.Ok?
    requires Playing(env, r.value, nodes, MovedIds(nodes, (xs + [children[0]]) + children[1..]), n, e, claims)
    requires forall i :: i in MovedIds(nodes, xs) && i in w.nodes && i in r.value.nodes && Jammed(w.nodes[i]) ==> Jammed(r.value.nodes[i])
    requires Again(xs, children) ==> exists i :: i in r.value.updated && i in r.value.nodes && Jammed(r.value.nodes[i])
    ensures PlayedOut(env, w, r, children, nodes, xs, n, e, claims)
  {
    assert (xs + [children[0]]) + children[1..] == xs + children;
  }

  lemma JamsCarried(env: Env, w: Work, w1: Work, r: Attempt<Work>, children: seq<Id>, nodes: map<Id, GNode>, xs: seq<Id>, n: GNode, e: Alias,
      claims: map<Alias, Id>)
    requires children != [] && w1.nodes.Keys == w.nodes.Keys
    requires PlayedOut(env, w1, r, children[1..], nodes, xs + [children[0]], n, e, claims)
    requires forall i :: i in MovedIds(nodes, xs) && i in w.nodes && Jammed(w.nodes[i]) ==> Jammed(w1.nodes[i])
    ensures forall i :: i in MovedIds(nodes, xs) && i in w.nodes && i in r.value.nodes && Jammed(w.nodes[i]) ==> Jammed(r.value.nodes[i])
  {
    MovedIdsGrow(nodes, xs, [children[0]]);
    forall i | i in MovedIds(nodes, xs) && i in w.nodes && i in r.value.nodes && Jammed(w.nodes[i]) ensures Jammed(r.value.nodes[i]) {
      JammedAtTheEnd(env, w1, r, children[1..], nodes, xs + [children[0]], n, e, claims, i);
    }
  }

  lemma AgainCarried(env: Env, w1: Work, r: Attempt<Work>, children: seq<Id>, nodes: map<Id, GNode>, xs: seq<Id>, n: GNode, e: Alias,
      claims: map<Alias, Id>)
    requires children != [] && children[0] in w1.nodes
    requires PlayedOut(env, w1, r, children[1..], nodes, xs + [children[0]], n, e, claims)
    requires children[0] in xs ==> children[0] in MovedIds(nodes, xs) && Jammed(w1.nodes[children[0]])
    ensures Again(xs, children) ==> exists i :: i in r.value.updated && i in r.value.nodes && Jammed(r.value.nodes[i])
  {
    var c := children[0];
    MovedIdsGrow(nodes, xs, [c]);
    if c in xs {
      JammedAtTheEnd(env, w1, r, children[1..], nodes, xs + [c], n, e, claims, c);
    } else if Again(xs, children) {
      AgainTail(xs, children);
    }
  }

  lemma {:induction false} PlayOut(env: Env, w: Work, children: seq<Id>, nodes: map<Id, GNode>, xs: seq<Id>, n: GNode, e: Alias,
      claims: map<Alias, Id>)
    requires Playing(env, w, nodes, MovedIds(nodes, xs), n, e, claims) && ChildrenOf(nodes, xs, e) && ChildrenOf(nodes, children, e)
    requires Claims(claims, nodes, MovedIds(nodes, children), e, n.alias)
    ensures PlayedOut(env, w, MoveChildren(env, w, children, n.alias), children, nodes, xs, n, e, claims)
    decreases |children|
  {
    if children == [] {
      assert xs + children == xs;
    } else {
      var c := children[0];
      assert c in children;
      WholeOrNot(nodes, xs, c, e);
      MovedIdsCons(nodes, children);
      TakeTurn(env, w, nodes, MovedIds(nodes, xs), n, e, claims, c);
      MovedIdsSnoc(nodes, xs, c);
      var w1 := RewritePrefix(env, w, w.nodes[c].alias, MovedPrefix(n.alias, w.nodes[c].alias)).value;
      PlayOut(env, w1, children[1..], nodes, xs + [c], n, e, claims);
      var r := MoveChildren(env, w1, children[1..], n.alias);
      JamsCarried(env, w, w1, r, children, nodes, xs, n, e, claims);
      AgainCarried(env, w1, r, children, nodes, xs, n, e, claims);
      PlayedOutCons(env, w, r, children, nodes, xs, n, e, claims);
    }
  }

  // ---- the verdict ----

  /** The ids of a list, each once. */
  ghost function Once(ids: seq<Id>): (once: seq<Id>)
    ensures Distinct(once) && forall i :: i in once <==> i in ids
    decreases |ids|
  {
    if ids == [] then []
    else if ids[0] in ids[1..] then Once(ids[1..])
    else OnceCons(ids[0], Once(ids[1..])); [ids[0]] + Once(ids[1..])
  }

  lemma OnceCons(i: Id, rest: seq<Id>)
    requires i !in rest && Distinct(rest)
    ensures Distinct([i] + rest)
  {
    assert ([i] + rest)[1..] == rest;
    DistinctCons([i] + rest);
  }

  /** The command with every child named once. */
  ghost function NamingOnce(cmd: Command): Command
    requires cmd.ReparentCmd?
  {
    cmd.(movedChildIds := Once(cmd.movedChildIds))
  }

  lemma NamingOnceWellFormed(nodes: map<Id, GNode>, cmd: Command)
    requires Repeating(nodes, cmd)
    ensures WellFormed(nodes, NamingOnce(cmd)) && MovedIds(nodes, NamingOnce(cmd).movedChildIds) == MovedIds(nodes, cmd.movedChildIds)
    ensures Target(nodes, NamingOnce(cmd)) == Target(nodes, cmd)
  {
    MovedIdsAlike(nodes, cmd.movedChildIds, Once(cmd.movedChildIds));
  }

  lemma RepeatingPredicts(env: Env, db: Registry, cmd: Command)
    requires ValidEnv(env) && Sound(db) && Repeating(db.nodes, cmd)
    ensures Prediction(env, db, cmd).Ok? && Prediction(env, db, NamingOnce(cmd)) == Prediction(env, db, cmd)
    ensures TargetClaims(Prediction(env, db, cmd).value, db.nodes, cmd)
  {
    var once := NamingOnce(cmd);
    NamingOnceWellFormed(db.nodes, cmd);
    PredictionIs(env, db, cmd);
    PredictionIs(env, db, once);
    SameClaims(Prediction(env, db, once).value, db.nodes, once, cmd);
    ClaimsUnique(Prediction(env, db, cmd).value, Prediction(env, db, once).value, db.nodes, cmd);
  }

  lemma SameClaims(m: map<Alias, Id>, nodes: map<Id, GNode>, cmd: Command, cmd': Command)
    requires cmd.ReparentCmd? && cmd'.ReparentCmd? && cmd'.newNode == cmd.newNode && TargetClaims(m, nodes, cmd)
    requires MovedIds(nodes, cmd'.movedChildIds) == MovedIds(nodes, cmd.movedChildIds)
    ensures TargetClaims(m, nodes, cmd')
  {}

  /** The table after the insert is where the loop starts. */
  lemma InsertStartsPlay(env: Env, db: Registry, cmd: Command, claims: map<Alias, Id>)
    requires ValidEnv(env) && Sound(db) && ParentComplete(db.nodes) && Repeating(db.nodes, cmd) && ValidCommand(cmd)
    requires TargetClaims(claims, db.nodes, cmd) && Agree(db.ledger, claims) && PositionResolves(db, cmd.newNode)
    ensures Insert(db, cmd.newNode).Ok?
    ensures Playing(env, Insert(db, cmd.newNode).value, db.nodes, MovedIds(db.nodes, []), cmd.newNode, Parent(cmd), claims)
  {
    NamingOnceWellFormed(db.nodes, cmd);
    InsertSucceeds(db, NamingOnce(cmd), claims);
    InsertSound(db, cmd.newNode);
    InsertIsPlaced(db, cmd, Insert(db, cmd.newNode).value);
    NothingUnderNew(db, cmd.newNode);
  }

  lemma InsertIsPlaced(db: Registry, cmd: Command, w: Work)
    requires cmd.ReparentCmd? && Inserted(db, cmd.newNode, w)
    ensures Placed(w, db.nodes, MovedIds(db.nodes, []), cmd.newNode, Parent(cmd))
  {
    assert MovedIds(db.nodes, []) == {};
  }

  lemma NothingUnderNew(db: Registry, n: GNode)
    requires Sound(db) && ParentComplete(db.nodes) && ValidGNode(n) && Insert(db, n).Ok?
    ensures forall i :: i in db.nodes ==> !InSubtree(db.nodes[i].alias, n.alias)
  {
    InsertSound(db, n);
    forall i | i in db.nodes ensures !InSubtree(db.nodes[i].alias, n.alias) { NoneBelowUnheld(db.nodes, n.alias, i); }
  }

  /** The rows a repeating re-parent would leave: those of the command naming each child once, but
      for previous aliases, one of which is the row's own alias. */
  ghost predicate RepeatLeaves(db: Registry, cmd: Command, r: Attempt<Work>)
    requires cmd.ReparentCmd?
  {
    && r.Ok? && WorkSound(r.value) && TablesAlike(Target(db.nodes, cmd), r.value.nodes)
    && exists i :: i in r.value.updated && i in r.value.nodes && Jammed(r.value.nodes[i])
  }

  lemma RepeatingRewrites(env: Env, db: Registry, cmd: Command)
    requires ValidEnv(env) && Sound(db) && ParentComplete(db.nodes) && Repeating(db.nodes, cmd) && ValidCommand(cmd)
    requires Guarded(env, db, cmd) && PositionResolves(db, cmd.newNode)
    ensures RepeatLeaves(db, cmd, Rewritten(env, db, cmd))
  {
    var n, e, m := cmd.newNode, Parent(cmd), Prediction(env, db, cmd).value;
    RepeatingPredicts(env, db, cmd);
    AgreeIffNoCollision(db.ledger, m);
    InsertStartsPlay(env, db, cmd, m);
    PlayOut(env, Insert(db, n).value, cmd.movedChildIds, db.nodes, [], n, e, m);
    PlacedIsTarget(db, cmd, Rewritten(env, db, cmd).value);
  }

  lemma PlacedIsTarget(db: Registry, cmd: Command, w: Work)
    requires cmd.ReparentCmd? && cmd.newNode.id !in db.nodes
    requires Placed(w, db.nodes, MovedIds(db.nodes, [] + cmd.movedChildIds), cmd.newNode, Parent(cmd))
    ensures TablesAlike(Target(db.nodes, cmd), w.nodes)
  {
    assert [] + cmd.movedChildIds == cmd.movedChildIds;
  }

  /** A jammed row cannot be converted, so a clean result aborts. */
  lemma JammedAborts(env: Env, db: Registry, cmd: Command, w: Work)
    requires ValidEnv(env) && w.Valid() && KeyedById(w.nodes)
    requires exists i :: i in w.updated && i in w.nodes && Jammed(w.nodes[i])
    ensures FinishReparent(env, db, cmd, w)
            == Result(db, if Clean(w.nodes, db.edges, db.positions, env.universe) then Aborted else Refused)
  {
    RowsAreUpdated(w);
    var i :| i in w.updated && i in w.nodes && Jammed(w.nodes[i]);
    assert w.nodes[i] in Rows(w.nodes, w.updated) && !AliasTransition(w.nodes[i]);
  }

  /** Naming a child twice is never applied. The command is refused exactly if it would be refused
      naming every child once; where that would be applied, this one aborts. */
  lemma RepeatingVerdict(env: Env, db: Registry, cmd: Command)
    requires ValidEnv(env) && Sound(db) && ParentComplete(db.nodes) && Repeating(db.nodes, cmd) && ValidCommand(cmd)
    requires cmd !in db.log && NamingOnce(cmd) !in db.log
    ensures !Step(env, db, cmd).verdict.Applied?
    ensures Step(env, db, cmd).verdict.Refused? <==> Step(env, db, NamingOnce(cmd)).verdict.Refused?
  {
    NamingOnceWellFormed(db.nodes, cmd);
    RepeatingPredicts(env, db, cmd);
    WellFormedVerdict(env, db, NamingOnce(cmd));
    UnguardedRefused(env, db, cmd);
    if Guarded(env, db, cmd) { RepeatingGuarded(env, db, cmd); }
  }

  lemma RepeatingGuarded(env: Env, db: Registry, cmd: Command)
    requires ValidEnv(env) && Sound(db) && ParentComplete(db.nodes) && Repeating(db.nodes, cmd) && ValidCommand(cmd)
    requires cmd !in db.log && Guarded(env, db, cmd)
    ensures Step(env, db, cmd)
            == Result(db, if PositionResolves(db, cmd.newNode) && !Clean(Target(db.nodes, cmd), db.edges, db.positions, env.universe)
                          then Refused else Aborted)
  {
    GuardedRuns(env, db, cmd);
    if PositionResolves(db, cmd.newNode) {
      RepeatingRewrites(env, db, cmd);
      RepeatFinishes(env, db, cmd, Rewritten(env, db, cmd));
    } else {
      UnknownPositionAborts(env, db, cmd);
    }
  }

  lemma GuardedRuns(env: Env, db: Registry, cmd: Command)
    requires ValidEnv(env) && cmd.ReparentCmd? && cmd !in db.log && Guarded(env, db, cmd)
    ensures Rewritten(env, db, cmd).Abort? ==> Step(env, db, cmd) == Result(db, Aborted)
    ensures Rewritten(env, db, cmd).Ok? ==> Step(env, db, cmd) == FinishReparent(env, db, cmd, Rewritten(env, db, cmd).value)
  {
    UnguardedRefused(env, db, cmd);
  }

  lemma RepeatFinishes(env: Env, db: Registry, cmd: Command, r: Attempt<Work>)
    requires ValidEnv(env) && cmd.ReparentCmd? && RepeatLeaves(db, cmd, r)
    ensures FinishReparent(env, db, cmd, r.value)
            == Result(db, if Clean(Target(db.nodes, cmd), db.edges, db.positions, env.universe) then Aborted else Refused)
  {
    TargetUnique(db, cmd, r.value);
    AlikeClean(r.value.nodes, Target(db.nodes, cmd), db.edges, db.positions, env.universe);
    JammedAborts(env, db, cmd, r.value);
  }

  lemma TargetUnique(db: Registry, cmd: Command, w: Work)
    requires cmd.ReparentCmd? && TablesAlike(Target(db.nodes, cmd), w.nodes)
    ensures TablesAlike(w.nodes, Target(db.nodes, cmd))
  {
    forall i | i in w.nodes ensures AuditedAlike(w.nodes[i], Target(db.nodes, cmd)[i]) {
      assert AuditedAlike(Target(db.nodes, cmd)[i], w.nodes[i]);
    }
  }
}
