/** A well-formed re-parent: what the row-by-row rewrite computes, and when it gets through. */
module Rewriting {
  import opened Prelude
  import opened Aliases
  import opened GNodes
  import opened Tables
  import opened Transactions
  import opened Invariants

  /** What the wire contract promises of a re-parent: N is new, and the moved ids are distinct
      children of N's parent. The code checks only that the ids exist. */
  ghost predicate WellFormed(nodes: map<Id, GNode>, cmd: Command) {
    && cmd.ReparentCmd? && cmd.newNode.id !in nodes
    && Distinct(cmd.movedChildIds)
    && ChildrenOf(nodes, cmd.movedChildIds, ParentAlias(cmd.newNode.alias))
  }

  ghost predicate ChildrenOf(nodes: map<Id, GNode>, children: seq<Id>, e: Alias) {
    forall c :: c in children ==> c in nodes && Dotted(nodes[c].alias) && ParentAlias(nodes[c].alias) == e
  }

  /** The rows in the subtree of a moved child. */
  ghost function MovedIds(nodes: map<Id, GNode>, children: seq<Id>): set<Id> {
    set i | i in nodes && exists c :: c in children && c in nodes && InSubtree(nodes[i].alias, nodes[c].alias)
  }

  /** All moved rows at once: the alias prefix `e` becomes `n`. */
  function Relocated(nodes: map<Id, GNode>, moved: set<Id>, e: Alias, n: Alias): map<Id, GNode> {
    map i | i in nodes :: if i in moved then Renamed(nodes[i], e, n) else nodes[i]
  }

  /** The new aliases of the moved rows, each claimed by its row. */
  ghost predicate Claims(m: map<Alias, Id>, nodes: map<Id, GNode>, moved: set<Id>, e: Alias, n: Alias) {
    forall i :: i in moved ==> i in nodes && RewriteAlias(nodes[i].alias, e, n) in m && m[RewriteAlias(nodes[i].alias, e, n)] == i
  }

  /** Where a ledger and a set of claims both speak, they name the same owner. */
  ghost predicate Agree(ledger: map<Alias, Id>, claims: map<Alias, Id>) {
    forall a :: a in ledger && a in claims ==> ledger[a] == claims[a]
  }

  lemma AgreeIffNoCollision(ledger: map<Alias, Id>, claims: map<Alias, Id>)
    ensures Agree(ledger, claims) <==> !Collides(ledger, claims)
  {}

  // ---- the rows of one moved child ----

  /** The rows to rename are claimed, under their new aliases, by `claims`. */
  ghost predicate ClaimedBy(nodes: map<Id, GNode>, ids: seq<Id>, p: Alias, q: Alias, claims: map<Alias, Id>) {
    forall i :: i in ids ==>
      i in nodes && RewriteAlias(nodes[i].alias, p, q) in claims && claims[RewriteAlias(nodes[i].alias, p, q)] == i
  }

  /** If the ledger agrees with the claims no rename fails, neither in the unique index nor in the
      ledger, and it still agrees afterwards. */
  lemma {:induction false} RenameRowsSucceeds(w: Work, ids: seq<Id>, p: Alias, q: Alias, claims: map<Alias, Id>)
    requires WorkSound(w) && Distinct(ids) && ClaimedBy(w.nodes, ids, p, q, claims)
    requires Agree(w.ledger, claims)
    ensures RenameRows(w, ids, p, q).Ok?
    ensures Agree(RenameRows(w, ids, p, q).value.ledger, claims)
    decreases |ids|
  {
    if ids != [] {
      var na := RewriteAlias(w.nodes[ids[0]].alias, p, q);
      assert ids[0] in ids && claims[na] == ids[0];
      forall i | i in w.nodes && i != ids[0] ensures w.nodes[i].alias != na {
        assert w.ledger[w.nodes[i].alias] == i;
      }
      var w1 := RenameRow(w, ids[0], p, q).value;
      RenameRowAdvances(w, ids[0], p, q);
      DistinctTail(ids);
      RenameRowsSucceeds(w1, ids[1..], p, q, claims);
    }
  }

  /** The ledger grew by exactly the new aliases of the rows `ids`, each owned by its row. */
  ghost predicate LedgerGrew(before: map<Alias, Id>, after: map<Alias, Id>, nodes: map<Id, GNode>, ids: set<Id>, p: Alias, q: Alias) {
    && (forall a :: a in before ==> a in after && after[a] == before[a])
    && Claims(after, nodes, ids, p, q)
    && (forall a :: a in after && a !in before ==> exists i :: i in ids && i in nodes && a == RewriteAlias(nodes[i].alias, p, q))
  }

  /** Renames that get through rename exactly the listed rows, all from their first aliases. */
  lemma {:induction false} RenameRowsResult(w: Work, ids: seq<Id>, p: Alias, q: Alias)
    requires w.Valid() && Distinct(ids) && forall i :: i in ids ==> i in w.nodes
    requires RenameRows(w, ids, p, q).Ok?
    ensures var w' := RenameRows(w, ids, p, q).value;
            && w'.nodes == Relocated(w.nodes, Members(ids), p, q)
            && (forall i :: i in w'.updated <==> i in w.updated || i in ids)
    decreases |ids|
  {
    if ids == [] {
      assert Relocated(w.nodes, {}, p, q) == w.nodes;
    } else {
      var w1 := RenameRow(w, ids[0], p, q).value;
      DistinctTail(ids);
      RenameRowsResult(w1, ids[1..], p, q);
      assert forall i :: i in ids <==> i == ids[0] || i in ids[1..];
      assert w1.nodes == w.nodes[ids[0] := Renamed(w.nodes[ids[0]], p, q)];
      assert Relocated(w1.nodes, Members(ids[1..]), p, q) == Relocated(w.nodes, Members(ids), p, q);
    }
  }

  lemma OneClaimed(w: Work, i: Id, p: Alias, q: Alias)
    requires w.Valid() && i in w.nodes && RenameRow(w, i, p, q).Ok?
    ensures LedgerGrew(w.ledger, RenameRow(w, i, p, q).value.ledger, w.nodes, {i}, p, q)
  {
    assert i in {i};
  }

  lemma OthersKept(w: Work, i: Id, others: set<Id>, p: Alias, q: Alias)
    requires w.Valid() && i in w.nodes && RenameRow(w, i, p, q).Ok? && i !in others && others <= w.nodes.Keys
    ensures forall j :: j in others ==> RenameRow(w, i, p, q).value.nodes[j] == w.nodes[j]
  {}

  lemma LedgerGrewAgain(l0: map<Alias, Id>, l1: map<Alias, Id>, l2: map<Alias, Id>, nodes: map<Id, GNode>, nodes1: map<Id, GNode>,
                        ids: set<Id>, more: set<Id>, p: Alias, q: Alias)
    requires LedgerGrew(l0, l1, nodes, ids, p, q) && LedgerGrew(l1, l2, nodes1, more, p, q)
    requires forall i :: i in more ==> i in nodes && i in nodes1 && nodes1[i] == nodes[i]
    ensures LedgerGrew(l0, l2, nodes, ids + more, p, q)
  {
    forall a | a in l2 && a !in l0
      ensures exists i :: i in ids + more && i in nodes && a == RewriteAlias(nodes[i].alias, p, q)
    {
      if a in l1 {
        var i :| i in ids && i in nodes && a == RewriteAlias(nodes[i].alias, p, q);
        assert i in ids + more;
      } else {
        var i :| i in more && i in nodes1 && a == RewriteAlias(nodes1[i].alias, p, q);
        assert i in ids + more;
      }
    }
  }

  /** They claim exactly the new aliases. */
  lemma {:induction false} RenameRowsClaims(w: Work, ids: seq<Id>, p: Alias, q: Alias)
    requires w.Valid() && Distinct(ids) && forall i :: i in ids ==> i in w.nodes
    requires RenameRows(w, ids, p, q).Ok?
    ensures LedgerGrew(w.ledger, RenameRows(w, ids, p, q).value.ledger, w.nodes, Members(ids), p, q)
    decreases |ids|
  {
    if ids != [] {
      var w1 := RenameRow(w, ids[0], p, q).value;
      DistinctTail(ids);
      OneClaimed(w, ids[0], p, q);
      RenameRowsClaims(w1, ids[1..], p, q);
      OthersKept(w, ids[0], Members(ids[1..]), p, q);
      LedgerGrewAgain(w.ledger, w1.ledger, RenameRows(w, ids, p, q).value.ledger, w.nodes, w1.nodes, {ids[0]}, Members(ids[1..]), p, q);
      assert Members(ids) == {ids[0]} + Members(ids[1..]);
    }
  }

  // ---- the pre-check's prediction ----

  lemma {:induction false} PredictIs(nodes: map<Id, GNode>, ids: seq<Id>, p: Alias, q: Alias, acc: map<Alias, Id>)
    requires UniqueAliases(nodes)
    requires forall i :: i in ids ==> i in nodes && InSubtree(nodes[i].alias, p)
    ensures var m := Predict(nodes, ids, p, q, acc);
            && ClaimedBy(nodes, ids, p, q, m)
            && (forall a :: a in acc ==> a in m)
            && (forall a :: a in m ==> (a in acc && m[a] == acc[a]) || exists i :: i in ids && a == RewriteAlias(nodes[i].alias, p, q))
    decreases |ids|
  {
    if ids != [] {
      var na := RewriteAlias(nodes[ids[0]].alias, p, q);
      PredictIs(nodes, ids[1..], p, q, acc[na := ids[0]]);
      var m := Predict(nodes, ids, p, q, acc);
      assert forall i :: i in ids <==> i == ids[0] || i in ids[1..];
      if j :| j in ids[1..] && na == RewriteAlias(nodes[j].alias, p, q) {
        RewriteInjective(nodes[ids[0]].alias, nodes[j].alias, p, q);
      }
    }
  }

  /** The rows of one moved child, whose new aliases are the prefix swap `e` to `n`. */
  lemma ChildRowsSwap(nodes: map<Id, GNode>, c: Id, e: Alias, n: Alias)
    requires c in nodes && Dotted(nodes[c].alias) && ParentAlias(nodes[c].alias) == e
    ensures forall i :: i in SubtreeIds(nodes, nodes[c].alias) ==>
              && Below(nodes[i].alias, e)
              && RewriteAlias(nodes[i].alias, nodes[c].alias, MovedPrefix(n, nodes[c].alias)) == RewriteAlias(nodes[i].alias, e, n)
  {
    forall i | i in SubtreeIds(nodes, nodes[c].alias)
      ensures Below(nodes[i].alias, e)
      ensures RewriteAlias(nodes[i].alias, nodes[c].alias, MovedPrefix(n, nodes[c].alias)) == RewriteAlias(nodes[i].alias, e, n)
    {
      MovedPrefixIsSwap(nodes[i].alias, nodes[c].alias, e, n);
    }
  }

  lemma MovedIdsCons(nodes: map<Id, GNode>, children: seq<Id>)
    requires children != [] && children[0] in nodes
    ensures MovedIds(nodes, children) == SubtreeIds(nodes, nodes[children[0]].alias) + MovedIds(nodes, children[1..])
  {
    assert forall c :: c in children <==> c == children[0] || c in children[1..];
  }

  lemma MovedRowsBelow(nodes: map<Id, GNode>, children: seq<Id>, e: Alias)
    requires ChildrenOf(nodes, children, e)
    ensures forall i :: i in MovedIds(nodes, children) ==> Below(nodes[i].alias, e)
  {
    forall i | i in MovedIds(nodes, children) ensures Below(nodes[i].alias, e) {
      var c :| c in children && c in nodes && InSubtree(nodes[i].alias, nodes[c].alias);
      MovedPrefixIsSwap(nodes[i].alias, nodes[c].alias, e, e);
    }
  }

  lemma {:induction false} IntendedIs(env: Env, nodes: map<Id, GNode>, children: seq<Id>, n: Alias, acc: map<Alias, Id>, e: Alias)
    requires ValidEnv(env) && UniqueAliases(nodes) && ChildrenOf(nodes, children, e)
    ensures Intended(env, nodes, children, n, acc).Ok?
    ensures var m := Intended(env, nodes, children, n, acc).value;
            var moved := MovedIds(nodes, children);
            && Claims(m, nodes, moved, e, n)
            && (forall a :: a in acc ==> a in m)
            && (forall a :: a in m ==> (a in acc && m[a] == acc[a]) || exists i :: i in moved && a == RewriteAlias(nodes[i].alias, e, n))
    decreases |children|
  {
    if children != [] {
      var c := children[0];
      assert c in children;
      var prior := nodes[c].alias;
      var ids := env.rowOrder(nodes, SubtreeIds(nodes, prior));
      var acc1 := Predict(nodes, ids, prior, MovedPrefix(n, prior), acc);
      PredictIs(nodes, ids, prior, MovedPrefix(n, prior), acc);
      ChildRowsSwap(nodes, c, e, n);
      IntendedIs(env, nodes, children[1..], n, acc1, e);
      MovedIdsCons(nodes, children);
      var m := Intended(env, nodes, children, n, acc).value;
      var rest := MovedIds(nodes, children[1..]);
      MovedRowsBelow(nodes, children, e);
      forall i | i in SubtreeIds(nodes, prior)
        ensures RewriteAlias(nodes[i].alias, e, n) in m && m[RewriteAlias(nodes[i].alias, e, n)] == i
      {
        var a := RewriteAlias(nodes[i].alias, e, n);
        assert i in ids && acc1[a] == i;
        if m[a] != acc1[a] {
          var j :| j in rest && a == RewriteAlias(nodes[j].alias, e, n);
          RewriteInjective(nodes[i].alias, nodes[j].alias, e, n);
        }
      }
    }
  }

  // ---- the loop over the moved children ----

  /** The open transaction after the rows `done` have moved. */
  ghost predicate MovedSoFar(w: Work, nodes: map<Id, GNode>, done: set<Id>, n: GNode, e: Alias) {
    && w.nodes == Relocated(nodes, done, e, n.alias)[n.id := n]
    && done <= nodes.Keys && n.id !in nodes
    && (forall i :: i in done ==> Below(nodes[i].alias, e))
    && (forall i :: i in w.updated <==> i == n.id || i in done)
  }

  /** N, and the rows moved so far, are outside the subtree of a sibling of N. */
  lemma SiblingRowsUntouched(w: Work, nodes: map<Id, GNode>, done: set<Id>, n: GNode, e: Alias, sibling: Alias)
    requires MovedSoFar(w, nodes, done, n, e)
    requires Dotted(n.alias) && ParentAlias(n.alias) == e
    requires Dotted(sibling) && ParentAlias(sibling) == e && sibling != n.alias
    requires SubtreeIds(nodes, sibling) !! done
    ensures SubtreeIds(w.nodes, sibling) == SubtreeIds(nodes, sibling)
    ensures forall i :: i in SubtreeIds(nodes, sibling) ==> w.nodes[i] == nodes[i]
  {
    SiblingsDisjoint(n.alias, n.alias, sibling);
    forall i | i in done ensures !InSubtree(w.nodes[i].alias, sibling) {
      RewriteInverts(nodes[i].alias, e, n.alias);
      SiblingsDisjoint(w.nodes[i].alias, n.alias, sibling);
    }
  }

  lemma ChildSubtreesDisjoint(nodes: map<Id, GNode>, children: seq<Id>, e: Alias)
    requires UniqueAliases(nodes) && children != [] && Distinct(children) && ChildrenOf(nodes, children, e)
    ensures SubtreeIds(nodes, nodes[children[0]].alias) !! MovedIds(nodes, children[1..])
  {
    assert children[0] in children;
    var p := nodes[children[0]].alias;
    forall i | i in SubtreeIds(nodes, p) ensures i !in MovedIds(nodes, children[1..]) {
      if i in MovedIds(nodes, children[1..]) {
        var c :| c in children[1..] && c in nodes && InSubtree(nodes[i].alias, nodes[c].alias);
        DistinctTail(children);
        assert c in children && c != children[0];
        SiblingsDisjoint(nodes[i].alias, p, nodes[c].alias);
      }
    }
  }

  /** The rows and claims of one child, before its turn in the loop. */
  ghost predicate Turn(env: Env, w: Work, c: Id, nodes: map<Id, GNode>, done: set<Id>, n: GNode, e: Alias) {
    && ValidEnv(env) && WorkSound(w) && MovedSoFar(w, nodes, done, n, e)
    && Dotted(n.alias) && ParentAlias(n.alias) == e
    && c in nodes && Dotted(nodes[c].alias) && ParentAlias(nodes[c].alias) == e && nodes[c].alias != n.alias
    && SubtreeIds(nodes, nodes[c].alias) !! done
  }

  lemma MoveOneChildSucceeds(env: Env, w: Work, c: Id, nodes: map<Id, GNode>, done: set<Id>, n: GNode, e: Alias, claims: map<Alias, Id>)
    requires Turn(env, w, c, nodes, done, n, e)
    requires Claims(claims, nodes, SubtreeIds(nodes, nodes[c].alias), e, n.alias)
    requires Agree(w.ledger, claims)
    ensures var r := RewritePrefix(env, w, nodes[c].alias, MovedPrefix(n.alias, nodes[c].alias));
            r.Ok? && Agree(r.value.ledger, claims)
  {
    var prior := nodes[c].alias;
    SiblingRowsUntouched(w, nodes, done, n, e, prior);
    ChildRowsSwap(nodes, c, e, n.alias);
    var ids := env.rowOrder(w.nodes, SubtreeIds(w.nodes, prior));
    RenameRowsSucceeds(w, ids, prior, MovedPrefix(n.alias, prior), claims);
  }

  lemma RelocatedMore(nodes: map<Id, GNode>, done: set<Id>, sub: set<Id>, n: GNode, e: Alias, p: Alias, q: Alias)
    requires n.id !in nodes && sub <= nodes.Keys && sub !! done
    requires forall i :: i in sub ==> RewriteAlias(nodes[i].alias, p, q) == RewriteAlias(nodes[i].alias, e, n.alias)
    ensures Relocated(Relocated(nodes, done, e, n.alias)[n.id := n], sub, p, q) == Relocated(nodes, done + sub, e, n.alias)[n.id := n]
  {}

  lemma LedgerGrewSwap(l0: map<Alias, Id>, l1: map<Alias, Id>, nodes0: map<Id, GNode>, nodes: map<Id, GNode>,
      sub: set<Id>, p: Alias, q: Alias, e: Alias, n: Alias)
    requires LedgerGrew(l0, l1, nodes0, sub, p, q)
    requires forall i :: i in sub ==>
               i in nodes0 && i in nodes && nodes0[i] == nodes[i] && RewriteAlias(nodes[i].alias, p, q) == RewriteAlias(nodes[i].alias, e, n)
    ensures LedgerGrew(l0, l1, nodes, sub, e, n)
  {}

  lemma MoveOneChildResult(env: Env, w: Work, c: Id, nodes: map<Id, GNode>, done: set<Id>, n: GNode, e: Alias)
    requires Turn(env, w, c, nodes, done, n, e)
    requires RewritePrefix(env, w, nodes[c].alias, MovedPrefix(n.alias, nodes[c].alias)).Ok?
    ensures var r := RewritePrefix(env, w, nodes[c].alias, MovedPrefix(n.alias, nodes[c].alias)).value;
            var sub := SubtreeIds(nodes, nodes[c].alias);
            WorkSound(r) && MovedSoFar(r, nodes, done + sub, n, e) && LedgerGrew(w.ledger, r.ledger, nodes, sub, e, n.alias)
  {
    var prior := nodes[c].alias;
    var sub := SubtreeIds(nodes, prior);
    SiblingRowsUntouched(w, nodes, done, n, e, prior);
    ChildRowsSwap(nodes, c, e, n.alias);
    var ids := env.rowOrder(w.nodes, sub);
    assert Members(ids) == sub;
    var q := MovedPrefix(n.alias, prior);
    RenameRowsResult(w, ids, prior, q);
    RenameRowsAdvances(w, ids, prior, q);
    RelocatedMore(nodes, done, sub, n, e, prior, q);
    assert LedgerGrew(w.ledger, RenameRows(w, ids, prior, q).value.ledger, nodes, sub, e, n.alias) by {
      RenameRowsClaims(w, ids, prior, q);
      LedgerGrewSwap(w.ledger, RenameRows(w, ids, prior, q).value.ledger, w.nodes, nodes, sub, prior, q, e, n.alias);
    }
  }

  lemma LedgerGrewTwice(l0: map<Alias, Id>, l1: map<Alias, Id>, l2: map<Alias, Id>, nodes: map<Id, GNode>,
      xs: set<Id>, ys: set<Id>, e: Alias, n: Alias)
    requires LedgerGrew(l0, l1, nodes, xs, e, n) && LedgerGrew(l1, l2, nodes, ys, e, n)
    ensures LedgerGrew(l0, l2, nodes, xs + ys, e, n)
  {}

  /** The loop's state between two children. */
  ghost predicate Loop(env: Env, w: Work, children: seq<Id>, nodes: map<Id, GNode>, done: set<Id>, n: GNode, e: Alias) {
    && ValidEnv(env) && WorkSound(w) && UniqueAliases(nodes) && MovedSoFar(w, nodes, done, n, e)
    && Dotted(n.alias) && ParentAlias(n.alias) == e
    && Distinct(children) && ChildrenOf(nodes, children, e)
    && (forall c :: c in children ==> nodes[c].alias != n.alias)
    && MovedIds(nodes, children) !! done
  }

  lemma LoopTurn(env: Env, w: Work, children: seq<Id>, nodes: map<Id, GNode>, done: set<Id>, n: GNode, e: Alias)
    requires Loop(env, w, children, nodes, done, n, e) && children != []
    ensures var c := children[0];
            && Turn(env, w, c, nodes, done, n, e) && c in w.nodes && w.nodes[c] == nodes[c]
            && MovedIds(nodes, children) == SubtreeIds(nodes, nodes[c].alias) + MovedIds(nodes, children[1..])
            && MovedIds(nodes, children[1..]) !! done + SubtreeIds(nodes, nodes[c].alias)
            && Distinct(children[1..]) && ChildrenOf(nodes, children[1..], e)
  {
    var c := children[0];
    assert c in children;
    MovedIdsCons(nodes, children);
    SiblingRowsUntouched(w, nodes, done, n, e, nodes[c].alias);
    assert c in SubtreeIds(nodes, nodes[c].alias);
    ChildSubtreesDisjoint(nodes, children, e);
    DistinctTail(children);
  }

  /** The loop's result: the rows of the children's subtrees, and no others, relocated at once. */
  ghost predicate LoopDone(w: Work, r: Work, children: seq<Id>, nodes: map<Id, GNode>, done: set<Id>, n: GNode, e: Alias) {
    && WorkSound(r)
    && MovedSoFar(r, nodes, done + MovedIds(nodes, children), n, e)
    && LedgerGrew(w.ledger, r.ledger, nodes, MovedIds(nodes, children), e, n.alias)
  }

  lemma LoopContinues(l0: map<Alias, Id>, l1: map<Alias, Id>, r: Work, nodes: map<Id, GNode>, done: set<Id>,
      sub: set<Id>, rest: set<Id>, moved: set<Id>, n: GNode, e: Alias)
    requires LedgerGrew(l0, l1, nodes, sub, e, n.alias) && LedgerGrew(l1, r.ledger, nodes, rest, e, n.alias)
    requires MovedSoFar(r, nodes, done + sub + rest, n, e) && moved == sub + rest
    ensures LedgerGrew(l0, r.ledger, nodes, moved, e, n.alias) && MovedSoFar(r, nodes, done + moved, n, e)
  {
    assert done + sub + rest == done + moved;
    LedgerGrewTwice(l0, l1, r.ledger, nodes, sub, rest, e, n.alias);
  }

  /** The loop gets through if the ledger agrees with the claims. */
  lemma {:induction false} MoveChildrenIs(env: Env, w: Work, children: seq<Id>, nodes: map<Id, GNode>, done: set<Id>,
      n: GNode, e: Alias, claims: map<Alias, Id>)
    requires Loop(env, w, children, nodes, done, n, e)
    requires Claims(claims, nodes, MovedIds(nodes, children), e, n.alias)
    ensures var r := MoveChildren(env, w, children, n.alias);
            && (Agree(w.ledger, claims) ==> r.Ok?)
            && (r.Ok? ==> LoopDone(w, r.value, children, nodes, done, n, e))
    decreases |children|
  {
    if children == [] {
      assert MovedIds(nodes, children) == {} && done + {} == done;
    } else {
      var c := children[0];
      LoopTurn(env, w, children, nodes, done, n, e);
      var prior := nodes[c].alias;
      if Agree(w.ledger, claims) { MoveOneChildSucceeds(env, w, c, nodes, done, n, e, claims); }
      var r := RewritePrefix(env, w, prior, MovedPrefix(n.alias, prior));
      if r.Ok? {
        MoveOneChildResult(env, w, c, nodes, done, n, e);
        MoveChildrenIs(env, r.value, children[1..], nodes, done + SubtreeIds(nodes, prior), n, e, claims);
        var r' := MoveChildren(env, r.value, children[1..], n.alias);
        if r'.Ok? {
          LoopContinues(w.ledger, r.value.ledger, r'.value, nodes, done, SubtreeIds(nodes, prior),
            MovedIds(nodes, children[1..]), MovedIds(nodes, children), n, e);
        }
      }
    }
  }
}
