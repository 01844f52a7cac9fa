/** Reading forests: what `get_forest` lists, and that storage order does not show. */
module ForestReads {
  import opened Prelude
  import opened Aliases
  import opened GNodes
  import opened Tables
  import opened Transactions
  import opened Invariants

  /** Equal up to the order of rows and edges. */
  ghost predicate SameContent(f: Forest, f': Forest) {
    && f.roots == f'.roots
    && (forall g :: g in f.nodes <==> g in f'.nodes)
    && (forall e :: e in f.edges <==> e in f'.edges)
  }

  // ---- what is listed ----

  lemma EnumeratedEdges(db: Registry, ids: seq<Id>, chosen: set<Id>)
    requires Constraints(db) && Enumerates(ids, chosen) && chosen <= db.edges.Keys
    ensures Distinct(EdgeRows(db.edges, ids))
    ensures forall e :: e in EdgeRows(db.edges, ids) <==> e.id in chosen && e.id in db.edges && db.edges[e.id] == e
  {
    var rows := EdgeRows(db.edges, ids);
    forall e ensures e in rows <==> e.id in chosen && e.id in db.edges && db.edges[e.id] == e {
      if e in rows {
        var k :| 0 <= k < |rows| && rows[k] == e;
        assert ids[k] in ids;
      }
      if e.id in chosen && db.edges[e.id] == e {
        assert e.id in ids;
        var k :| 0 <= k < |ids| && ids[k] == e.id;
        assert rows[k] == e;
      }
    }
    forall i, j | 0 <= i < j < |rows| ensures rows[i] != rows[j] {
      assert ids[i] in ids && ids[j] in ids;
    }
  }

  lemma EnumeratedRows(nodes: map<Id, GNode>, ids: seq<Id>, chosen: set<Id>)
    requires KeyedById(nodes) && Enumerates(ids, chosen) && chosen <= nodes.Keys
    ensures Distinct(Rows(nodes, ids))
    ensures forall g :: g in Rows(nodes, ids) <==> g.id in chosen && g.id in nodes && nodes[g.id] == g
  {
    var rows := Rows(nodes, ids);
    forall g ensures g in rows <==> g.id in chosen && g.id in nodes && nodes[g.id] == g {
      if g in rows {
        var k :| 0 <= k < |rows| && rows[k] == g;
        assert ids[k] in ids;
      }
      if g.id in chosen && nodes[g.id] == g {
        assert g.id in ids;
        var k :| 0 <= k < |ids| && ids[k] == g.id;
        assert rows[k] == g;
      }
    }
    forall i, j | 0 <= i < j < |rows| ensures rows[i] != rows[j] {
      assert ids[i] in ids && ids[j] in ids;
    }
  }

  lemma ForestEdgesAre(env: Env, db: Registry, ids: set<Id>)
    requires ValidEnv(env) && Constraints(db)
    ensures forall e :: e in ForestEdges(env, db, ids) <==>
              e.id in db.edges && db.edges[e.id] == e && e.status.Active? && e.fromId in ids && e.toId in ids
    ensures Distinct(ForestEdges(env, db, ids))
  {
    var chosen := ActiveEdgeIds(db.edges, ids);
    var order := env.edgeOrder(db.edges, chosen);
    EnumeratedEdges(db, order, chosen);
    SortByPermutes(EdgeRows(db.edges, order), ByEdgeId(env));
    PermutedDistinct(EdgeRows(db.edges, order), ForestEdges(env, db, ids));
  }

  lemma PermutedDistinct<T(!new)>(s: seq<T>, t: seq<T>)
    requires multiset(s) == multiset(t) && Distinct(s)
    ensures Distinct(t)
  {
    forall i, j | 0 <= i < j < |t| ensures t[i] != t[j] {
      if t[i] == t[j] {
        TwiceIn(t, i, j);
        DistinctCount(s, t[i]);
        assert false;
      }
    }
  }

  lemma TwiceIn<T>(t: seq<T>, i: nat, j: nat)
    requires i < j < |t| && t[i] == t[j]
    ensures multiset(t)[t[i]] >= 2
  {
    assert t == t[..j] + t[j..];
    assert t[i] == t[..j][i] && t[i] in t[..j] && t[j] == t[j..][0] && t[j] in t[j..];
  }

  /** On a sound registry a forest read always succeeds; it lists every row of the requested
      subtrees once, and exactly the active edges with both ends listed, once. */
  lemma GetForestLists(env: Env, db: Registry, roots: seq<Alias>)
    requires ValidEnv(env) && Sound(db)
    ensures GetForest(env, db, roots).Some?
    ensures var f := GetForest(env, db, roots).value;
            && f.roots == roots
            && (forall g :: g in f.nodes <==> g.id in db.nodes && db.nodes[g.id] == g && Requested(g.alias, roots))
            && (forall i, j :: 0 <= i < j < |f.nodes| ==> f.nodes[i].id != f.nodes[j].id)
            && (forall e :: e in f.edges <==>
                  e.id in db.edges && db.edges[e.id] == e && e.status.Active? && e.fromId in RowIds(f.nodes) && e.toId in RowIds(f.nodes))
            && Distinct(f.edges)
  {
    ForestRowsAre(env, db.nodes, roots, {});
    ForestEdgesAre(env, db, RowIds(ForestRows(env, db.nodes, roots, {})));
  }

  // ---- in what order ----

  /** The position of the first requested root that holds the alias. */
  function FirstHolder(a: Alias, roots: seq<Alias>): (r: nat)
    ensures r <= |roots| && (r < |roots| ==> InSubtree(a, roots[r]))
    ensures forall k :: 0 <= k < r ==> !InSubtree(a, roots[k])
  {
    if roots == [] || InSubtree(a, roots[0]) then 0 else 1 + FirstHolder(a, roots[1..])
  }

  /** Rows by the first root that holds them, and within one root's by alias. */
  ghost predicate InForestOrder(env: Env, rows: seq<GNode>, roots: seq<Alias>) {
    forall i, j :: 0 <= i < j < |rows| ==>
      || FirstHolder(rows[i].alias, roots) < FirstHolder(rows[j].alias, roots)
      || (FirstHolder(rows[i].alias, roots) == FirstHolder(rows[j].alias, roots) && env.collate(rows[i].alias, rows[j].alias))
  }

  lemma SubtreeRowsAscend(env: Env, nodes: map<Id, GNode>, root: Alias)
    requires ValidEnv(env)
    ensures SortedBy(SubtreeRows(env, nodes, root), ByAlias(env))
  {
    SortBySorted(Rows(nodes, env.rowOrder(nodes, SubtreeIds(nodes, root))), ByAlias(env));
  }

  lemma {:induction false} NewRowsSorted(rows: seq<GNode>, seen: set<Id>, leq: (GNode, GNode) -> bool)
    requires SortedBy(rows, leq)
    ensures SortedBy(NewRows(rows, seen), leq) && forall g :: g in NewRows(rows, seen) ==> g in rows
  {
    if rows != [] {
      var seen' := if rows[0].id in seen then seen else seen + {rows[0].id};
      var rest := NewRows(rows[1..], seen');
      NewRowsSorted(rows[1..], seen', leq);
      if rows[0].id !in seen {
        forall j | 0 <= j < |rest| ensures leq(rows[0], rest[j]) {
          assert rest[j] in rows[1..];
        }
        assert NewRows(rows, seen) == [rows[0]] + rest;
      }
    }
  }

  /** One root's rows, then those of the other roots. */
  lemma OrderedConcat(env: Env, first: seq<GNode>, rest: seq<GNode>, roots: seq<Alias>)
    requires roots != [] && SortedBy(first, ByAlias(env)) && InForestOrder(env, rest, roots[1..])
    requires forall g :: g in first ==> InSubtree(g.alias, roots[0])
    requires forall g :: g in rest ==> !InSubtree(g.alias, roots[0])
    ensures InForestOrder(env, first + rest, roots)
  {
    assert forall i :: 0 <= i < |first| ==> first[i] in first;
    assert forall i :: 0 <= i < |rest| ==> rest[i] in rest;
  }

  lemma {:induction false} ForestRowsOrdered(env: Env, nodes: map<Id, GNode>, roots: seq<Alias>, seen: set<Id>)
    requires ValidEnv(env) && KeyedById(nodes)
    ensures InForestOrder(env, ForestRows(env, nodes, roots, seen), roots)
    decreases |roots|
  {
    if roots != [] {
      var sub := SubtreeRows(env, nodes, roots[0]);
      var first := NewRows(sub, seen);
      var rest := ForestRows(env, nodes, roots[1..], seen + RowIds(first));
      SubtreeRowsAre(env, nodes, roots[0]);
      FirstRowsAre(nodes, roots[0], sub, seen);
      SubtreeRowsAscend(env, nodes, roots[0]);
      NewRowsSorted(sub, seen, ByAlias(env));
      ForestRowsAre(env, nodes, roots[1..], seen + RowIds(first));
      ForestRowsOrdered(env, nodes, roots[1..], seen + RowIds(first));
      forall g | g in rest ensures !InSubtree(g.alias, roots[0]) {
        assert g !in first;
      }
      OrderedConcat(env, first, rest, roots);
    }
  }

  /** Rows come in the order of the first requested root that holds them and, within a root, ascend by
      alias; edges ascend by id; both as the database collates. */
  lemma GetForestOrdered(env: Env, db: Registry, roots: seq<Alias>)
    requires ValidEnv(env) && Constraints(db) && GetForest(env, db, roots).Some?
    ensures var f := GetForest(env, db, roots).value;
            && (forall i, j :: 0 <= i < j < |f.nodes| ==>
                  || FirstHolder(f.nodes[i].alias, roots) < FirstHolder(f.nodes[j].alias, roots)
                  || (FirstHolder(f.nodes[i].alias, roots) == FirstHolder(f.nodes[j].alias, roots)
                      && env.collate(f.nodes[i].alias, f.nodes[j].alias)))
            && (forall i, j :: 0 <= i < j < |f.edges| ==> env.collate(f.edges[i].id, f.edges[j].id))
  {
    ForestRowsOrdered(env, db.nodes, roots, {});
    var ids := RowIds(ForestRows(env, db.nodes, roots, {}));
    SortBySorted(EdgeRows(db.edges, env.edgeOrder(db.edges, ActiveEdgeIds(db.edges, ids))), ByEdgeId(env));
  }

  // ---- when a read fails ----

  /** A read fails exactly if a row it would list breaks its axioms, or an active edge between two such
      rows joins a row to itself. */
  lemma GetForestFailsIff(env: Env, db: Registry, roots: seq<Alias>)
    requires ValidEnv(env) && Constraints(db)
    ensures GetForest(env, db, roots).None? <==>
              || (exists i :: i in db.nodes && Requested(db.nodes[i].alias, roots) && !ValidGNode(db.nodes[i]))
              || (exists k :: k in db.edges && db.edges[k].status.Active? && db.edges[k].fromId == db.edges[k].toId
                              && Requested(db.nodes[db.edges[k].fromId].alias, roots))
  {
    var rows := ForestRows(env, db.nodes, roots, {});
    ForestRowsAre(env, db.nodes, roots, {});
    ForestEdgesAre(env, db, RowIds(rows));
    forall i | i in db.nodes ensures Requested(db.nodes[i].alias, roots) <==> i in RowIds(rows) {
      assert db.nodes[i] in rows <==> Requested(db.nodes[i].alias, roots);
    }
    forall i | i in db.nodes && Requested(db.nodes[i].alias, roots) ensures db.nodes[i] in rows {}
    forall k | k in db.edges && db.edges[k].status.Active? && db.edges[k].fromId == db.edges[k].toId
        && Requested(db.nodes[db.edges[k].fromId].alias, roots)
      ensures db.edges[k] in ForestEdges(env, db, RowIds(rows))
    {}
  }

  // ---- storage order ----

  lemma SortedAlike<T(!new)>(s: seq<T>, t: seq<T>, leq: (T, T) -> bool)
    requires multiset(s) == multiset(t) && Sortable(s, leq)
    requires forall x, y :: x in s && y in s && leq(x, y) && leq(y, x) ==> x == y
    ensures SortBy(s, leq) == SortBy(t, leq)
  {
    SameBag(s, t);
    SortBySorted(s, leq);
    SortBySorted(t, leq);
    SortByPermutes(s, leq);
    SortByPermutes(t, leq);
    SortedUnique(SortBy(s, leq), SortBy(t, leq), leq);
  }

  lemma BagOfEnumerations<T(!new)>(s: seq<T>, t: seq<T>)
    requires Distinct(s) && Distinct(t) && forall x :: x in s <==> x in t
    ensures multiset(s) == multiset(t)
  {
    assert Enumerates(s, Members(s)) && Enumerates(t, Members(s));
    EnumerationsPermute(s, t, Members(s));
  }

  lemma SubtreeRowsAlike(env: Env, env': Env, nodes: map<Id, GNode>, root: Alias)
    requires ValidEnv(env) && ValidEnv(env') && env'.collate == env.collate
    requires KeyedById(nodes) && UniqueAliases(nodes)
    ensures SubtreeRows(env, nodes, root) == SubtreeRows(env', nodes, root)
  {
    var chosen := SubtreeIds(nodes, root);
    var rows, rows' := Rows(nodes, env.rowOrder(nodes, chosen)), Rows(nodes, env'.rowOrder(nodes, chosen));
    EnumeratedRows(nodes, env.rowOrder(nodes, chosen), chosen);
    EnumeratedRows(nodes, env'.rowOrder(nodes, chosen), chosen);
    BagOfEnumerations(rows, rows');
    SortedAlike(rows, rows', ByAlias(env));
    assert ByAlias(env) == ByAlias(env');
  }

  lemma {:induction false} ForestRowsAlike(env: Env, env': Env, nodes: map<Id, GNode>, roots: seq<Alias>, seen: set<Id>)
    requires ValidEnv(env) && ValidEnv(env') && env'.collate == env.collate
    requires KeyedById(nodes) && UniqueAliases(nodes)
    ensures ForestRows(env, nodes, roots, seen) == ForestRows(env', nodes, roots, seen)
    decreases |roots|
  {
    if roots != [] {
      SubtreeRowsAlike(env, env', nodes, roots[0]);
      var rows := NewRows(SubtreeRows(env, nodes, roots[0]), seen);
      ForestRowsAlike(env, env', nodes, roots[1..], seen + RowIds(rows));
    }
  }

  lemma ForestEdgesAlike(env: Env, env': Env, db: Registry, ids: set<Id>)
    requires ValidEnv(env) && ValidEnv(env') && env'.collate == env.collate && Constraints(db)
    ensures ForestEdges(env, db, ids) == ForestEdges(env', db, ids)
  {
    var chosen := ActiveEdgeIds(db.edges, ids);
    var rows, rows' := EdgeRows(db.edges, env.edgeOrder(db.edges, chosen)), EdgeRows(db.edges, env'.edgeOrder(db.edges, chosen));
    EnumeratedEdges(db, env.edgeOrder(db.edges, chosen), chosen);
    EnumeratedEdges(db, env'.edgeOrder(db.edges, chosen), chosen);
    BagOfEnumerations(rows, rows');
    SortedAlike(rows, rows', ByEdgeId(env));
    assert ByEdgeId(env) == ByEdgeId(env');
  }

  /** Forest reads are deterministic: the order in which the tables return rows does not show. */
  lemma GetForestDeterministic(env: Env, env': Env, db: Registry, roots: seq<Alias>)
    requires ValidEnv(env) && ValidEnv(env') && env'.collate == env.collate && Constraints(db)
    ensures GetForest(env, db, roots) == GetForest(env', db, roots)
  {
    ForestRowsAlike(env, env', db.nodes, roots, {});
    ForestEdgesAlike(env, env', db, RowIds(ForestRows(env, db.nodes, roots, {})));
  }
}
