/** The whole-registry invariants: what each of the five checks means, and the checks themselves. */
module Validator {
  import opened Prelude
  import opened Aliases
  import opened GNodes
  import opened Tables

  datatype Rule = UniverseScope | ParentClosedActive | EdgeNonTree | ClassHierarchy | ActivePosition

  /** `subject` is a node id, or an edge id for `EdgeNonTree`. */
  datatype Violation = Violation(rule: Rule, subject: Id)

  predicate Copper(c: BaseClass) { c.ConnectivityNode? || c.MarketMaker? }

  // ---- the invariants ----

  ghost predicate UniverseScoped(nodes: map<Id, GNode>, universe: string) {
    forall i :: i in nodes ==> UniverseOf(nodes[i].alias) == universe
  }

  /** An Active non-root has an Active alias-parent. */
  ghost predicate ParentActive(nodes: map<Id, GNode>, g: GNode) {
    g.status.Active? && !IsForestRoot(g.alias) ==>
      var p := RowAt(nodes, ParentAlias(g.alias));
      p.Some? && p.value.status.Active?
  }

  ghost predicate ParentClosed(nodes: map<Id, GNode>) {
    forall i :: i in nodes ==> ParentActive(nodes, nodes[i])
  }

  /** Two nodes are a parent and its child, in either direction. */
  predicate TreePair(f: GNode, t: GNode) {
    ParentAlias(t.alias) == f.alias || ParentAlias(f.alias) == t.alias
  }

  predicate EdgeOk(nodes: map<Id, GNode>, e: Edge) {
    && e.fromId in nodes && e.toId in nodes
    && nodes[e.fromId].status.Active? && nodes[e.toId].status.Active?
    && !TreePair(nodes[e.fromId], nodes[e.toId])
  }

  ghost predicate EdgesNonTree(nodes: map<Id, GNode>, edges: map<Id, Edge>) {
    forall k :: k in edges && edges[k].status.Active? ==> EdgeOk(nodes, edges[k])
  }

  predicate RootClassOk(g: GNode) {
    Copper(g.baseClass) || (g.baseClass.Logical? && g.gNodeClass != "Scada")
  }

  predicate ParentClassOk(g: GNode, parent: BaseClass) {
    if Copper(g.baseClass) || g.baseClass.LeafTransactiveNode? then Copper(parent)
    else if g.baseClass.TerminalAsset? then parent.LeafTransactiveNode?
    else if g.gNodeClass == "Scada" then parent.LeafTransactiveNode?
    else true
  }

  ghost predicate ClassOk(nodes: map<Id, GNode>, g: GNode) {
    if IsForestRoot(g.alias) then RootClassOk(g)
    else
      var p := RowAt(nodes, ParentAlias(g.alias));
      p.Some? ==> ParentClassOk(g, p.value.baseClass)
  }

  ghost predicate ClassesOk(nodes: map<Id, GNode>) {
    forall i :: i in nodes ==> ClassOk(nodes, nodes[i])
  }

  predicate PositionHeld(g: GNode, positions: set<Id>) {
    g.status.Active? && !g.baseClass.Logical? ==>
      g.positionPointId.Some? && g.positionPointId.value in positions
  }

  ghost predicate PositionsHeld(nodes: map<Id, GNode>, positions: set<Id>) {
    forall i :: i in nodes ==> PositionHeld(nodes[i], positions)
  }

  /** A registry `validate_registry` finds nothing wrong with. */
  ghost predicate Clean(nodes: map<Id, GNode>, edges: map<Id, Edge>, positions: set<Id>, universe: string) {
    && UniverseScoped(nodes, universe)
    && ParentClosed(nodes)
    && EdgesNonTree(nodes, edges)
    && ClassesOk(nodes)
    && PositionsHeld(nodes, positions)
  }

  // ---- what the audit looks at ----

  /** Rows the audit cannot tell apart, but for two forms of a copper node: all but the previous alias
      agree. */
  predicate AuditedAlike(g: GNode, h: GNode) {
    && h.id == g.id && h.alias == g.alias && h.status == g.status && h.positionPointId == g.positionPointId
    && ((h.baseClass == g.baseClass && h.gNodeClass == g.gNodeClass) || (Copper(g.baseClass) && Copper(h.baseClass)))
  }

  ghost predicate TablesAlike(nodes: map<Id, GNode>, after: map<Id, GNode>) {
    after.Keys == nodes.Keys && forall i :: i in nodes ==> AuditedAlike(nodes[i], after[i])
  }

  lemma AlikeAliases(nodes: map<Id, GNode>, after: map<Id, GNode>)
    requires TablesAlike(nodes, after)
    ensures forall i :: i in nodes ==> after[i].alias == nodes[i].alias && after[i].id == nodes[i].id
    ensures UniqueAliases(nodes) ==> UniqueAliases(after)
  {
    forall i | i in nodes ensures after[i].alias == nodes[i].alias && after[i].id == nodes[i].id {
      assert AuditedAlike(nodes[i], after[i]);
    }
    assert forall i :: i in after ==> i in nodes;
  }

  lemma AlikeRowAt(nodes: map<Id, GNode>, after: map<Id, GNode>, a: Alias)
    requires TablesAlike(nodes, after) && UniqueAliases(nodes)
    ensures RowAt(nodes, a).Some? <==> RowAt(after, a).Some?
    ensures RowAt(nodes, a).Some? ==> AuditedAlike(RowAt(nodes, a).value, RowAt(after, a).value)
  {
    AlikeAliases(nodes, after);
    if RowAt(nodes, a).Some? {
      var i :| i in nodes && nodes[i].alias == a;
      RowAtIs(nodes, i);
      RowAtIs(after, i);
    }
  }

  lemma AlikeRow(nodes: map<Id, GNode>, after: map<Id, GNode>, i: Id)
    requires TablesAlike(nodes, after) && UniqueAliases(nodes) && i in nodes
    ensures i in after
    ensures ParentActive(nodes, nodes[i]) <==> ParentActive(after, after[i])
    ensures ClassOk(nodes, nodes[i]) <==> ClassOk(after, after[i])
  {
    assert AuditedAlike(nodes[i], after[i]);
    AlikeRowAt(nodes, after, ParentAlias(nodes[i].alias));
  }

  lemma AlikeEdge(nodes: map<Id, GNode>, after: map<Id, GNode>, e: Edge)
    requires TablesAlike(nodes, after)
    ensures EdgeOk(nodes, e) <==> EdgeOk(after, e)
  {
    if e.fromId in nodes && e.toId in nodes {
      assert AuditedAlike(nodes[e.fromId], after[e.fromId]) && AuditedAlike(nodes[e.toId], after[e.toId]);
    }
  }

  /** Tables alike are clean together. */
  lemma AlikeClean(nodes: map<Id, GNode>, after: map<Id, GNode>, edges: map<Id, Edge>, positions: set<Id>, universe: string)
    requires TablesAlike(nodes, after) && UniqueAliases(nodes)
    ensures Clean(nodes, edges, positions, universe) <==> Clean(after, edges, positions, universe)
  {
    forall i | i in nodes
      ensures i in after && nodes[i].alias == after[i].alias
      ensures PositionHeld(nodes[i], positions) <==> PositionHeld(after[i], positions)
      ensures ParentActive(nodes, nodes[i]) <==> ParentActive(after, after[i])
      ensures ClassOk(nodes, nodes[i]) <==> ClassOk(after, after[i])
    {
      AlikeRow(nodes, after, i);
      assert AuditedAlike(nodes[i], after[i]);
    }
    assert forall i :: i in after ==> i in nodes;
    forall k | k in edges ensures EdgeOk(nodes, edges[k]) <==> EdgeOk(after, edges[k]) { AlikeEdge(nodes, after, edges[k]); }
  }

  // ---- the checks ----

  /** `{n.alias: n for n in rows}`: with unique aliases, one entry a row. */
  ghost predicate Indexes(byAlias: map<Alias, GNode>, nodes: map<Id, GNode>) {
    && (forall a :: a in byAlias ==> byAlias[a].alias == a && byAlias[a].id in nodes && nodes[byAlias[a].id] == byAlias[a])
    && (forall i :: i in nodes ==> nodes[i].alias in byAlias && byAlias[nodes[i].alias] == nodes[i])
  }

  lemma IndexedRowAt(byAlias: map<Alias, GNode>, nodes: map<Id, GNode>, a: Alias)
    requires Indexes(byAlias, nodes)
    ensures RowAt(nodes, a) == if a in byAlias then Some(byAlias[a]) else None
  {}

  /** The ids of a list of violations that all report one rule. */
  ghost predicate Reports(violations: seq<Violation>, rule: Rule, subjects: set<Id>) {
    && (forall v :: v in violations ==> v.rule == rule && v.subject in subjects)
    && (forall s :: s in subjects ==> Violation(rule, s) in violations)
  }

  method CheckParentClosedActive(byAlias: map<Alias, GNode>, ghost nodes: map<Id, GNode>)
    returns (violations: seq<Violation>)
    requires KeyedById(nodes) && Indexes(byAlias, nodes)
    ensures Reports(violations, ParentClosedActive, set i | i in nodes && !ParentActive(nodes, nodes[i]))
  {
    violations := [];
    var todo := byAlias.Keys;
    while todo != {}
      invariant todo <= byAlias.Keys
      invariant Reports(violations, ParentClosedActive,
                  set i | i in nodes && nodes[i].alias !in todo && !ParentActive(nodes, nodes[i]))
    {
      var a :| a in todo;
      todo := todo - {a};
      var node := byAlias[a];
      if node.status.Active? && !IsForestRoot(node.alias) {
        var p := ParentAlias(node.alias);
        IndexedRowAt(byAlias, nodes, p);
        if p !in byAlias {
          violations := violations + [Violation(ParentClosedActive, node.id)];
        } else if !byAlias[p].status.Active? {
          violations := violations + [Violation(ParentClosedActive, node.id)];
        }
      }
    }
  }

  /** One finding, at least, for each of the listed edges that is not sound, and no other. */
  ghost predicate EdgeReports(violations: seq<Violation>, edges: seq<Edge>, nodes: map<Id, GNode>) {
    && (forall v :: v in violations ==>
          v.rule.EdgeNonTree? && exists k :: 0 <= k < |edges| && edges[k].id == v.subject && !EdgeOk(nodes, edges[k]))
    && (forall k :: 0 <= k < |edges| && !EdgeOk(nodes, edges[k]) ==> Violation(EdgeNonTree, edges[k].id) in violations)
  }

  lemma EdgeReportsTurn(violations: seq<Violation>, edges: seq<Edge>, k: nat, nodes: map<Id, GNode>, found: seq<Violation>)
    requires k < |edges| && EdgeReports(violations, edges[..k], nodes)
    requires forall v :: v in found ==> v == Violation(EdgeNonTree, edges[k].id)
    requires found == [] <==> EdgeOk(nodes, edges[k])
    ensures EdgeReports(violations + found, edges[..k + 1], nodes)
  {
    var before, seen := edges[..k], edges[..k + 1];
    assert seen == before + [edges[k]] && seen[k] == edges[k];
    if found != [] { assert found[0] in found; }
    forall v | v in violations + found
      ensures v.rule.EdgeNonTree? && exists j :: 0 <= j < |seen| && seen[j].id == v.subject && !EdgeOk(nodes, seen[j])
    {
      if v in violations {
        var j :| 0 <= j < |before| && before[j].id == v.subject && !EdgeOk(nodes, before[j]);
        assert seen[j] == before[j];
      }
    }
  }

  method CheckEdgesNonTree(byAlias: map<Alias, GNode>, activeEdges: seq<Edge>, ghost nodes: map<Id, GNode>)
    returns (violations: seq<Violation>)
    requires KeyedById(nodes) && Indexes(byAlias, nodes)
    ensures EdgeReports(violations, activeEdges, nodes)
  {
    var byId := map g | g in byAlias.Values :: g.id := g;
    assert byId == nodes;
    violations := [];
    for k := 0 to |activeEdges|
      invariant EdgeReports(violations, activeEdges[..k], nodes)
    {
      var edge := activeEdges[k];
      var found := CheckEdge(byId, edge);
      EdgeReportsTurn(violations, activeEdges, k, nodes, found);
      violations := violations + found;
    }
    assert activeEdges[..|activeEdges|] == activeEdges;
  }

  /** The body of the edge loop. */
  method CheckEdge(byId: map<Id, GNode>, edge: Edge) returns (found: seq<Violation>)
    ensures forall v :: v in found ==> v == Violation(EdgeNonTree, edge.id)
    ensures found == [] <==> EdgeOk(byId, edge)
  {
    found := [];
    if edge.fromId !in byId || edge.toId !in byId {
      return [Violation(EdgeNonTree, edge.id)];
    }
    var f, t := byId[edge.fromId], byId[edge.toId];
    for k := 0 to 2
      invariant forall v :: v in found ==> v == Violation(EdgeNonTree, edge.id)
      invariant found == [] <==> (k > 0 ==> f.status.Active?) && (k > 1 ==> t.status.Active?)
    {
      if !(if k == 0 then f else t).status.Active? {
        found := found + [Violation(EdgeNonTree, edge.id)];
      }
    }
    if ParentAlias(t.alias) == f.alias || ParentAlias(f.alias) == t.alias {
      found := found + [Violation(EdgeNonTree, edge.id)];
    }
  }

  method CheckClassHierarchy(byAlias: map<Alias, GNode>, ghost nodes: map<Id, GNode>)
    returns (violations: seq<Violation>)
    requires KeyedById(nodes) && Indexes(byAlias, nodes)
    ensures Reports(violations, ClassHierarchy, set i | i in nodes && !ClassOk(nodes, nodes[i]))
  {
    violations := [];
    var todo := byAlias.Keys;
    while todo != {}
      invariant todo <= byAlias.Keys
      invariant Reports(violations, ClassHierarchy,
                  set i | i in nodes && nodes[i].alias !in todo && !ClassOk(nodes, nodes[i]))
    {
      var a :| a in todo;
      todo := todo - {a};
      var node := byAlias[a];
      if IsForestRoot(node.alias) {
        if !(Copper(node.baseClass) || (node.baseClass.Logical? && node.gNodeClass != "Scada")) {
          violations := violations + [Violation(ClassHierarchy, node.id)];
        }
        continue;
      }
      IndexedRowAt(byAlias, nodes, ParentAlias(node.alias));
      if ParentAlias(node.alias) !in byAlias { continue; }
      var pbc := byAlias[ParentAlias(node.alias)].baseClass;
      var ok;
      if Copper(node.baseClass) || node.baseClass.LeafTransactiveNode? {
        ok := Copper(pbc);
      } else if node.baseClass.TerminalAsset? {
        ok := pbc.LeafTransactiveNode?;
      } else if node.gNodeClass == "Scada" {
        ok := pbc.LeafTransactiveNode?;
      } else {
        continue;
      }
      if !ok {
        violations := violations + [Violation(ClassHierarchy, node.id)];
      }
    }
  }

  /** A comprehension over the rows, in some order. */
  method Report(subjects: set<Id>, rule: Rule) returns (violations: seq<Violation>)
    ensures Reports(violations, rule, subjects)
  {
    violations := [];
    var todo := subjects;
    while todo != {}
      invariant todo <= subjects
      invariant Reports(violations, rule, subjects - todo)
    {
      var i :| i in todo;
      todo := todo - {i};
      violations := violations + [Violation(rule, i)];
    }
  }

  /** What it takes for a violation to be found. */
  ghost predicate Violated(v: Violation, nodes: map<Id, GNode>, edges: map<Id, Edge>, positions: set<Id>, universe: string) {
    match v.rule
    case UniverseScope => v.subject in nodes && UniverseOf(nodes[v.subject].alias) != universe
    case ParentClosedActive => v.subject in nodes && !ParentActive(nodes, nodes[v.subject])
    case EdgeNonTree => exists k :: k in edges && edges[k].id == v.subject && edges[k].status.Active? && !EdgeOk(nodes, edges[k])
    case ClassHierarchy => v.subject in nodes && !ClassOk(nodes, nodes[v.subject])
    case ActivePosition => v.subject in nodes && !PositionHeld(nodes[v.subject], positions)
  }

  lemma CleanIffNothingViolated(nodes: map<Id, GNode>, edges: map<Id, Edge>, positions: set<Id>, universe: string)
    ensures Clean(nodes, edges, positions, universe)
            <==> forall v :: !Violated(v, nodes, edges, positions, universe)
  {
    if forall v :: !Violated(v, nodes, edges, positions, universe) {
      forall i | i in nodes
        ensures UniverseOf(nodes[i].alias) == universe && ParentActive(nodes, nodes[i])
        ensures ClassOk(nodes, nodes[i]) && PositionHeld(nodes[i], positions)
      {
        assert !Violated(Violation(UniverseScope, i), nodes, edges, positions, universe);
        assert !Violated(Violation(ParentClosedActive, i), nodes, edges, positions, universe);
        assert !Violated(Violation(ClassHierarchy, i), nodes, edges, positions, universe);
        assert !Violated(Violation(ActivePosition, i), nodes, edges, positions, universe);
      }
      forall k | k in edges && edges[k].status.Active? ensures EdgeOk(nodes, edges[k]) {
        assert !Violated(Violation(EdgeNonTree, edges[k].id), nodes, edges, positions, universe);
      }
    }
  }

  method ActiveEdges(edges: map<Id, Edge>) returns (active: seq<Edge>)
    ensures forall e :: e in active <==> exists k :: k in edges && edges[k] == e && e.status.Active?
  {
    active := [];
    var todo := edges.Keys;
    while todo != {}
      invariant todo <= edges.Keys
      invariant forall e :: e in active <==> exists k :: k in edges.Keys - todo && edges[k] == e && e.status.Active?
    {
      var k :| k in todo;
      todo := todo - {k};
      if edges[k].status.Active? { active := active + [edges[k]]; }
    }
  }

  /** Runs the five checks over the open tables; no violations means a clean registry. */
  method ValidateRegistry(nodes: map<Id, GNode>, edges: map<Id, Edge>, positions: set<Id>, universe: string)
    returns (violations: seq<Violation>)
    requires KeyedById(nodes) && UniqueAliases(nodes)
    ensures forall v :: v in violations <==> Violated(v, nodes, edges, positions, universe)
    ensures violations == [] <==> Clean(nodes, edges, positions, universe)
  {
    var byAlias := map g | g in nodes.Values :: g.alias := g;
    assert Indexes(byAlias, nodes);
    var active := ActiveEdges(edges);
    var scope := Report((set i | i in nodes && UniverseOf(nodes[i].alias) != universe), UniverseScope);
    var closed := CheckParentClosedActive(byAlias, nodes);
    var nonTree := CheckEdgesNonTree(byAlias, active, nodes);
    var classes := CheckClassHierarchy(byAlias, nodes);
    var held := Report((set i | i in nodes && !PositionHeld(nodes[i], positions)), ActivePosition);
    violations := scope + closed + nonTree + classes + held;
    AllChecks(violations, scope, closed, nonTree, classes, held, active, nodes, edges, positions, universe);
    CleanIffNothingViolated(nodes, edges, positions, universe);
    assert violations != [] ==> violations[0] in violations;
  }

  lemma AllChecks(violations: seq<Violation>, scope: seq<Violation>, closed: seq<Violation>, nonTree: seq<Violation>,
      classes: seq<Violation>, held: seq<Violation>, active: seq<Edge>,
      nodes: map<Id, GNode>, edges: map<Id, Edge>, positions: set<Id>, universe: string)
    requires violations == scope + closed + nonTree + classes + held
    requires Reports(scope, UniverseScope, set i | i in nodes && UniverseOf(nodes[i].alias) != universe)
    requires Reports(closed, ParentClosedActive, set i | i in nodes && !ParentActive(nodes, nodes[i]))
    requires EdgeReports(nonTree, active, nodes)
    requires forall e :: e in active <==> exists k :: k in edges && edges[k] == e && e.status.Active?
    requires Reports(classes, ClassHierarchy, set i | i in nodes && !ClassOk(nodes, nodes[i]))
    requires Reports(held, ActivePosition, set i | i in nodes && !PositionHeld(nodes[i], positions))
    ensures forall v :: v in violations <==> Violated(v, nodes, edges, positions, universe)
  {
    forall v ensures v in violations <==> Violated(v, nodes, edges, positions, universe) {
      assert v in violations <==> v in scope || v in closed || v in nonTree || v in classes || v in held;
      assert v == Violation(v.rule, v.subject);
      if v in nonTree {
        var j :| 0 <= j < |active| && active[j].id == v.subject && !EdgeOk(nodes, active[j]);
        assert active[j] in active;
      }
      if v.rule.EdgeNonTree? && Violated(v, nodes, edges, positions, universe) {
        var k :| k in edges && edges[k].id == v.subject && edges[k].status.Active? && !EdgeOk(nodes, edges[k]);
        assert edges[k] in active;
      }
    }
  }
}
