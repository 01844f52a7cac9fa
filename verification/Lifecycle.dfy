/** The legal class changes, and that they keep a clean registry clean. */
module Lifecycle {
  import opened Prelude
  import opened Aliases
  import opened GNodes
  import opened Tables
  import opened Validator
  import opened Invariants

  /** The sanctioned moves; staying is always allowed. */
  function AllowedBaseClassMoves(c: BaseClass): set<BaseClass> {
    match c
    case ConnectivityNode => {MarketMaker}
    case MarketMaker => {ConnectivityNode}
    case _ => {}
  }

  predicate BaseClassTransitionOk(before: BaseClass, after: BaseClass) {
    after == before || after in AllowedBaseClassMoves(before)
  }

  /** Sanctioned are exactly: staying, and switching between the two forms of a copper node. */
  lemma SanctionedMoves(before: BaseClass, after: BaseClass)
    ensures BaseClassTransitionOk(before, after) <==>
              || after == before
              || (before == ConnectivityNode && after == MarketMaker)
              || (before == MarketMaker && after == ConnectivityNode)
  {}

  /** A class change with `g_node_class` in lockstep; no change is a no-op. */
  function Switched(g: GNode, c: BaseClass): GNode {
    if c == g.baseClass then g else g.(baseClass := c, gNodeClass := ClassName(c))
  }

  datatype ClassChange = ClassChange(id: Id, to: BaseClass)

  function SwitchAll(nodes: map<Id, GNode>, changes: seq<ClassChange>): map<Id, GNode> {
    if changes == [] then nodes
    else if changes[0].id in nodes && BaseClassTransitionOk(nodes[changes[0].id].baseClass, changes[0].to) then
      SwitchAll(nodes[changes[0].id := Switched(nodes[changes[0].id], changes[0].to)], changes[1..])
    else
      SwitchAll(nodes, changes[1..])
  }

  /** Equal, or two forms of one copper node. */
  predicate CopperAlike(g: GNode, h: GNode) {
    g == h || (Copper(g.baseClass) && Copper(h.baseClass) && h == Switched(g, h.baseClass))
  }

  ghost predicate SwitchedAlike(nodes: map<Id, GNode>, after: map<Id, GNode>) {
    after.Keys == nodes.Keys && forall i :: i in nodes ==> CopperAlike(nodes[i], after[i])
  }

  lemma SwitchedAuditsAlike(nodes: map<Id, GNode>, after: map<Id, GNode>)
    requires SwitchedAlike(nodes, after)
    ensures TablesAlike(nodes, after)
  {
    forall i | i in nodes ensures AuditedAlike(nodes[i], after[i]) { assert CopperAlike(nodes[i], after[i]); }
  }

  lemma SwitchAlike(g: GNode, c: BaseClass)
    requires BaseClassTransitionOk(g.baseClass, c)
    ensures CopperAlike(g, Switched(g, c))
  {}

  /** A copper node names itself after its class. */
  ghost predicate ClassesConsistent(nodes: map<Id, GNode>) {
    forall i :: i in nodes ==> ClassConsistency(nodes[i])
  }

  lemma {:induction false} SwitchingAlike(nodes: map<Id, GNode>, changes: seq<ClassChange>)
    requires ClassesConsistent(nodes)
    ensures SwitchedAlike(nodes, SwitchAll(nodes, changes)) && ClassesConsistent(SwitchAll(nodes, changes))
    decreases |changes|
  {
    if changes != [] {
      var c := changes[0];
      if c.id in nodes && BaseClassTransitionOk(nodes[c.id].baseClass, c.to) {
        var next := nodes[c.id := Switched(nodes[c.id], c.to)];
        SwitchAlike(nodes[c.id], c.to);
        SwitchingAlike(next, changes[1..]);
        var end := SwitchAll(next, changes[1..]);
        forall i | i in nodes ensures CopperAlike(nodes[i], end[i]) {
          assert CopperAlike(nodes[i], next[i]) && CopperAlike(next[i], end[i]);
        }
      } else {
        SwitchingAlike(nodes, changes[1..]);
      }
    }
  }

  /** Any run of sanctioned class changes, on any nodes of any registry, leaves it clean exactly if
      it was, and its rows valid. */
  lemma CopperSwitchingKeepsClean(db: Registry, changes: seq<ClassChange>, universe: string)
    requires Sound(db)
    ensures var after := SwitchAll(db.nodes, changes);
            && (Clean(db.nodes, db.edges, db.positions, universe) <==> Clean(after, db.edges, db.positions, universe))
            && Sound(db.(nodes := after))
  {
    SwitchingAlike(db.nodes, changes);
    SwitchedAuditsAlike(db.nodes, SwitchAll(db.nodes, changes));
    AlikeClean(db.nodes, SwitchAll(db.nodes, changes), db.edges, db.positions, universe);
    AlikeSound(db, SwitchAll(db.nodes, changes));
  }

  lemma AlikeConstraints(db: Registry, after: map<Id, GNode>)
    requires Constraints(db) && SwitchedAlike(db.nodes, after) && RowsValid(db.nodes)
    ensures Constraints(db.(nodes := after))
  {
    SwitchedAuditsAlike(db.nodes, after);
    AlikeAliases(db.nodes, after);
    AlikeRows(db.nodes, after);
    assert after.Keys == db.nodes.Keys;
    assert forall i :: i in after <==> i in db.nodes;
  }

  lemma AlikeSound(db: Registry, after: map<Id, GNode>)
    requires Sound(db) && SwitchedAlike(db.nodes, after)
    ensures Sound(db.(nodes := after))
  {
    AlikeConstraints(db, after);
    AlikeRows(db.nodes, after);
    assert LedgerOwned(after, db.ledger) by {
      SwitchedAuditsAlike(db.nodes, after);
      AlikeAliases(db.nodes, after);
    }
  }

  lemma AlikeRows(nodes: map<Id, GNode>, after: map<Id, GNode>)
    requires SwitchedAlike(nodes, after) && RowsValid(nodes)
    ensures RowsValid(after) && forall i :: i in nodes ==> after[i].positionPointId == nodes[i].positionPointId
  {
    forall i | i in nodes ensures ValidGNode(after[i]) && after[i].positionPointId == nodes[i].positionPointId {
      assert CopperAlike(nodes[i], after[i]);
      AlikeValid(nodes[i], after[i]);
    }
    assert forall i :: i in after ==> i in nodes;
  }

  lemma AlikeValid(g: GNode, h: GNode)
    requires ValidGNode(g) && CopperAlike(g, h)
    ensures ValidGNode(h)
  {
    if g != h {
      assert g.gNodeClass != "TerminalAsset" && g.gNodeClass != "Scada";
      assert h.gNodeClass == "ConnectivityNode" || h.gNodeClass == "MarketMaker";
    }
  }
}
