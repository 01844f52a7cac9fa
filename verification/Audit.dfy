/** What the row axioms and the audit's five rules come to, row by row, read on word lists and
    classes; and what the two commands therefore need to be applied. */
module Audit {
  import opened Prelude
  import opened Aliases
  import opened Paths
  import opened GNodes
  import opened Tables
  import opened Validator
  import opened Transactions
  import opened Invariants

  // ---- the row axioms ----

  lemma SuffixIffLastWord(a: Alias, w: string)
    requires Dotted(a) && '.' !in w
    ensures EndsWith(a, "." + w) <==> LastWord(a) == w
  {
    LastWordIsSuffix(a);
    if EndsWith(a, "." + w) { SuffixIsLastWord(a, w); }
  }

  lemma DottedIffWords(a: Alias)
    ensures Dotted(a) <==> |Split(a)| >= 2
    ensures LastWord(a) == Split(a)[|Split(a)| - 1]
  {
    DottedCount(a);
    SplitLength(a);
    ParentIsAllButLast(a);
  }

  lemma SuffixesAreLastWords(g: GNode)
    requires Dotted(g.alias)
    ensures AliasSuffix(g) <==> (g.gNodeClass == "TerminalAsset" <==> LastWord(g.alias) == "ta")
                                && (g.gNodeClass == "Scada" <==> LastWord(g.alias) == "scada")
  {
    SuffixIffLastWord(g.alias, "ta");
    SuffixIffLastWord(g.alias, "scada");
    assert "." + "ta" == ".ta" && "." + "scada" == ".scada";
  }

  /** An alias the wire type accepts: the pattern, and at least two words. */
  predicate ProperAlias(a: Alias) { MatchesPattern(a) && |Split(a)| >= 2 }

  lemma ProperAliasIs(a: Alias)
    ensures ProperAlias(a) <==> LeftRightDot(a) && Dotted(a)
  {
    PatternIsLeftRightDot(a);
    DottedIffWords(a);
  }

  /** A logical class's own name: not a physical class's, not empty, no blank in it. */
  predicate LogicalName(s: string) {
    && s != "TerminalAsset" && s != "LeafTransactiveNode" && s != "ConnectivityNode" && s != "MarketMaker"
    && s != "" && !exists k :: 0 <= k < |s| && Space(s[k])
  }

  lemma NameAxioms(g: GNode)
    ensures ClassConsistency(g) && ClassNamespacing(g)
            <==> if g.baseClass.Logical? then LogicalName(g.gNodeClass) else g.gNodeClass == ClassName(g.baseClass)
  {
    ClassNameUnblank(g.baseClass);
  }

  lemma ClassNameUnblank(c: BaseClass)
    ensures ClassName(c) != "" && forall k :: 0 <= k < |ClassName(c)| ==> !Space(ClassName(c)[k])
  {}

  lemma NamedClass(g: GNode)
    requires ClassConsistency(g)
    ensures g.gNodeClass == "TerminalAsset" <==> g.baseClass.TerminalAsset?
    ensures g.gNodeClass == "Scada" ==> g.baseClass.Logical?
  {}

  lemma SuffixAxiom(g: GNode)
    requires Dotted(g.alias) && ClassConsistency(g)
    ensures var last := Split(g.alias)[|Split(g.alias)| - 1];
            AliasSuffix(g) <==> (last == "ta" <==> g.baseClass.TerminalAsset?) && (last == "scada" <==> g.gNodeClass == "Scada")
  {
    DottedIffWords(g.alias);
    SuffixesAreLastWords(g);
    NamedClass(g);
  }

  /** A valid row, exactly: two proper and different aliases; a physical class named by itself, a
      logical one with a name of its own; an alias that ends in the word `ta` just when it is a
      TerminalAsset's and in `scada` just when it is a Scada's; a position when Active and physical. */
  lemma RowAxioms(g: GNode)
    ensures ValidGNode(g) <==>
              && ProperAlias(g.alias)
              && (g.prevAlias.Some? ==> ProperAlias(g.prevAlias.value) && g.prevAlias.value != g.alias)
              && (if g.baseClass.Logical? then LogicalName(g.gNodeClass) else g.gNodeClass == ClassName(g.baseClass))
              && (g.status.Active? && !g.baseClass.Logical? ==> g.positionPointId.Some?)
              && (var last := Split(g.alias)[|Split(g.alias)| - 1];
                  (last == "ta" <==> g.baseClass.TerminalAsset?) && (last == "scada" <==> g.gNodeClass == "Scada"))
  {
    ProperAliasIs(g.alias);
    if g.prevAlias.Some? { ProperAliasIs(g.prevAlias.value); }
    NameAxioms(g);
    if Dotted(g.alias) && ClassConsistency(g) { SuffixAxiom(g); }
  }

  // ---- parents, on word lists ----

  /** `p` is where `g`'s words lead without the last. */
  predicate Above(p: GNode, g: GNode) {
    Split(p.alias) == Split(g.alias)[..|Split(g.alias)| - 1]
  }

  lemma AboveIsParent(p: GNode, g: GNode)
    requires Dotted(g.alias)
    ensures Above(p, g) <==> ParentAlias(g.alias) == p.alias
  {
    ParentIsAllButLast(g.alias);
    if Above(p, g) { SplitInjective(p.alias, ParentAlias(g.alias)); }
  }

  lemma AboveIsFound(nodes: map<Id, GNode>, g: GNode, p: Id)
    requires UniqueAliases(nodes) && Dotted(g.alias) && p in nodes && Above(nodes[p], g)
    ensures RowAt(nodes, ParentAlias(g.alias)) == Some(nodes[p])
  {
    AboveIsParent(nodes[p], g);
    RowAtIs(nodes, p);
  }

  lemma FoundIsAbove(nodes: map<Id, GNode>, g: GNode) returns (p: Id)
    requires UniqueAliases(nodes) && Dotted(g.alias) && RowAt(nodes, ParentAlias(g.alias)).Some?
    ensures p in nodes && Above(nodes[p], g) && RowAt(nodes, ParentAlias(g.alias)) == Some(nodes[p])
  {
    p :| p in nodes && nodes[p] == RowAt(nodes, ParentAlias(g.alias)).value;
    AboveIsParent(nodes[p], g);
  }

  lemma WordsOf(nodes: map<Id, GNode>, i: Id)
    requires RowsValid(nodes) && i in nodes
    ensures Dotted(nodes[i].alias) && |Split(nodes[i].alias)| >= 2
    ensures IsForestRoot(nodes[i].alias) <==> |Split(nodes[i].alias)| == 2
  {
    assert HasBody(nodes[i]);
    DottedIffWords(nodes[i].alias);
    ParentIsAllButLast(nodes[i].alias);
  }

  // ---- the five rules ----

  /** Reported out of scope: the rows whose first word is not the universe. */
  lemma ScopeReported(nodes: map<Id, GNode>, edges: map<Id, Edge>, positions: set<Id>, universe: string, i: Id)
    ensures Violated(Violation(UniverseScope, i), nodes, edges, positions, universe)
            <==> i in nodes && Split(nodes[i].alias)[0] != universe
  {
    if i in nodes { ParentIsAllButLast(nodes[i].alias); }
  }

  /** An Active row above `g`. */
  ghost predicate Supported(nodes: map<Id, GNode>, g: GNode) {
    exists p :: p in nodes && nodes[p].status.Active? && Above(nodes[p], g)
  }

  lemma SupportedIff(nodes: map<Id, GNode>, g: GNode)
    requires UniqueAliases(nodes) && Dotted(g.alias)
    ensures RowAt(nodes, ParentAlias(g.alias)).Some? && RowAt(nodes, ParentAlias(g.alias)).value.status.Active?
            <==> Supported(nodes, g)
  {
    if p :| p in nodes && nodes[p].status.Active? && Above(nodes[p], g) { AboveIsFound(nodes, g, p); }
    if RowAt(nodes, ParentAlias(g.alias)).Some? { var p := FoundIsAbove(nodes, g); }
  }

  /** Reported as unsupported: the Active rows of three words or more with no Active row above. */
  lemma ClosureReported(nodes: map<Id, GNode>, edges: map<Id, Edge>, positions: set<Id>, universe: string, i: Id)
    requires UniqueAliases(nodes) && RowsValid(nodes)
    ensures Violated(Violation(ParentClosedActive, i), nodes, edges, positions, universe)
            <==> i in nodes && nodes[i].status.Active? && |Split(nodes[i].alias)| >= 3 && !Supported(nodes, nodes[i])
  {
    if i in nodes {
      WordsOf(nodes, i);
      SupportedIff(nodes, nodes[i]);
    }
  }

  /** Reported edges: the Active ones with an end that is no row or not Active, or with one end right
      above the other. */
  lemma EdgeReported(nodes: map<Id, GNode>, edges: map<Id, Edge>, positions: set<Id>, universe: string, k: Id)
    requires RowsValid(nodes) && forall j :: j in edges ==> edges[j].id == j
    ensures Violated(Violation(EdgeNonTree, k), nodes, edges, positions, universe)
            <==> k in edges && edges[k].status.Active?
                 && (var f, t := edges[k].fromId, edges[k].toId;
                     || f !in nodes || t !in nodes
                     || !nodes[f].status.Active? || !nodes[t].status.Active?
                     || Above(nodes[f], nodes[t]) || Above(nodes[t], nodes[f]))
  {
    if k in edges && edges[k].fromId in nodes && edges[k].toId in nodes {
      var f, t := edges[k].fromId, edges[k].toId;
      WordsOf(nodes, f);
      WordsOf(nodes, t);
      AboveIsParent(nodes[f], nodes[t]);
      AboveIsParent(nodes[t], nodes[f]);
    }
  }

  /** Reported as unplaced: the Active physical rows whose position is missing or unknown. */
  lemma PositionReported(nodes: map<Id, GNode>, edges: map<Id, Edge>, positions: set<Id>, universe: string, i: Id)
    ensures Violated(Violation(ActivePosition, i), nodes, edges, positions, universe)
            <==> i in nodes && nodes[i].status.Active? && nodes[i].baseClass != Logical
                 && forall p :: p in positions ==> nodes[i].positionPointId != Some(p)
  {}

  /** What may hang under what, seen from the parent. Under copper: copper, leaf transactive nodes and
      logical nodes but a Scada. Under a leaf transactive node: terminal assets and any logical node.
      Under anything else: logical nodes but a Scada. */
  predicate MayHang(g: GNode, parent: BaseClass) {
    match parent
    case ConnectivityNode => !g.baseClass.TerminalAsset? && g.gNodeClass != "Scada"
    case MarketMaker => !g.baseClass.TerminalAsset? && g.gNodeClass != "Scada"
    case LeafTransactiveNode => g.baseClass.TerminalAsset? || g.baseClass.Logical?
    case TerminalAsset => g.baseClass.Logical? && g.gNodeClass != "Scada"
    case Logical => g.baseClass.Logical? && g.gNodeClass != "Scada"
  }

  lemma ParentClassIs(g: GNode, parent: BaseClass)
    requires ValidGNode(g)
    ensures ParentClassOk(g, parent) <==> MayHang(g, parent)
    ensures RootClassOk(g) <==> !g.baseClass.TerminalAsset? && !g.baseClass.LeafTransactiveNode? && g.gNodeClass != "Scada"
  {
    NamedClass(g);
  }

  /** A root that is a TerminalAsset, a LeafTransactiveNode or a Scada; any other row that may not
      hang under the row above it. */
  ghost predicate Misplaced(nodes: map<Id, GNode>, g: GNode) {
    if |Split(g.alias)| == 2 then g.baseClass.TerminalAsset? || g.baseClass.LeafTransactiveNode? || g.gNodeClass == "Scada"
    else exists p :: p in nodes && Above(nodes[p], g) && !MayHang(g, nodes[p].baseClass)
  }

  lemma HangsIff(nodes: map<Id, GNode>, g: GNode)
    requires UniqueAliases(nodes) && Dotted(g.alias) && ValidGNode(g)
    ensures var e := RowAt(nodes, ParentAlias(g.alias));
            e.Some? && !ParentClassOk(g, e.value.baseClass)
            <==> exists p :: p in nodes && Above(nodes[p], g) && !MayHang(g, nodes[p].baseClass)
  {
    var e := RowAt(nodes, ParentAlias(g.alias));
    if e.Some? {
      var p := FoundIsAbove(nodes, g);
      ParentClassIs(g, nodes[p].baseClass);
    }
    if p :| p in nodes && Above(nodes[p], g) && !MayHang(g, nodes[p].baseClass) {
      AboveIsFound(nodes, g, p);
      ParentClassIs(g, nodes[p].baseClass);
    }
  }

  lemma MisplacedIff(nodes: map<Id, GNode>, g: GNode)
    requires UniqueAliases(nodes) && ValidGNode(g)
    ensures ClassOk(nodes, g) <==> !Misplaced(nodes, g)
  {
    DottedIffWords(g.alias);
    ParentIsAllButLast(g.alias);
    HangsIff(nodes, g);
    ParentClassIs(g, Logical);
  }

  /** Reported by class: exactly the misplaced rows. One with no row above it is not reported. */
  lemma ClassReported(nodes: map<Id, GNode>, edges: map<Id, Edge>, positions: set<Id>, universe: string, i: Id)
    requires UniqueAliases(nodes) && RowsValid(nodes)
    ensures Violated(Violation(ClassHierarchy, i), nodes, edges, positions, universe)
            <==> i in nodes && Misplaced(nodes, nodes[i])
  {
    if i in nodes { MisplacedIff(nodes, nodes[i]); }
  }

  lemma HangsByTable(g: GNode, c: BaseClass)
    requires ValidGNode(g)
    ensures MayHang(g, c) <==>
              match g.baseClass
              case ConnectivityNode => c == ConnectivityNode || c == MarketMaker
              case MarketMaker => c == ConnectivityNode || c == MarketMaker
              case LeafTransactiveNode => c == ConnectivityNode || c == MarketMaker
              case TerminalAsset => c == LeafTransactiveNode
              case Logical => g.gNodeClass == "Scada" ==> c == LeafTransactiveNode
  {
    NamedClass(g);
  }

  lemma RowByTable(nodes: map<Id, GNode>, i: Id)
    requires UniqueAliases(nodes) && RowsValid(nodes) && i in nodes
    ensures !Misplaced(nodes, nodes[i]) <==>
              && (|Split(nodes[i].alias)| == 2 ==>
                    || nodes[i].baseClass.ConnectivityNode? || nodes[i].baseClass.MarketMaker?
                    || (nodes[i].baseClass.Logical? && nodes[i].gNodeClass != "Scada"))
              && (forall p :: p in nodes && |Split(nodes[i].alias)| >= 3 && Above(nodes[p], nodes[i]) ==>
                    MayHang(nodes[i], nodes[p].baseClass))
  {
    WordsOf(nodes, i);
    NamedClass(nodes[i]);
  }

  /** The class rule as a table, row by row: no row is reported by class exactly if every root is
      copper or logical but no Scada, and every other row with a row above it has one there of the
      class its own class asks for. */
  lemma ClassTable(nodes: map<Id, GNode>, edges: map<Id, Edge>, positions: set<Id>, universe: string)
    requires UniqueAliases(nodes) && RowsValid(nodes)
    ensures (forall i :: !Violated(Violation(ClassHierarchy, i), nodes, edges, positions, universe)) <==>
              && (forall i :: i in nodes && |Split(nodes[i].alias)| == 2 ==>
                    || nodes[i].baseClass.ConnectivityNode? || nodes[i].baseClass.MarketMaker?
                    || (nodes[i].baseClass.Logical? && nodes[i].gNodeClass != "Scada"))
              && (forall i, p :: i in nodes && p in nodes && |Split(nodes[i].alias)| >= 3 && Above(nodes[p], nodes[i]) ==>
                    match nodes[i].baseClass
                    case ConnectivityNode => nodes[p].baseClass == ConnectivityNode || nodes[p].baseClass == MarketMaker
                    case MarketMaker => nodes[p].baseClass == ConnectivityNode || nodes[p].baseClass == MarketMaker
                    case LeafTransactiveNode => nodes[p].baseClass == ConnectivityNode || nodes[p].baseClass == MarketMaker
                    case TerminalAsset => nodes[p].baseClass == LeafTransactiveNode
                    case Logical => nodes[i].gNodeClass == "Scada" ==> nodes[p].baseClass == LeafTransactiveNode)
  {
    forall i { ClassReported(nodes, edges, positions, universe, i); }
    forall i | i in nodes { RowByTable(nodes, i); }
    forall i, p | i in nodes && p in nodes { HangsByTable(nodes[i], nodes[p].baseClass); }
  }
}
