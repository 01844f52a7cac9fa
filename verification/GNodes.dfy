/** The registry's wire types (`g.node.gt`, `connectivity.edge.gt`, `g.node.forest`, the two
    commands) and the row axioms a `g.node.gt` must satisfy. */
module GNodes {
  import opened Prelude
  import opened Aliases

  type Id = string

  datatype BaseClass = TerminalAsset | LeafTransactiveNode | ConnectivityNode | MarketMaker | Logical

  datatype Status = Pending | Active | Suspended | PermanentlyDeactivated

  datatype GNode = GNode(
    id: Id,
    alias: Alias,
    prevAlias: Option<Alias>,
    baseClass: BaseClass,
    gNodeClass: string,
    status: Status,
    positionPointId: Option<Id>,
    displayName: Option<string>)

  datatype Edge = Edge(id: Id, fromId: Id, toId: Id, status: Status)

  /** A `g.node.forest` without its send time: the content two broadcasts are compared by. */
  datatype Forest = Forest(roots: seq<Alias>, nodes: seq<GNode>, edges: seq<Edge>)

  datatype Command =
    | CreateCmd(newNode: GNode, proof: Option<string>)
    | ReparentCmd(newNode: GNode, movedChildIds: seq<Id>, proof: Option<string>)

  function ClassName(c: BaseClass): string {
    match c
    case TerminalAsset => "TerminalAsset"
    case LeafTransactiveNode => "LeafTransactiveNode"
    case ConnectivityNode => "ConnectivityNode"
    case MarketMaker => "MarketMaker"
    case Logical => "Logical"
  }

  // ---- row axioms ----

  predicate EndsWith(s: string, suffix: string) {
    |suffix| <= |s| && s[|s| - |suffix|..] == suffix
  }

  predicate Space(c: char) {
    var n := c as int;
    || 0x09 <= n <= 0x0d || 0x1c <= n <= 0x20 || n == 0x85 || n == 0xa0 || n == 0x1680
    || 0x2000 <= n <= 0x200a || n == 0x2028 || n == 0x2029 || n == 0x202f || n == 0x205f || n == 0x3000
  }

  /** Axiom 1: a physical class is its own name; a logical class names no physical one. */
  predicate ClassConsistency(g: GNode) {
    if !g.baseClass.Logical? then g.gNodeClass == ClassName(g.baseClass)
    else g.gNodeClass !in {"TerminalAsset", "LeafTransactiveNode", "ConnectivityNode", "MarketMaker"}
  }

  /** Axiom 2. */
  predicate PhysicalLocation(g: GNode) {
    g.status.Active? && !g.baseClass.Logical? ==> g.positionPointId.Some?
  }

  /** Axiom 3. */
  predicate AliasTransition(g: GNode) { g.prevAlias != Some(g.alias) }

  /** Axiom 4. */
  predicate ClassNamespacing(g: GNode) {
    g.gNodeClass != "" && forall i :: 0 <= i < |g.gNodeClass| ==> !Space(g.gNodeClass[i])
  }

  /** Axiom 5. */
  predicate AliasSuffix(g: GNode) {
    && (g.gNodeClass == "TerminalAsset" <==> EndsWith(g.alias, ".ta"))
    && (g.gNodeClass == "Scada" <==> EndsWith(g.alias, ".scada"))
  }

  /** Axiom 6: at least two dotted words. */
  predicate HasBody(g: GNode) {
    Dotted(g.alias) && (g.prevAlias.Some? ==> Dotted(g.prevAlias.value))
  }

  /** What constructing a `g.node.gt` checks: the two alias formats and the six axioms. */
  predicate ValidGNode(g: GNode) {
    && LeftRightDot(g.alias)
    && (g.prevAlias.Some? ==> LeftRightDot(g.prevAlias.value))
    && ClassConsistency(g) && PhysicalLocation(g) && AliasTransition(g)
    && ClassNamespacing(g) && AliasSuffix(g) && HasBody(g)
  }

  /** `connectivity.edge.gt` axiom 1. */
  predicate ValidEdge(e: Edge) { e.fromId != e.toId }

  /** What decoding a command checks. */
  predicate ValidCommand(cmd: Command) {
    ValidGNode(cmd.newNode) && (cmd.CreateCmd? ==> cmd.newNode.positionPointId.None?)
  }

  // ---- a rename and the axioms ----

  /** One row after `prev_alias = alias; alias = rewrite_alias(...)`. */
  function Renamed(g: GNode, oldPrefix: Alias, newPrefix: Alias): GNode {
    g.(prevAlias := Some(g.alias), alias := RewriteAlias(g.alias, oldPrefix, newPrefix))
  }

  lemma SuffixIsLastWord(a: Alias, w: string)
    requires '.' !in w && EndsWith(a, "." + w)
    ensures Dotted(a) && LastWord(a) == w
  {
    var p := a[..|a| - |w| - 1];
    assert a == p + "." + w;
    JoinLast(p, w);
  }

  lemma ConcatEndsWith(p: string, suffix: string)
    ensures EndsWith(p + suffix, suffix)
  {}

  lemma LastWordIsSuffix(a: Alias)
    requires Dotted(a)
    ensures EndsWith(a, "." + LastWord(a))
  {
    SplitLast(a);
    assert ParentAlias(a) + "." + LastWord(a) == ParentAlias(a) + ("." + LastWord(a));
    ConcatEndsWith(ParentAlias(a), "." + LastWord(a));
  }

  /** Axiom 5 looks at the last word only. */
  lemma SameLastWordSameSuffix(a: Alias, b: Alias, w: string)
    requires Dotted(a) && Dotted(b) && LastWord(a) == LastWord(b) && '.' !in w
    ensures EndsWith(a, "." + w) <==> EndsWith(b, "." + w)
  {
    LastWordIsSuffix(a);
    LastWordIsSuffix(b);
    if EndsWith(a, "." + w) { SuffixIsLastWord(a, w); }
    if EndsWith(b, "." + w) { SuffixIsLastWord(b, w); }
  }

  lemma SameLastWordKeepsSuffix(g: GNode, r: GNode)
    requires AliasSuffix(g) && r.gNodeClass == g.gNodeClass
    requires Dotted(g.alias) && Dotted(r.alias) && LastWord(g.alias) == LastWord(r.alias)
    ensures AliasSuffix(r)
  {
    SameLastWordSameSuffix(g.alias, r.alias, "ta");
    SameLastWordSameSuffix(g.alias, r.alias, "scada");
    assert "." + "ta" == ".ta" && "." + "scada" == ".scada";
  }

  lemma RenamedAlias(g: GNode, e: Alias, n: Alias)
    requires LeftRightDot(g.alias) && Below(g.alias, e) && LeftRightDot(n)
    ensures var r := Renamed(g, e, n);
            LeftRightDot(r.alias) && Dotted(g.alias) && Dotted(r.alias) && LastWord(g.alias) == LastWord(r.alias)
  {
    RewriteKeepsFormat(g.alias, e, n);
    RewriteCommutesWithParent(g.alias, e, n);
    BelowSuffix(g.alias, e);
  }

  /** Swapping the proper alias prefix of a valid row for another one keeps every axiom, as long
      as the alias really changes. */
  lemma RenameKeepsAxioms(g: GNode, e: Alias, n: Alias)
    requires ValidGNode(g) && Below(g.alias, e) && LeftRightDot(n)
    requires RewriteAlias(g.alias, e, n) != g.alias
    ensures ValidGNode(Renamed(g, e, n))
  {
    RenamedAlias(g, e, n);
    SameLastWordKeepsSuffix(g, Renamed(g, e, n));
  }
}
