/** From the validator's row-by-row checks to the shape of the whole tree. */
module GlobalShape {
  import opened Prelude
  import opened Aliases
  import opened GNodes
  import opened Tables
  import opened Validator

  /** What row axiom 6 gives: every alias has a parent alias. */
  ghost predicate Bodied(nodes: map<Id, GNode>) {
    forall i :: i in nodes ==> HasBody(nodes[i])
  }

  ghost predicate ActiveRow(nodes: map<Id, GNode>, g: GNode) {
    g.status.Active? && exists i :: i in nodes && nodes[i] == g
  }

  lemma ParentIsActiveRow(nodes: map<Id, GNode>, g: GNode)
    requires ParentClosed(nodes) && ActiveRow(nodes, g) && !IsForestRoot(g.alias)
    ensures RowAt(nodes, ParentAlias(g.alias)).Some?
    ensures ActiveRow(nodes, RowAt(nodes, ParentAlias(g.alias)).value)
    ensures RowAt(nodes, ParentAlias(g.alias)).value.alias == ParentAlias(g.alias)
  {
    var i :| i in nodes && nodes[i] == g;
    assert ParentActive(nodes, nodes[i]);
  }

  /** A node's chain of ancestors, from itself up. */
  ghost function Chain(nodes: map<Id, GNode>, g: GNode): (chain: seq<GNode>)
    requires ParentClosed(nodes) && Bodied(nodes) && ActiveRow(nodes, g)
    ensures chain != [] && chain[0] == g
    decreases |g.alias|
  {
    if IsForestRoot(g.alias) then [g]
    else
      ParentIsActiveRow(nodes, g);
      SplitLast(g.alias);
      [g] + Chain(nodes, RowAt(nodes, ParentAlias(g.alias)).value)
  }

  /** Each row is the alias-parent of the one before, all are Active, and the last is a root. */
  ghost predicate ActiveToTheRoot(nodes: map<Id, GNode>, chain: seq<GNode>) {
    && chain != []
    && (forall k :: 0 <= k < |chain| ==> ActiveRow(nodes, chain[k]))
    && (forall k :: 0 <= k < |chain| - 1 ==> chain[k + 1].alias == ParentAlias(chain[k].alias))
    && IsForestRoot(chain[|chain| - 1].alias)
  }

  /** In a registry with no parent-closure violation, every Active node's chain of ancestors is
      Active up to a forest root. */
  lemma {:induction false} ChainsAreActive(nodes: map<Id, GNode>, g: GNode)
    requires ParentClosed(nodes) && Bodied(nodes) && ActiveRow(nodes, g)
    ensures ActiveToTheRoot(nodes, Chain(nodes, g))
    decreases |g.alias|
  {
    if !IsForestRoot(g.alias) {
      ParentIsActiveRow(nodes, g);
      SplitLast(g.alias);
      var p := RowAt(nodes, ParentAlias(g.alias)).value;
      ChainsAreActive(nodes, p);
      var up := Chain(nodes, p);
      assert Chain(nodes, g) == [g] + up;
    }
  }

  /** Every alias above an Active node that has a body at all is held by an Active row: the chain
      skips nothing. */
  lemma {:induction false} EveryAncestorActive(nodes: map<Id, GNode>, g: GNode, a: Alias)
    requires ParentClosed(nodes) && Bodied(nodes) && ActiveRow(nodes, g)
    requires InSubtree(g.alias, a) && Dotted(a)
    ensures exists h :: h in Chain(nodes, g) && h.alias == a && ActiveRow(nodes, h)
    decreases |g.alias|
  {
    if g.alias == a {
      assert g in Chain(nodes, g);
    } else {
      BelowSuffix(g.alias, a);
      DottedCount(a);
      ParentIsActiveRow(nodes, g);
      SplitLast(g.alias);
      BelowIffParentInSubtree(g.alias, a);
      var p := RowAt(nodes, ParentAlias(g.alias)).value;
      EveryAncestorActive(nodes, p, a);
      var h :| h in Chain(nodes, p) && h.alias == a && ActiveRow(nodes, h);
      assert h in Chain(nodes, g);
    }
  }

  // ---- the physical chain ----

  /** `assets` terminal assets, then leaf transactive nodes up to `leaves`, then copper to the root. */
  ghost predicate Layered(chain: seq<GNode>, assets: nat, leaves: nat) {
    && assets <= 1 && assets <= leaves <= assets + 1 && (assets == 1 ==> leaves == 2) && leaves < |chain|
    && (forall k :: 0 <= k < assets ==> chain[k].baseClass.TerminalAsset?)
    && (forall k :: assets <= k < leaves ==> chain[k].baseClass.LeafTransactiveNode?)
    && (forall k :: leaves <= k < |chain| ==> Copper(chain[k].baseClass))
  }

  lemma ParentClass(nodes: map<Id, GNode>, g: GNode)
    requires ParentClosed(nodes) && ClassesOk(nodes) && ActiveRow(nodes, g)
    ensures IsForestRoot(g.alias) ==> RootClassOk(g)
    ensures !IsForestRoot(g.alias) ==>
              RowAt(nodes, ParentAlias(g.alias)).Some? && ParentClassOk(g, RowAt(nodes, ParentAlias(g.alias)).value.baseClass)
  {
    var i :| i in nodes && nodes[i] == g;
    assert ClassOk(nodes, nodes[i]) && ParentActive(nodes, nodes[i]);
  }

  /** The chain of an Active physical node: at most one terminal asset, at most one leaf transactive
      node (exactly one above an asset), then copper only, up to a copper root. */
  lemma {:induction false} PhysicalChain(nodes: map<Id, GNode>, g: GNode) returns (assets: nat, leaves: nat)
    requires ParentClosed(nodes) && ClassesOk(nodes) && Bodied(nodes)
    requires ActiveRow(nodes, g) && !g.baseClass.Logical?
    ensures Layered(Chain(nodes, g), assets, leaves) && ActiveToTheRoot(nodes, Chain(nodes, g))
    ensures assets == (if g.baseClass.TerminalAsset? then 1 else 0)
    ensures leaves == if g.baseClass.TerminalAsset? then 2 else if g.baseClass.LeafTransactiveNode? then 1 else 0
    decreases |g.alias|
  {
    ChainsAreActive(nodes, g);
    ParentClass(nodes, g);
    assets := if g.baseClass.TerminalAsset? then 1 else 0;
    leaves := if g.baseClass.TerminalAsset? then 2 else if g.baseClass.LeafTransactiveNode? then 1 else 0;
    if !IsForestRoot(g.alias) {
      ParentIsActiveRow(nodes, g);
      SplitLast(g.alias);
      var p := RowAt(nodes, ParentAlias(g.alias)).value;
      var a, l := PhysicalChain(nodes, p);
      LayeredCons(g, Chain(nodes, p), a, l, assets, leaves);
    }
  }

  /** One row more at the bottom of a layered chain. */
  lemma LayeredCons(g: GNode, above: seq<GNode>, a: nat, l: nat, assets: nat, leaves: nat)
    requires Layered(above, a, l) && above != [] && ParentClassOk(g, above[0].baseClass) && !g.baseClass.Logical?
    requires a == (if above[0].baseClass.TerminalAsset? then 1 else 0)
    requires l == if above[0].baseClass.TerminalAsset? then 2 else if above[0].baseClass.LeafTransactiveNode? then 1 else 0
    requires assets == if g.baseClass.TerminalAsset? then 1 else 0
    requires leaves == if g.baseClass.TerminalAsset? then 2 else if g.baseClass.LeafTransactiveNode? then 1 else 0
    ensures Layered([g] + above, assets, leaves)
  {
    var chain := [g] + above;
    forall k | 1 <= k < |chain| ensures chain[k] == above[k - 1] {}
  }

  /** In any registry `validate_registry` finds clean, every Active physical node hangs, through
      Active nodes only, from a copper forest root, in that order of classes. */
  lemma CleanRegistryShape(nodes: map<Id, GNode>, edges: map<Id, Edge>, positions: set<Id>, universe: string, g: GNode)
    requires Clean(nodes, edges, positions, universe) && Bodied(nodes) && ActiveRow(nodes, g)
    ensures ActiveToTheRoot(nodes, Chain(nodes, g))
    ensures !g.baseClass.Logical? ==> exists assets, leaves :: Layered(Chain(nodes, g), assets, leaves)
  {
    ChainsAreActive(nodes, g);
    if !g.baseClass.Logical? {
      var assets, leaves := PhysicalChain(nodes, g);
    }
  }
}
