/** Alias strings: the dotted materialized paths the registry's tree consists of. */
module Aliases {

  type Alias = string

  // ---- the left.right.dot format ----

  predicate LowerCase(c: char) { 'a' <= c <= 'z' }

  predicate WordChar(c: char) { LowerCase(c) || '0' <= c <= '9' }

  /** The format read character by character: an alphabet, a first letter, and no empty word. */
  predicate LeftRightDot(s: string) {
    && s != ""
    && LowerCase(s[0])
    && s[|s| - 1] != '.'
    && (forall i :: 0 <= i < |s| ==> WordChar(s[i]) || s[i] == '.')
    && (forall i :: 0 <= i < |s| - 1 ==> s[i] == '.' ==> s[i + 1] != '.')
  }

  // ---- words ----

  function FirstDot(s: string): (i: nat)
    ensures i <= |s|
    ensures i < |s| ==> s[i] == '.'
    ensures forall k :: 0 <= k < i ==> s[k] != '.'
  {
    if s == "" || s[0] == '.' then 0 else 1 + FirstDot(s[1..])
  }

  /** The position of the last dot, or -1. */
  function LastDot(s: string): (i: int)
    ensures -1 <= i < |s|
    ensures i >= 0 ==> s[i] == '.'
    ensures forall k :: i < k < |s| ==> s[k] != '.'
  {
    if s == "" then -1
    else if s[|s| - 1] == '.' then |s| - 1
    else LastDot(s[..|s| - 1])
  }

  predicate Dotted(a: Alias) { LastDot(a) >= 0 }

  function DotCount(a: Alias): nat { multiset(a)['.'] }

  /** `alias.split(".", 1)[0]`. */
  function UniverseOf(a: Alias): string { a[..FirstDot(a)] }

  /** `alias.rsplit(".", 1)[0]`: an alias without a dot is its own alias-parent. */
  function ParentAlias(a: Alias): Alias {
    if LastDot(a) < 0 then a else a[..LastDot(a)]
  }

  /** `alias.rsplit(".", 1)[-1]`. */
  function LastWord(a: Alias): string { a[LastDot(a) + 1..] }

  /** `alias.count(".") == 1`. */
  predicate IsForestRoot(a: Alias) { DotCount(a) == 1 }

  // ---- subtrees and prefix rewriting ----

  /** Strictly below `p`: `a.startswith(p + ".")`. */
  predicate Below(a: Alias, p: Alias) { p + "." <= a }

  predicate InSubtree(a: Alias, p: Alias) { a == p || Below(a, p) }

  /** `new_prefix + alias[len(old_prefix):]`; Python's slice is empty past the end. */
  function RewriteAlias(a: Alias, oldPrefix: Alias, newPrefix: Alias): Alias {
    newPrefix + if |oldPrefix| <= |a| then a[|oldPrefix|..] else ""
  }

  function MovedPrefix(newNode: Alias, child: Alias): Alias {
    newNode + "." + LastWord(child)
  }

  function SubtreeRewriteMap(aliases: set<Alias>, oldPrefix: Alias, newPrefix: Alias): map<Alias, Alias> {
    map a | a in aliases && InSubtree(a, oldPrefix) :: RewriteAlias(a, oldPrefix, newPrefix)
  }

  // ---- facts about words ----

  lemma LastDotAt(a: Alias, i: nat)
    requires i < |a| && a[i] == '.'
    requires forall k :: i < k < |a| ==> a[k] != '.'
    ensures LastDot(a) == i
  {}

  lemma SplitLast(a: Alias)
    requires Dotted(a)
    ensures '.' !in LastWord(a)
    ensures a == ParentAlias(a) + "." + LastWord(a)
    ensures |ParentAlias(a)| < |a|
    ensures DotCount(a) == DotCount(ParentAlias(a)) + 1
  {
    assert a == ParentAlias(a) + "." + LastWord(a);
    assert '.' !in LastWord(a);
    assert multiset(a) == multiset(ParentAlias(a)) + multiset(".") + multiset(LastWord(a));
  }

  lemma JoinLast(a: Alias, w: string)
    requires '.' !in w
    ensures Dotted(a + "." + w)
    ensures ParentAlias(a + "." + w) == a && LastWord(a + "." + w) == w
  {
    var m := a + "." + w;
    assert m[|a|] == '.' && m[|a| + 1..] == w && m[..|a|] == a;
    assert forall k :: |a| < k < |m| ==> m[k] == w[k - |a| - 1];
    LastDotAt(m, |a|);
  }

  lemma DottedCount(a: Alias)
    ensures Dotted(a) <==> DotCount(a) > 0
  {
    if Dotted(a) { SplitLast(a); } else { assert '.' !in a; }
  }

  lemma BelowSuffix(a: Alias, p: Alias)
    requires Below(a, p)
    ensures a == p + "." + a[|p| + 1..] && a[|p|] == '.'
    ensures Dotted(a) && LastDot(a) >= |p|
    ensures DotCount(a) > DotCount(p)
  {
    assert (p + ".")[|p|] == '.';
    assert a == p + "." + a[|p| + 1..];
    assert multiset(a) == multiset(p) + multiset(".") + multiset(a[|p| + 1..]);
  }

  // ---- facts about subtrees ----

  lemma ParentOfBelow(a: Alias, p: Alias)
    requires Below(a, p)
    ensures InSubtree(ParentAlias(a), p)
  {
    BelowSuffix(a, p);
    if LastDot(a) == |p| {
      assert ParentAlias(a) == p;
    } else {
      assert p + "." <= ParentAlias(a);
    }
  }

  lemma BelowOwnParent(a: Alias)
    requires Dotted(a)
    ensures Below(a, ParentAlias(a))
  {
    SplitLast(a);
  }

  /** Strictly below `p` means: the alias-parent is in the subtree of `p`. */
  lemma BelowIffParentInSubtree(a: Alias, p: Alias)
    requires Dotted(a)
    ensures Below(a, p) <==> InSubtree(ParentAlias(a), p)
  {
    BelowOwnParent(a);
    if Below(a, p) { ParentOfBelow(a, p); }
  }

  lemma SubtreeTransitive(a: Alias, p: Alias, q: Alias)
    requires InSubtree(a, p) && InSubtree(p, q)
    ensures InSubtree(a, q)
  {}

  /** The subtrees holding one alias are nested. */
  lemma SubtreesNest(a: Alias, p: Alias, q: Alias)
    requires InSubtree(a, p) && InSubtree(a, q) && |p| <= |q|
    ensures InSubtree(q, p)
  {
    if |p| < |q| {
      BelowSuffix(a, p);
      assert q <= a && p + "." <= q;
    } else {
      assert p == a[..|p|] == q;
    }
  }

  lemma SiblingsDisjoint(a: Alias, p: Alias, q: Alias)
    requires Dotted(p) && Dotted(q) && ParentAlias(p) == ParentAlias(q) && p != q
    requires InSubtree(a, p)
    ensures !InSubtree(a, q)
  {
    if InSubtree(a, q) {
      if |p| <= |q| {
        SubtreesNest(a, p, q);
        BelowIffParentInSubtree(q, p);
        SplitLast(p);
      } else {
        SubtreesNest(a, q, p);
        BelowIffParentInSubtree(p, q);
        SplitLast(q);
      }
      assert false;
    }
  }

  lemma SubtreeUniverse(a: Alias, p: Alias)
    requires InSubtree(a, p)
    ensures UniverseOf(a) == UniverseOf(p)
  {
    if a != p {
      BelowSuffix(a, p);
      if FirstDot(p) < |p| {
        assert a[FirstDot(p)] == '.';
        assert FirstDot(a) == FirstDot(p) by {
          assert forall k :: 0 <= k < FirstDot(p) ==> a[k] == p[k];
        }
      } else {
        assert FirstDot(a) == |p| by {
          assert forall k :: 0 <= k < |p| ==> a[k] == p[k];
        }
      }
    }
  }

  // ---- facts about rewriting ----

  /** Rewriting back undoes a rewrite; hence a rewrite is injective on a subtree. */
  lemma RewriteInverts(a: Alias, p: Alias, q: Alias)
    requires InSubtree(a, p)
    ensures InSubtree(RewriteAlias(a, p, q), q)
    ensures RewriteAlias(RewriteAlias(a, p, q), q, p) == a
  {
    var b := RewriteAlias(a, p, q);
    assert a == p + a[|p|..];
    assert b[|q|..] == a[|p|..];
    if a != p {
      BelowSuffix(a, p);
      assert b[..|q| + 1] == q + ".";
    } else {
      assert b == q;
    }
  }

  lemma RewriteInjective(a: Alias, b: Alias, p: Alias, q: Alias)
    requires InSubtree(a, p) && InSubtree(b, p)
    requires RewriteAlias(a, p, q) == RewriteAlias(b, p, q)
    ensures a == b
  {
    RewriteInverts(a, p, q);
    RewriteInverts(b, p, q);
  }

  lemma RewriteExtends(a: Alias, p: Alias, q: Alias, rest: string)
    requires |p| <= |a|
    ensures RewriteAlias(a + rest, p, q) == RewriteAlias(a, p, q) + rest
  {
    assert (a + rest)[|p|..] == a[|p|..] + rest;
  }

  lemma RewriteOfParent(a: Alias, p: Alias, q: Alias)
    requires Dotted(a) && InSubtree(ParentAlias(a), p)
    ensures RewriteAlias(a, p, q) == RewriteAlias(ParentAlias(a), p, q) + "." + LastWord(a)
  {
    var pa, w := ParentAlias(a), LastWord(a);
    SplitLast(a);
    RewriteExtends(pa, p, q, ".");
    RewriteExtends(pa + ".", p, q, w);
  }

  /** Strictly below the prefix, rewriting commutes with the alias-parent and keeps the last word. */
  lemma RewriteCommutesWithParent(a: Alias, p: Alias, q: Alias)
    requires Below(a, p)
    ensures Below(RewriteAlias(a, p, q), q)
    ensures Dotted(RewriteAlias(a, p, q))
    ensures ParentAlias(RewriteAlias(a, p, q)) == RewriteAlias(ParentAlias(a), p, q)
    ensures LastWord(RewriteAlias(a, p, q)) == LastWord(a)
  {
    BelowSuffix(a, p);
    BelowIffParentInSubtree(a, p);
    RewriteOfParent(a, p, q);
    RewriteInverts(ParentAlias(a), p, q);
    SplitLast(a);
    JoinLast(RewriteAlias(ParentAlias(a), p, q), LastWord(a));
    BelowIffParentInSubtree(RewriteAlias(a, p, q), q);
  }

  lemma RewriteKeepsFormat(a: Alias, p: Alias, q: Alias)
    requires LeftRightDot(a) && LeftRightDot(q) && InSubtree(a, p)
    ensures LeftRightDot(RewriteAlias(a, p, q))
  {
    var b := RewriteAlias(a, p, q);
    if a == p {
      assert b == q;
    } else {
      BelowSuffix(a, p);
      assert forall k :: 0 <= k < |b| ==> b[k] == if k < |q| then q[k] else a[k - |q| + |p|];
    }
  }

  /** A moved child keeps its last word, so it is a child of the new node. */
  lemma MovedPrefixIsChild(n: Alias, child: Alias)
    ensures Dotted(MovedPrefix(n, child))
    ensures ParentAlias(MovedPrefix(n, child)) == n
    ensures LastWord(MovedPrefix(n, child)) == LastWord(child)
    ensures Below(MovedPrefix(n, child), n)
  {
    JoinLast(n, LastWord(child));
    assert MovedPrefix(n, child)[..|n| + 1] == n + ".";
  }

  /** For a child of `e`, moving it under `n` is the prefix swap `e` to `n`. */
  lemma MovedPrefixIsSwap(a: Alias, child: Alias, e: Alias, n: Alias)
    requires Dotted(child) && ParentAlias(child) == e && InSubtree(a, child)
    ensures Below(a, e)
    ensures RewriteAlias(a, child, MovedPrefix(n, child)) == RewriteAlias(a, e, n)
  {
    SplitLast(child);
    assert e + "." <= child <= a;
    assert a[|e|..] == a[|e|..|child|] + a[|child|..];
    assert a[|e|..|child|] == child[|e|..] == "." + LastWord(child);
  }

  lemma LastWordIsWord(a: Alias)
    requires LeftRightDot(a)
    ensures LastWord(a) != "" && forall c :: c in LastWord(a) ==> WordChar(c)
  {
    var w := LastWord(a);
    forall k | 0 <= k < |w| ensures WordChar(w[k]) {
      assert w[k] == a[LastDot(a) + 1 + k];
    }
  }

  lemma JoinKeepsFormat(n: Alias, w: string)
    requires LeftRightDot(n) && w != "" && forall c :: c in w ==> WordChar(c)
    ensures LeftRightDot(n + "." + w)
  {
    var m := n + "." + w;
    forall i | |n| < i < |m| ensures WordChar(m[i]) {
      assert m[i] == w[i - |n| - 1] && m[i] in w;
    }
    assert forall i :: 0 <= i < |n| ==> m[i] == n[i];
    assert m[|n|] == '.';
  }

  lemma MovedPrefixKeepsFormat(n: Alias, child: Alias)
    requires LeftRightDot(n) && LeftRightDot(child)
    ensures LeftRightDot(MovedPrefix(n, child))
  {
    LastWordIsWord(child);
    JoinKeepsFormat(n, LastWord(child));
  }
}
