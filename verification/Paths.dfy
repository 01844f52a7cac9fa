/** Reference definitions for the alias strings: the format's regular expression, the list of
    dotted words, and the SQL `LIKE` filter; and what the string operations do to them. */
module Paths {
  import opened Aliases

  // ---- the pattern  [a-z][a-z0-9]*(\.[a-z0-9]+)*  ----

  /** The longest run of word characters at the front of `s`. */
  function Run(s: string): (n: nat)
    ensures n <= |s|
    ensures forall i :: 0 <= i < n ==> WordChar(s[i])
    ensures n < |s| ==> !WordChar(s[n])
  {
    if s == "" || !WordChar(s[0]) then 0 else 1 + Run(s[1..])
  }

  /** `(\.[a-z0-9]+)*`, matched to the end. */
  predicate MatchesWords(s: string)
    decreases |s|
  {
    s == "" || (s[0] == '.' && var n := Run(s[1..]); n > 0 && MatchesWords(s[1 + n..]))
  }

  predicate MatchesPattern(s: string) {
    s != "" && LowerCase(s[0]) && MatchesWords(s[Run(s)..])
  }

  /** What `LeftRightDot` says of the part after the first word. */
  predicate DotWords(s: string) {
    s == "" || (
      && s[0] == '.' && s[|s| - 1] != '.'
      && (forall i :: 0 <= i < |s| ==> WordChar(s[i]) || s[i] == '.')
      && (forall i :: 0 <= i < |s| - 1 ==> s[i] == '.' ==> s[i + 1] != '.'))
  }

  lemma {:induction false} MatchesWordsIsDotWords(s: string)
    ensures MatchesWords(s) <==> DotWords(s)
    decreases |s|
  {
    if s != "" && s[0] == '.' {
      var n := Run(s[1..]);
      var t := s[1 + n..];
      assert forall i :: 0 <= i < n ==> WordChar(s[1..][i]) && s[1..][i] == s[i + 1];
      assert forall i :: 0 <= i < |t| ==> t[i] == s[i + n + 1];
      if n > 0 {
        MatchesWordsIsDotWords(t);
        assert t != "" ==> t[|t| - 1] == s[|s| - 1];
        if DotWords(t) { DotWordsPrepend(s, n); }
        if DotWords(s) && t != "" { assert !WordChar(s[1..][n]) && s[1..][n] == s[n + 1]; }
      }
    }
  }

  lemma DotWordsPrepend(s: string, n: nat)
    requires 0 < n < |s| && s[0] == '.' && DotWords(s[1 + n..])
    requires forall i :: 1 <= i <= n ==> WordChar(s[i])
    ensures DotWords(s)
  {
    var t := s[1 + n..];
    assert forall i :: n < i < |s| ==> s[i] == t[i - n - 1];
  }

  /** The format's character rules are exactly its regular expression. */
  lemma PatternIsLeftRightDot(s: string)
    ensures MatchesPattern(s) <==> LeftRightDot(s)
  {
    if s != "" && LowerCase(s[0]) {
      var n := Run(s);
      var t := s[n..];
      assert n > 0;
      MatchesWordsIsDotWords(t);
      assert forall i :: n <= i < |s| ==> s[i] == t[i - n];
      if LeftRightDot(s) && t != "" {
        assert t[0] == '.';
        assert forall i :: 0 <= i < |t| ==> t[i] == s[i + n];
      }
    }
  }

  // ---- paths: the list of words ----

  type Path = seq<string>

  function Split(s: string): (p: Path)
    ensures p != []
    decreases |s|
  {
    if FirstDot(s) == |s| then [s] else [s[..FirstDot(s)]] + Split(s[FirstDot(s) + 1..])
  }

  function Join(p: Path): string
    requires p != []
  {
    if |p| == 1 then p[0] else p[0] + "." + Join(p[1..])
  }

  lemma {:induction false} JoinSplit(s: string)
    ensures Join(Split(s)) == s
    decreases |s|
  {
    if FirstDot(s) < |s| {
      var w, t := s[..FirstDot(s)], s[FirstDot(s) + 1..];
      JoinSplit(t);
      assert Split(s) == [w] + Split(t);
      assert Split(s)[0] == w && Split(s)[1..] == Split(t);
      assert s == w + "." + t;
    }
  }

  lemma SplitInjective(a: string, b: string)
    requires Split(a) == Split(b)
    ensures a == b
  {
    JoinSplit(a);
    JoinSplit(b);
  }

  lemma FirstDotIn(s: string, t: string)
    ensures FirstDot(s + "." + t) == FirstDot(s)
    ensures FirstDot(s) < |s| ==> (s + "." + t)[FirstDot(s) + 1..] == s[FirstDot(s) + 1..] + "." + t
    ensures FirstDot(s) == |s| ==> (s + "." + t)[FirstDot(s) + 1..] == t
    ensures (s + "." + t)[..FirstDot(s)] == s[..FirstDot(s)]
  {
    var u := s + "." + t;
    assert u[FirstDot(s)] == '.';
    assert forall k :: 0 <= k < FirstDot(s) ==> u[k] == s[k];
  }

  /** A dot between two strings separates their words. */
  lemma {:induction false} SplitAppends(s: string, t: string)
    ensures Split(s + "." + t) == Split(s) + Split(t)
    decreases |s|
  {
    FirstDotIn(s, t);
    var u := s + "." + t;
    assert FirstDot(u) < |u|;
    if FirstDot(s) < |s| {
      var rest := s[FirstDot(s) + 1..];
      SplitAppends(rest, t);
      assert Split(u) == [s[..FirstDot(s)]] + (Split(rest) + Split(t));
    } else {
      assert s[..FirstDot(s)] == s;
    }
  }

  lemma SplitWord(w: string)
    requires '.' !in w
    ensures Split(w) == [w]
  {
    assert forall i :: 0 <= i < |w| ==> w[i] in w;
  }

  lemma SplitOfParent(a: Alias)
    requires Dotted(a)
    ensures Split(a) == Split(ParentAlias(a)) + [LastWord(a)]
  {
    SplitLast(a);
    SplitAppends(ParentAlias(a), LastWord(a));
    SplitWord(LastWord(a));
  }

  lemma {:induction false} SplitLength(a: Alias)
    ensures |Split(a)| == DotCount(a) + 1
    decreases |a|
  {
    DottedCount(a);
    if Dotted(a) {
      SplitLast(a);
      SplitOfParent(a);
      SplitLength(ParentAlias(a));
    } else {
      SplitWord(a) by { assert forall i :: 0 <= i < |a| ==> a[i] != '.'; }
    }
  }

  // ---- string operations are path operations ----

  lemma BelowIsProperPrefix(a: Alias, p: Alias)
    ensures Below(a, p) <==> Split(p) < Split(a)
  {
    if Below(a, p) {
      BelowSuffix(a, p);
      SplitAppends(p, a[|p| + 1..]);
    }
    if Split(p) < Split(a) {
      var rest := Split(a)[|Split(p)|..];
      assert Split(a) == Split(p) + rest;
      SplitJoin(rest, a);
      SplitAppends(p, Join(rest));
      SplitInjective(a, p + "." + Join(rest));
      assert p + "." <= p + "." + Join(rest);
    }
  }

  /** A suffix of a split is the split of its join. */
  lemma {:induction false} SplitJoin(rest: Path, a: string)
    requires rest != [] && |rest| <= |Split(a)| && rest == Split(a)[|Split(a)| - |rest|..]
    ensures Split(Join(rest)) == rest
    decreases |a|
  {
    if |rest| == |Split(a)| {
      JoinSplit(a);
    } else {
      assert Split(a)[1..] == Split(a[FirstDot(a) + 1..]);
      SplitJoin(rest, a[FirstDot(a) + 1..]);
    }
  }

  lemma InSubtreeIsPrefix(a: Alias, p: Alias)
    ensures InSubtree(a, p) <==> Split(p) <= Split(a)
  {
    BelowIsProperPrefix(a, p);
    if Split(a) == Split(p) { SplitInjective(a, p); }
  }

  /** `rewrite_alias` replaces the path prefix and keeps the words after it. */
  lemma RewriteReplacesPrefix(a: Alias, p: Alias, q: Alias)
    requires InSubtree(a, p)
    ensures Split(p) <= Split(a)
    ensures Split(RewriteAlias(a, p, q)) == Split(q) + Split(a)[|Split(p)|..]
  {
    InSubtreeIsPrefix(a, p);
    if a == p {
      assert RewriteAlias(a, p, q) == q;
    } else {
      BelowSuffix(a, p);
      var rest := a[|p| + 1..];
      SplitAppends(p, rest);
      SplitAppends(q, rest);
      RewriteBelow(a, p, q);
    }
  }

  lemma RewriteBelow(a: Alias, p: Alias, q: Alias)
    requires Below(a, p)
    ensures RewriteAlias(a, p, q) == q + "." + a[|p| + 1..]
  {
    BelowSuffix(a, p);
    assert a[|p|..] == "." + a[|p| + 1..];
  }

  lemma ParentIsAllButLast(a: Alias)
    ensures Split(ParentAlias(a)) == if Dotted(a) then Split(a)[..|Split(a)| - 1] else Split(a)
    ensures LastWord(a) == Split(a)[|Split(a)| - 1]
    ensures UniverseOf(a) == Split(a)[0]
    ensures IsForestRoot(a) <==> |Split(a)| == 2
  {
    SplitLength(a);
    if Dotted(a) {
      SplitOfParent(a);
    } else {
      assert forall i :: 0 <= i < |a| ==> a[i] != '.';
      SplitWord(a);
    }
  }

  lemma MovedPrefixIsPath(n: Alias, child: Alias)
    ensures Split(MovedPrefix(n, child)) == Split(n) + [Split(child)[|Split(child)| - 1]]
  {
    MovedPrefixIsChild(n, child);
    SplitOfParent(MovedPrefix(n, child));
    ParentIsAllButLast(child);
  }

  // ---- the SQL filter ----

  /** SQL `LIKE` with Postgres's default escape character. */
  predicate Like(s: string, pattern: string)
    decreases |pattern|, |s|
  {
    if pattern == "" then s == ""
    else if pattern[0] == '%' then
      Like(s, pattern[1..]) || (s != "" && Like(s[1..], pattern))
    else if pattern[0] == '_' then
      s != "" && Like(s[1..], pattern[1..])
    else if pattern[0] == '\\' && |pattern| > 1 then
      s != "" && s[0] == pattern[1] && Like(s[1..], pattern[2..])
    else
      s != "" && s[0] == pattern[0] && Like(s[1..], pattern[1..])
  }

  predicate Literal(p: string) {
    '%' !in p && '_' !in p && '\\' !in p
  }

  lemma {:induction false} LikeAnything(s: string)
    ensures Like(s, "%")
  {
    if s != "" { LikeAnything(s[1..]); }
  }

  lemma {:induction false} LikePrefix(s: string, p: string)
    requires Literal(p)
    ensures Like(s, p + "%") <==> p <= s
    decreases |p|
  {
    if p == "" {
      assert p + "%" == "%";
      LikeAnything(s);
    } else {
      assert p[0] in p && (p + "%")[0] == p[0];
      assert (p + "%")[1..] == p[1..] + "%";
      assert Literal(p[1..]);
      if s != "" {
        LikePrefix(s[1..], p[1..]);
        assert s == [s[0]] + s[1..] && p == [p[0]] + p[1..];
      }
    }
  }

  /** The row filter of every subtree query: `alias == prefix OR alias LIKE prefix || '.%'`. */
  predicate SqlSubtree(a: Alias, prefix: Alias) {
    a == prefix || Like(a, prefix + ".%")
  }

  /** On well-formed prefixes the SQL filter, the string test and the path prefix coincide. */
  lemma SqlSubtreeIsPathPrefix(a: Alias, prefix: Alias)
    requires LeftRightDot(prefix)
    ensures SqlSubtree(a, prefix) <==> InSubtree(a, prefix)
    ensures InSubtree(a, prefix) <==> Split(prefix) <= Split(a)
  {
    assert Literal(prefix + ".");
    assert prefix + ".%" == (prefix + ".") + "%";
    LikePrefix(a, prefix + ".");
    InSubtreeIsPrefix(a, prefix);
  }
}
