/** Shared vocabulary: optional values, enumerations of finite sets, and sorting by a total order. */
module Prelude {

  datatype Option<+T> = None | Some(value: T)

  ghost predicate Distinct<T>(s: seq<T>) {
    forall i, j :: 0 <= i < j < |s| ==> s[i] != s[j]
  }

  function Members<T(==)>(s: seq<T>): set<T> { set x | x in s }

  /** `s` lists every member of `xs` exactly once, in some order. */
  ghost predicate Enumerates<T>(s: seq<T>, xs: set<T>) {
    Distinct(s) && (forall x :: x in s ==> x in xs) && (forall x :: x in xs ==> x in s)
  }

  lemma EmptyEnumeration<T>(s: seq<T>, xs: set<T>)
    requires Enumerates(s, xs)
    ensures s == [] <==> xs == {}
  {
    if s != [] { assert s[0] in xs; }
  }

  lemma FirstIsMember<T>(s: seq<T>)
    ensures s == [] || s[0] in s
  {}

  lemma MembersConcat<T>(xs: seq<T>, ys: seq<T>)
    ensures Members(xs + ys) == Members(xs) + Members(ys)
  {}

  lemma DistinctTail<T>(s: seq<T>)
    requires s != [] && Distinct(s)
    ensures Distinct(s[1..]) && s[0] !in s[1..]
  {}

  // ---- flat maps ----

  function FlatMap<S, T>(f: S -> seq<T>, xs: seq<S>): seq<T> {
    if xs == [] then [] else f(xs[0]) + FlatMap(f, xs[1..])
  }

  lemma FlatMapSnoc<S, T>(f: S -> seq<T>, xs: seq<S>, k: nat)
    requires k < |xs|
    ensures FlatMap(f, xs[..k + 1]) == FlatMap(f, xs[..k]) + f(xs[k])
  {
    assert xs[..k + 1] == xs[..k] + [xs[k]] && [xs[k]][1..] == [];
    FlatMapAppends(f, xs[..k], [xs[k]]);
  }

  lemma {:induction false} FlatMapAppends<S, T>(f: S -> seq<T>, xs: seq<S>, ys: seq<S>)
    ensures FlatMap(f, xs + ys) == FlatMap(f, xs) + FlatMap(f, ys)
  {
    if xs == [] {
      assert xs + ys == ys;
    } else {
      assert (xs + ys)[1..] == xs[1..] + ys;
      FlatMapAppends(f, xs[1..], ys);
    }
  }

  /** Where in a list an element stands does not matter to the bag of results. */
  lemma FlatMapMiddle<S, T>(f: S -> seq<T>, front: seq<S>, x: S, back: seq<S>)
    ensures multiset(FlatMap(f, front + ([x] + back))) == multiset(f(x)) + multiset(FlatMap(f, front + back))
  {
    FlatMapAppends(f, front, [x] + back);
    FlatMapAppends(f, front, back);
    assert ([x] + back)[1..] == back;
  }

  lemma {:induction false} FlatMapPermutes<S(!new), T>(f: S -> seq<T>, xs: seq<S>, ys: seq<S>)
    requires multiset(xs) == multiset(ys)
    ensures multiset(FlatMap(f, xs)) == multiset(FlatMap(f, ys))
  {
    SameBag(xs, ys);
    if xs != [] {
      assert xs[0] in ys;
      var j :| 0 <= j < |ys| && ys[j] == xs[0];
      var front, back := ys[..j], ys[j + 1..];
      assert ys == front + ([xs[0]] + back);
      assert multiset(xs[1..]) == multiset(front + back) by { TailBag(xs); }
      FlatMapPermutes(f, xs[1..], front + back);
      FlatMapMiddle(f, front, xs[0], back);
    }
  }

  // ---- counting ----

  /** Where in a list `p` holds. */
  function Where<T>(p: T -> bool, s: seq<T>): set<nat> { set k: nat | k < |s| && p(s[k]) }

  ghost function Shifted(xs: set<nat>): (ys: set<nat>)
    ensures forall k: nat :: k in ys <==> k > 0 && k - 1 in xs
  {
    var ys := set x | x in xs :: x + 1;
    assert forall x :: x in xs ==> x + 1 in ys;
    ys
  }

  lemma ShiftedLess(xs: set<nat>, y: nat)
    requires y in xs
    ensures Shifted(xs) == Shifted(xs - {y}) + {y + 1}
  {}

  lemma {:induction false} ShiftedCount(xs: set<nat>)
    ensures |Shifted(xs)| == |xs|
  {
    if xs == {} {
      assert Shifted(xs) == {};
    } else {
      var y :| y in xs;
      ShiftedLess(xs, y);
      ShiftedCount(xs - {y});
    }
  }

  lemma WhereCons<T>(p: T -> bool, s: seq<T>)
    requires s != []
    ensures |Where(p, s)| == (if p(s[0]) then 1 else 0) + |Where(p, s[1..])|
  {
    ShiftedCount(Where(p, s[1..]));
    assert Where(p, s) == (if p(s[0]) then {0} else {}) + Shifted(Where(p, s[1..]));
  }

  // ---- sorting ----

  ghost predicate TotalOrder<T(!new)>(leq: (T, T) -> bool) {
    && (forall x, y :: leq(x, y) || leq(y, x))
    && (forall x, y :: leq(x, y) && leq(y, x) ==> x == y)
    && (forall x, y, z :: leq(x, y) && leq(y, z) ==> leq(x, z))
  }

  ghost predicate SortedBy<T>(s: seq<T>, leq: (T, T) -> bool) {
    forall i, j :: 0 <= i < j < |s| ==> leq(s[i], s[j])
  }

  function InsertBy<T>(x: T, s: seq<T>, leq: (T, T) -> bool): seq<T> {
    if s == [] || leq(x, s[0]) then [x] + s else [s[0]] + InsertBy(x, s[1..], leq)
  }

  function SortBy<T>(s: seq<T>, leq: (T, T) -> bool): seq<T> {
    if s == [] then [] else InsertBy(s[0], SortBy(s[1..], leq), leq)
  }

  /** Total and transitive on the elements of `s`: all that sorting `s` needs of the order. */
  ghost predicate Sortable<T>(s: seq<T>, leq: (T, T) -> bool) {
    && (forall x, y :: x in s && y in s ==> leq(x, y) || leq(y, x))
    && (forall x, y, z :: x in s && y in s && z in s && leq(x, y) && leq(y, z) ==> leq(x, z))
  }

  lemma {:induction false} InsertByPermutes<T>(x: T, s: seq<T>, leq: (T, T) -> bool)
    ensures multiset(InsertBy(x, s, leq)) == multiset([x] + s)
  {
    if s == [] || leq(x, s[0]) {
    } else {
      InsertByPermutes(x, s[1..], leq);
      assert s == [s[0]] + s[1..];
    }
  }

  lemma {:induction false} SortByPermutes<T(!new)>(s: seq<T>, leq: (T, T) -> bool)
    ensures multiset(SortBy(s, leq)) == multiset(s)
    ensures |SortBy(s, leq)| == |s|
    ensures forall x :: x in SortBy(s, leq) <==> x in s
  {
    if s == [] {
    } else {
      SortByPermutes(s[1..], leq);
      InsertByPermutes(s[0], SortBy(s[1..], leq), leq);
      assert s == [s[0]] + s[1..];
    }
    SameBag(SortBy(s, leq), s);
  }

  lemma SameBag<T(!new)>(s: seq<T>, t: seq<T>)
    requires multiset(s) == multiset(t)
    ensures |s| == |t|
    ensures forall x :: x in s <==> x in t
  {
    assert |multiset(s)| == |multiset(t)|;
    forall x ensures x in s <==> x in t {
      assert x in s <==> x in multiset(s);
      assert x in t <==> x in multiset(t);
    }
  }

  lemma ConsSorted<T>(x: T, s: seq<T>, leq: (T, T) -> bool)
    requires SortedBy(s, leq) && forall y :: y in s ==> leq(x, y)
    ensures SortedBy([x] + s, leq)
  {}

  lemma InsertByMembers<T(!new)>(x: T, s: seq<T>, leq: (T, T) -> bool)
    ensures forall y :: y in InsertBy(x, s, leq) <==> y == x || y in s
  {
    InsertByPermutes(x, s, leq);
    SameBag(InsertBy(x, s, leq), [x] + s);
  }

  lemma {:induction false} InsertBySorted<T(!new)>(x: T, s: seq<T>, leq: (T, T) -> bool)
    requires Sortable([x] + s, leq) && SortedBy(s, leq)
    ensures SortedBy(InsertBy(x, s, leq), leq)
  {
    assert x in [x] + s && forall y :: y in s ==> y in [x] + s;
    if s == [] || leq(x, s[0]) {
      forall y | y in s ensures leq(x, y) {
        var j :| 0 <= j < |s| && s[j] == y;
        assert s[0] in s && (j > 0 ==> leq(s[0], s[j]));
      }
      ConsSorted(x, s, leq);
    } else {
      assert s[0] in s && forall y :: y in s[1..] ==> y in s;
      assert Sortable([x] + s[1..], leq);
      InsertBySorted(x, s[1..], leq);
      InsertByMembers(x, s[1..], leq);
      forall y | y in s[1..] ensures leq(s[0], y) {
        var j :| 0 <= j < |s[1..]| && s[1..][j] == y;
        assert s[j + 1] == y;
      }
      ConsSorted(s[0], InsertBy(x, s[1..], leq), leq);
    }
  }

  lemma {:induction false} SortBySorted<T(!new)>(s: seq<T>, leq: (T, T) -> bool)
    requires Sortable(s, leq)
    ensures SortedBy(SortBy(s, leq), leq)
  {
    if s == [] {
    } else {
      SortBySorted(s[1..], leq);
      SortByPermutes(s[1..], leq);
      InsertBySorted(s[0], SortBy(s[1..], leq), leq);
    }
  }

  /** Two sorted sequences with the same elements are equal when the order separates those elements. */
  lemma {:induction false} SortedUnique<T(!new)>(s: seq<T>, t: seq<T>, leq: (T, T) -> bool)
    requires multiset(s) == multiset(t)
    requires SortedBy(s, leq) && SortedBy(t, leq)
    requires forall x, y :: x in s && y in s && leq(x, y) && leq(y, x) ==> x == y
    ensures s == t
  {
    SameBag(s, t);
    if s == [] {
    } else {
      SortedHeads(s, t, leq);
      TailBag(s);
      TailBag(t);
      SortedUnique(s[1..], t[1..], leq);
      assert s == [s[0]] + s[1..] && t == [t[0]] + t[1..];
    }
  }

  lemma TailBag<T>(s: seq<T>)
    requires s != []
    ensures multiset(s[1..]) == multiset(s) - multiset{s[0]}
  {
    assert s == [s[0]] + s[1..];
  }

  lemma SortedHeads<T>(s: seq<T>, t: seq<T>, leq: (T, T) -> bool)
    requires s != [] && t != [] && s[0] in t && t[0] in s
    requires SortedBy(s, leq) && SortedBy(t, leq)
    requires forall x, y :: x in s && y in s && leq(x, y) && leq(y, x) ==> x == y
    ensures s[0] == t[0]
  {
    var i :| 0 <= i < |t| && t[i] == s[0];
    var j :| 0 <= j < |s| && s[j] == t[0];
    assert leq(t[0], t[i]) || i == 0;
    assert leq(s[0], s[j]) || j == 0;
  }

  /** Two enumerations of one set are permutations of each other. */
  lemma {:induction false} EnumerationsPermute<T(!new)>(s: seq<T>, t: seq<T>, xs: set<T>)
    requires Enumerates(s, xs) && Enumerates(t, xs)
    ensures multiset(s) == multiset(t)
  {
    forall x ensures multiset(s)[x] == multiset(t)[x] {
      DistinctCount(s, x);
      DistinctCount(t, x);
    }
  }

  lemma {:induction false} DistinctCount<T>(s: seq<T>, x: T)
    requires Distinct(s)
    ensures multiset(s)[x] == if x in s then 1 else 0
  {
    if s == [] {
    } else {
      assert s == [s[0]] + s[1..];
      DistinctTail(s);
      DistinctCount(s[1..], x);
    }
  }

  /** Code-point order on strings, as Python's `sorted` compares them. */
  predicate StringLeq(s: string, t: string) {
    s == "" || (t != "" && (s[0] < t[0] || (s[0] == t[0] && StringLeq(s[1..], t[1..]))))
  }

  /** One string is a prefix of the other, or smaller at the first place where they differ. */
  ghost predicate ComesFirst(s: string, t: string) {
    s <= t || exists k: nat :: k < |s| && k < |t| && s[..k] == t[..k] && s[k] < t[k]
  }

  lemma ComesFirstCons(c: char, s: string, t: string)
    ensures ComesFirst([c] + s, [c] + t) <==> ComesFirst(s, t)
  {
    var cs, ct := [c] + s, [c] + t;
    if k: nat :| k < |s| && k < |t| && s[..k] == t[..k] && s[k] < t[k] {
      assert cs[..k + 1] == [c] + s[..k] && ct[..k + 1] == [c] + t[..k] && cs[k + 1] < ct[k + 1];
    }
    if k: nat :| k < |cs| && k < |ct| && cs[..k] == ct[..k] && cs[k] < ct[k] {
      assert k > 0 && s[..k - 1] == cs[..k][1..] && t[..k - 1] == ct[..k][1..] && s[k - 1] < t[k - 1];
    }
    if cs <= ct { assert s == cs[1..] && t == ct[1..]; }
  }

  lemma {:induction false} StringLeqMeans(s: string, t: string)
    ensures StringLeq(s, t) <==> ComesFirst(s, t)
  {
    if s != "" && t != "" {
      if s[0] == t[0] {
        StringLeqMeans(s[1..], t[1..]);
        ComesFirstCons(s[0], s[1..], t[1..]);
        assert s == [s[0]] + s[1..] && t == [t[0]] + t[1..];
      } else if s[0] < t[0] {
        assert s[..0] == t[..0];
      }
    }
  }
}
